/** The recommendation engine of the poll algorithm: candidates from the most
    similar users' liked items, each scored by a similarity-weighted prediction. */
module Recommendation {
  import opened Namespace
  import opened SetStore

  /** similaritySum: the similarity scores of `users`, added up. */
  ghost function SimilaritySum(sims: map<string, real>, users: set<string>): real
    decreases users
  {
    if users == {} then 0.0
    else
      var v :| v in users;
      ScoreOf(sims, v) + SimilaritySum(sims, users - {v})
  }

  /** The sum does not depend on which member is taken first. */
  lemma {:induction false} SimilaritySumRemove(sims: map<string, real>, users: set<string>, v: string)
    requires v in users
    ensures SimilaritySum(sims, users) == ScoreOf(sims, v) + SimilaritySum(sims, users - {v})
    decreases users
  {
    var w :| w in users && SimilaritySum(sims, users) == ScoreOf(sims, w) + SimilaritySum(sims, users - {w});
    if w != v {
      SimilaritySumRemove(sims, users - {w}, v);
      SimilaritySumRemove(sims, users - {v}, w);
      assert users - {w} - {v} == users - {v} - {w};
    }
  }

  /** With every score in [0, 1] the sum over `users` lies between 0 and |users|. */
  lemma {:induction false} SimilaritySumBounds(sims: map<string, real>, users: set<string>)
    requires UnitScores(sims)
    ensures 0.0 <= SimilaritySum(sims, users) <= |users| as real
    decreases users
  {
    if users != {} {
      var v :| v in users;
      SimilaritySumRemove(sims, users, v);
      SimilaritySumBounds(sims, users - {v});
    }
  }

  /** predictFor: the similarity scores of the item's likers, summed and divided
      by the number of likers. With every similarity in [0, 1] the prediction is
      in [0, 1] as well. */
  ghost function Predict(sims: map<string, real>, likers: set<string>): (r: real)
    requires likers != {}
    ensures UnitScores(sims) ==> 0.0 <= r <= 1.0
  {
    var sum := SimilaritySum(sims, likers);
    var n := |likers| as real;
    assert UnitScores(sims) ==> 0.0 <= sum / n <= 1.0 by {
      if UnitScores(sims) {
        SimilaritySumBounds(sims, likers);
        assert sum / n * n == sum;
      }
    }
    sum / n
  }

  /** A prediction is the average of the likers' scores: when every liker has the
      same score `s`, the prediction is `s`. */
  lemma PredictUniform(sims: map<string, real>, likers: set<string>, s: real)
    requires likers != {}
    requires forall v :: v in likers ==> ScoreOf(sims, v) == s
    ensures Predict(sims, likers) == s
  {
    UniformSum(sims, likers, s);
  }

  lemma {:induction false} UniformSum(sims: map<string, real>, users: set<string>, s: real)
    requires forall v :: v in users ==> ScoreOf(sims, v) == s
    ensures SimilaritySum(sims, users) == (|users| as real) * s
    decreases users
  {
    if users != {} {
      var v :| v in users;
      SimilaritySumRemove(sims, users, v);
      UniformSum(sims, users - {v}, s);
    }
  }

  /** predictFor against the store: the similarity sum over the item's likers,
      divided by their number (SCARD). An item without likers has the sum 0, and
      the float64 quotient 0/0 is NaN. */
  method PredictFor(db: Store, c: string, userId: string, itemId: string) returns (score: Float64)
    ensures score.NaN? <==> db.data.Members(ItemLiked(c, itemId)) == {}
    ensures score.Finite? ==>
              score.value == Predict(db.data.Ranking(UserSimilarity(c, userId)), db.data.Members(ItemLiked(c, itemId)))
  {
    var sims := db.data.Ranking(UserSimilarity(c, userId));
    var likers := db.data.Members(ItemLiked(c, itemId));
    var sum := 0.0;
    var rest := likers;
    while rest != {}
      invariant rest <= likers
      invariant sum + SimilaritySum(sims, rest) == SimilaritySum(sims, likers)
      decreases rest
    {
      var v :| v in rest;
      SimilaritySumRemove(sims, rest, v);
      sum := sum + ScoreOf(sims, v);
      rest := rest - {v};
    }
    var itemLikedCount := |likers|;
    if itemLikedCount == 0 {
      score := NaN;
    } else {
      score := Finite(sum / (itemLikedCount as real));
    }
  }

  /** The scores the ZADD loop leaves for user `u`: the prediction of every
      candidate item that has a liker. A candidate without likers is predicted
      NaN, which the store refuses. */
  ghost function Predictions(st: Snapshot, c: string, u: string, candidates: set<string>): map<string, real> {
    map d | d in candidates && st.Members(ItemLiked(c, d)) != {} :: Predict(st.Ranking(UserSimilarity(c, u)), st.Members(ItemLiked(c, d)))
  }

  lemma PredictionsStep(st: Snapshot, c: string, u: string, done: set<string>, d: string)
    ensures st.Members(ItemLiked(c, d)) == {} ==> Predictions(st, c, u, done + {d}) == Predictions(st, c, u, done)
    ensures st.Members(ItemLiked(c, d)) != {} ==>
              Predictions(st, c, u, done + {d})
              == Predictions(st, c, u, done)[d := Predict(st.Ranking(UserSimilarity(c, u)), st.Members(ItemLiked(c, d)))]
  {
  }

  /** Under the two-way index every item liked by `v` has `v` among its likers. */
  lemma LikedItemsHaveLikers(st: Snapshot, c: string, v: string, items: set<string>)
    requires Indexed(st, c, true)
    requires items <= st.Members(UserLiked(c, v))
    ensures forall d :: d in items ==> v in st.Members(ItemLiked(c, d))
  {
  }

  /** The scratch set after the SUNIONSTORE loop: each call has one source key and
      overwrites the destination, so only the last neighbour's liked set is left. */
  function ScratchAfter(st: Snapshot, c: string, u: string, neighbours: seq<string>): Snapshot
    requires neighbours != []
  {
    st.Store(UserTemp(c, u), st.Members(UserLiked(c, neighbours[|neighbours| - 1])))
  }

  /** What updateRecommendationFor returns and leaves in the store, given the
      neighbours ZREVRANGE listed. */
  ghost function RecommendationOutcome(st: Snapshot, faults: set<Call>, c: string, u: string, neighbours: seq<string>)
    : (Outcome, Snapshot)
  {
    var simKey := UserSimilarity(c, u);
    var temp := UserTemp(c, u);
    var liked := UserLiked(c, u);
    if ZRevRangeCall(simKey) in faults then (Fail(StoreFailure(ZRevRangeCall(simKey))), st)
    else if neighbours == [] then (Pass, st)
    else
      var st1 := ScratchAfter(st, c, u, neighbours);
      if SDiffCall(temp, liked) in faults then (Fail(StoreFailure(SDiffCall(temp, liked))), st1.Del(temp))
      else
        var candidates := st1.Members(temp) - st1.Members(liked);
        (Pass, st1.ZAddAll(RecommendedItem(c, u), Predictions(st1, c, u, candidates)).Del(temp))
  }

  /** The SUNIONSTORE loop over the neighbours. */
  method FillScratch(db: Store, c: string, userId: string, neighbours: seq<string>)
    requires neighbours != []
    modifies db
    ensures db.data == ScratchAfter(old(db.data), c, userId, neighbours)
  {
    ghost var st := db.data;
    var temp := UserTemp(c, userId);
    var j := 0;
    while j < |neighbours|
      invariant 0 <= j <= |neighbours|
      invariant j == 0 ==> db.data == st
      invariant j > 0 ==> db.data == ScratchAfter(st, c, userId, neighbours[..j])
    {
      var similarUserId := neighbours[j];
      ghost var before := db.data;
      db.SUnionStore(temp, UserLiked(c, similarUserId));
      assert before.Members(UserLiked(c, similarUserId)) == st.Members(UserLiked(c, similarUserId));
      if j > 0 {
        StoreTwice(st, temp, st.Members(UserLiked(c, neighbours[j - 1])), st.Members(UserLiked(c, similarUserId)));
      }
      j := j + 1;
    }
    assert neighbours[..j] == neighbours;
  }

  /** The ZADD loop over the candidate items: one predicted score each. */
  method ScoreCandidates(db: Store, c: string, userId: string, candidates: set<string>)
    modifies db
    ensures db.data == old(db.data).ZAddAll(RecommendedItem(c, userId), Predictions(old(db.data), c, userId, candidates))
  {
    ghost var st := db.data;
    var recommended := RecommendedItem(c, userId);
    ghost var done: set<string> := {};
    var todo := candidates;
    while todo != {}
      invariant done + todo == candidates && done !! todo
      invariant db.data == st.ZAddAll(recommended, Predictions(st, c, userId, done))
      decreases todo
    {
      var diffItemId :| diffItemId in todo;
      todo := todo - {diffItemId};
      assert db.data.Ranking(UserSimilarity(c, userId)) == st.Ranking(UserSimilarity(c, userId));
      var score := PredictFor(db, c, userId, diffItemId);
      PredictionsStep(st, c, userId, done, diffItemId);
      if score.Finite? {
        ZAddAllThenZAdd(st, recommended, Predictions(st, c, userId, done), diffItemId, score.value);
      }
      db.ZAdd(recommended, score, diffItemId);
      done := done + {diffItemId};
    }
  }

  method UpdateRecommendationFor(db: Store, c: string, maxNeighbors: int, userId: string)
    returns (r: Outcome, ghost neighbours: seq<string>)
    modifies db
    ensures var sims := old(db.data).Ranking(UserSimilarity(c, userId));
            ZRevRangeCall(UserSimilarity(c, userId)) !in db.faults ==>
              TopRanked(sims, RangeCount(|sims|, maxNeighbors - 1), neighbours)
    ensures (r, db.data) == RecommendationOutcome(old(db.data), db.faults, c, userId, neighbours)
  {
    ghost var st := db.data;
    var temp := UserTemp(c, userId);
    var liked := UserLiked(c, userId);
    var ranked := db.ZRevRange(UserSimilarity(c, userId), maxNeighbors - 1);
    if ranked.Err? {
      neighbours := [];
      return Fail(ranked.error), neighbours;
    }
    var mostSimilarUserIds := ranked.value;
    neighbours := mostSimilarUserIds;
    if |mostSimilarUserIds| == 0 {
      return Pass, neighbours;
    }
    FillScratch(db, c, userId, mostSimilarUserIds);
    var diff := db.SDiff(temp, liked);
    if diff.Err? {
      db.Del(temp);
      return Fail(diff.error), neighbours;
    }
    ScoreCandidates(db, c, userId, diff.value);
    db.Del(temp);
    return Pass, neighbours;
  }

  // Properties of updateRecommendationFor

  /** A user without any similarity entry has no neighbours, and nothing is written. */
  lemma RecommendationWithoutNeighbours(st: Snapshot, faults: set<Call>, c: string, u: string, maxNeighbors: int,
                                        neighbours: seq<string>)
    requires st.Ranking(UserSimilarity(c, u)) == map[]
    requires TopRanked(st.Ranking(UserSimilarity(c, u)), RangeCount(0, maxNeighbors - 1), neighbours)
    ensures RecommendationOutcome(st, faults, c, u, neighbours).1 == st
    ensures ZRevRangeCall(UserSimilarity(c, u)) !in faults ==> RecommendationOutcome(st, faults, c, u, neighbours).0 == Pass
  {
    assert |neighbours| == 0;
  }

  /** With a positive MAX_NEIGHBORS, ZREVRANGE 0 MAX_NEIGHBORS-1 lists as many
      neighbours as the ranking holds, up to MAX_NEIGHBORS, all taken from it. */
  lemma NeighbourCount(sims: map<string, real>, maxNeighbors: int, neighbours: seq<string>)
    requires maxNeighbors >= 1
    requires TopRanked(sims, RangeCount(|sims|, maxNeighbors - 1), neighbours)
    ensures |neighbours| == if |sims| < maxNeighbors then |sims| else maxNeighbors
    ensures forall v :: v in neighbours ==> v in sims
  {
  }

  /** Every recommendation entry that changes is for an item the last neighbour
      likes and the user does not, and it gets the item's predicted score. So an
      item the user already likes is never written. */
  lemma RecommendationExcludesLiked(st: Snapshot, faults: set<Call>, c: string, u: string, neighbours: seq<string>,
                                    d: string)
    requires !Kept(st, RecommendationOutcome(st, faults, c, u, neighbours).1, RecommendedItem(c, u), d)
    ensures RecommendationOutcome(st, faults, c, u, neighbours).0 == Pass && neighbours != []
    ensures d !in st.Members(UserLiked(c, u))
    ensures d in st.Members(UserLiked(c, neighbours[|neighbours| - 1]))
    ensures st.Members(ItemLiked(c, d)) != {}
    ensures RecommendationOutcome(st, faults, c, u, neighbours).1.Ranking(RecommendedItem(c, u))[d]
            == Predict(st.Ranking(UserSimilarity(c, u)), st.Members(ItemLiked(c, d)))
  {
    var temp := UserTemp(c, u);
    var liked := UserLiked(c, u);
    var st1 := ScratchAfter(st, c, u, neighbours);
    var candidates := st1.Members(temp) - st1.Members(liked);
    assert d in candidates;
    assert st1.Members(ItemLiked(c, d)) == st.Members(ItemLiked(c, d));
    assert st1.Ranking(UserSimilarity(c, u)) == st.Ranking(UserSimilarity(c, u));
  }

  /** Only items the last neighbour likes are candidates: an item liked by an
      earlier neighbour alone is never scored. */
  lemma RecommendationUsesLastNeighbourOnly(st: Snapshot, faults: set<Call>, c: string, u: string,
                                            neighbours: seq<string>, d: string)
    requires neighbours != []
    requires d !in st.Members(UserLiked(c, neighbours[|neighbours| - 1]))
    ensures Kept(st, RecommendationOutcome(st, faults, c, u, neighbours).1, RecommendedItem(c, u), d)
  {
    if !Kept(st, RecommendationOutcome(st, faults, c, u, neighbours).1, RecommendedItem(c, u), d) {
      RecommendationExcludesLiked(st, faults, c, u, neighbours, d);
    }
  }

  /** Under the two-way index no prediction is NaN: every item the last neighbour
      likes has that neighbour as a liker, so each such item the user does not
      like gets its predicted score. */
  lemma RecommendationScoresEveryCandidate(st: Snapshot, faults: set<Call>, c: string, u: string,
                                           neighbours: seq<string>, d: string)
    requires Indexed(st, c, true)
    requires RecommendationOutcome(st, faults, c, u, neighbours).0 == Pass && neighbours != []
    requires d in st.Members(UserLiked(c, neighbours[|neighbours| - 1])) && d !in st.Members(UserLiked(c, u))
    ensures st.Members(ItemLiked(c, d)) != {}
    ensures var rank := RecommendationOutcome(st, faults, c, u, neighbours).1.Ranking(RecommendedItem(c, u));
            d in rank && rank[d] == Predict(st.Ranking(UserSimilarity(c, u)), st.Members(ItemLiked(c, d)))
  {
    var last := neighbours[|neighbours| - 1];
    LikedItemsHaveLikers(st, c, last, {d});
    var st1 := ScratchAfter(st, c, u, neighbours);
    assert d in st1.Members(UserTemp(c, u)) - st1.Members(UserLiked(c, u));
    assert st1.Members(ItemLiked(c, d)) == st.Members(ItemLiked(c, d));
    assert st1.Ranking(UserSimilarity(c, u)) == st.Ranking(UserSimilarity(c, u));
  }

  /** The scratch set does not outlive the call: a call that got neighbours
      deletes it, whatever the outcome, and any other call changes nothing. */
  lemma RecommendationDropsScratch(st: Snapshot, faults: set<Call>, c: string, u: string, neighbours: seq<string>)
    ensures var after := RecommendationOutcome(st, faults, c, u, neighbours).1;
            if ZRevRangeCall(UserSimilarity(c, u)) in faults || neighbours == [] then after == st
            else UserTemp(c, u) !in after.sets && UserTemp(c, u) !in after.zsets
  {
  }

  /** Only the user's recommendation ranking and scratch set change; every base set
      and every other ranking keeps its contents. */
  lemma RecommendationFrame(st: Snapshot, faults: set<Call>, c: string, u: string, neighbours: seq<string>)
    ensures var after := RecommendationOutcome(st, faults, c, u, neighbours).1;
            && (forall k :: k != UserTemp(c, u) ==> after.Members(k) == st.Members(k))
            && (forall k :: k != UserTemp(c, u) && k != RecommendedItem(c, u) ==> after.Ranking(k) == st.Ranking(k))
  {
    var temp := UserTemp(c, u);
    if ZRevRangeCall(UserSimilarity(c, u)) in faults || neighbours == [] {
      return;
    }
    var st1 := ScratchAfter(st, c, u, neighbours);
    StoreFrame(st, temp, st.Members(UserLiked(c, neighbours[|neighbours| - 1])));
    DelFrame(st1, temp);
    if SDiffCall(temp, UserLiked(c, u)) in faults {
      return;
    }
    var candidates := st1.Members(temp) - st1.Members(UserLiked(c, u));
    var p := Predictions(st1, c, u, candidates);
    assert RecommendationOutcome(st, faults, c, u, neighbours).1 == st1.ZAddAll(RecommendedItem(c, u), p).Del(temp);
    WriteTwoFrame(st1, RecommendedItem(c, u), p, temp);
  }

  /** A batch of ZADDs to `rec` followed by DEL `temp` touches nothing else. */
  lemma WriteTwoFrame(st1: Snapshot, rec: Key, p: map<string, real>, temp: Key)
    requires rec != temp
    ensures var after := st1.ZAddAll(rec, p).Del(temp);
            && (forall k :: k != temp ==> after.Members(k) == st1.Members(k))
            && (forall k :: k != temp && k != rec ==> after.Ranking(k) == st1.Ranking(k))
  {
    ZAddAllFrame(st1, rec, p);
    DelFrame(st1.ZAddAll(rec, p), temp);
  }

  /** With similarity scores in [0, 1] the predicted scores stay in [0, 1]. */
  lemma RecommendationScoresBounded(st: Snapshot, faults: set<Call>, c: string, u: string, neighbours: seq<string>)
    requires UnitScores(st.Ranking(UserSimilarity(c, u))) && UnitScores(st.Ranking(RecommendedItem(c, u)))
    ensures UnitScores(RecommendationOutcome(st, faults, c, u, neighbours).1.Ranking(RecommendedItem(c, u)))
  {
    var after := RecommendationOutcome(st, faults, c, u, neighbours).1;
    var rec := RecommendedItem(c, u);
    forall d | d in after.Ranking(rec) ensures 0.0 <= after.Ranking(rec)[d] <= 1.0 {
      if !Kept(st, after, rec, d) {
        RecommendationExcludesLiked(st, faults, c, u, neighbours, d);
      }
    }
  }
}
