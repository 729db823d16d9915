/** Preference recording and the entry points of input.go: like and dislike keep
    the user->items and item->users sets in step and count distinct raters in the
    popularity rankings; Import routes a rating to one of them; Update checks its
    input and runs the recompute steps in order. */
module Preference {
  import opened Namespace
  import opened SetStore

  /** One request: a collection, a user, an item and a rating. */
  datatype Input = Input(collection: string, userId: string, itemId: string, rate: int)

  /** An integer held in a Go interface value, tagged with its dynamic type. */
  datatype Reply = IntReply(n: int) | Int64Reply(n: int)

  /** Go's comma-ok assertion `v, _ := rs.(int)`: the value when the dynamic type
      is int, and int's zero value when it is anything else. */
  function AssertInt(rs: Reply): int {
    match rs
    case IntReply(n) => n
    case Int64Reply(_) => 0
  }

  /** The store client's reply to SISMEMBER: 1 or 0, delivered as an int64, as
      the client delivers every integer reply. */
  function SIsMemberReply(isMember: bool): Reply {
    Int64Reply(if isMember then 1 else 0)
  }

  /** On the SISMEMBER reply the assertion yields 0 whether or not the user is a
      member, so like and dislike cannot see the answer; an int reply would have
      kept it. */
  lemma AssertIntHidesMembership(isMember: bool)
    ensures AssertInt(SIsMemberReply(isMember)) == 0
    ensures AssertInt(IntReply(if isMember then 1 else 0)) == (if isMember then 1 else 0)
  {
  }

  /** The two SADDs of like/dislike, each of which can fail and end the call. */
  function AddBoth(st: Snapshot, faults: set<Call>, c: string, liked: bool, u: string, item: string)
    : (Outcome, Snapshot)
  {
    var rated := Rated(c, liked, u);
    var ratedBy := RatedBy(c, liked, item);
    if SAddCall(rated, item) in faults then (Fail(StoreFailure(SAddCall(rated, item))), st)
    else
      var st1 := st.SAdd(rated, item);
      if SAddCall(ratedBy, u) in faults then (Fail(StoreFailure(SAddCall(ratedBy, u))), st1)
      else (Pass, st1.SAdd(ratedBy, u))
  }

  /** like (`liked`) or dislike exactly as written: the SISMEMBER reply goes
      through `rs.(int)`, which always yields 0, so the popularity counter is
      bumped on every call, whether or not the user had rated the item before. */
  function RecordAsWrittenOutcome(st: Snapshot, faults: set<Call>, c: string, liked: bool, u: string, item: string)
    : (r: (Outcome, Snapshot))
    ensures SIsMemberCall(RatedBy(c, liked, item), u) in faults ==>
              r == (Fail(StoreFailure(SIsMemberCall(RatedBy(c, liked, item), u))), st)
    ensures SIsMemberCall(RatedBy(c, liked, item), u) !in faults ==>
              r.1.Score(Popularity(c, liked), item) == st.Score(Popularity(c, liked), item) + 1.0
  {
    var ratedBy := RatedBy(c, liked, item);
    if SIsMemberCall(ratedBy, u) in faults then (Fail(StoreFailure(SIsMemberCall(ratedBy, u))), st)
    else
      var sis := AssertInt(SIsMemberReply(u in st.Members(ratedBy)));
      var st1 := if sis == 0 then st.ZIncrBy(Popularity(c, liked), item, 1.0) else st;
      AddBothFrame(st1, faults, c, liked, u, item);
      AddBoth(st1, faults, c, liked, u, item)
  }

  /** like (`liked`) or dislike as intended: the counter is bumped only when the
      user was not yet among the item's raters. */
  function RecordOutcome(st: Snapshot, faults: set<Call>, c: string, liked: bool, u: string, item: string)
    : (Outcome, Snapshot)
  {
    var ratedBy := RatedBy(c, liked, item);
    if SIsMemberCall(ratedBy, u) in faults then (Fail(StoreFailure(SIsMemberCall(ratedBy, u))), st)
    else
      var st1 := if u !in st.Members(ratedBy) then st.ZIncrBy(Popularity(c, liked), item, 1.0) else st;
      AddBoth(st1, faults, c, liked, u, item)
  }

  /** like (`liked`) or dislike: the popularity update, then the two index writes,
      returning at the first failing call. Nothing is rolled back. */
  method Record(db: Store, c: string, liked: bool, userId: string, itemId: string) returns (r: Outcome)
    modifies db
    ensures (r, db.data) == RecordOutcome(old(db.data), db.faults, c, liked, userId, itemId)
  {
    var rs := db.SIsMember(RatedBy(c, liked, itemId), userId);
    if rs.Err? {
      return Fail(rs.error);
    }
    if rs.value == 0 {
      db.ZIncrBy(Popularity(c, liked), 1.0, itemId);
    }
    r := db.SAdd(Rated(c, liked, userId), itemId);
    if r.Fail? {
      return;
    }
    r := db.SAdd(RatedBy(c, liked, itemId), userId);
  }

  method Like(db: Store, c: string, userId: string, itemId: string) returns (r: Outcome)
    modifies db
    ensures (r, db.data) == RecordOutcome(old(db.data), db.faults, c, true, userId, itemId)
  {
    r := Record(db, c, true, userId, itemId);
  }

  method Dislike(db: Store, c: string, userId: string, itemId: string) returns (r: Outcome)
    modifies db
    ensures (r, db.data) == RecordOutcome(old(db.data), db.faults, c, false, userId, itemId)
  {
    r := Record(db, c, false, userId, itemId);
  }

  /** Import: a positive rate is a like; zero and negative rates are dislikes. */
  method Import(db: Store, i: Input) returns (r: Outcome)
    modifies db
    ensures (r, db.data) == RecordOutcome(old(db.data), db.faults, i.collection, i.rate > 0, i.userId, i.itemId)
  {
    if i.rate > 0 {
      r := Like(db, i.collection, i.userId, i.itemId);
    } else {
      r := Dislike(db, i.collection, i.userId, i.itemId);
    }
  }

  // Properties of like and dislike

  /** The two SADDs write the two index sets and nothing else. */
  lemma AddBothFrame(st: Snapshot, faults: set<Call>, c: string, liked: bool, u: string, item: string)
    ensures var after := AddBoth(st, faults, c, liked, u, item).1;
            && after.zsets == st.zsets
            && (forall k :: k != Rated(c, liked, u) && k != RatedBy(c, liked, item) ==> after.Members(k) == st.Members(k))
            && (AddBoth(st, faults, c, liked, u, item).0 == Pass ==>
                  && after.Members(Rated(c, liked, u)) == st.Members(Rated(c, liked, u)) + {item}
                  && after.Members(RatedBy(c, liked, item)) == st.Members(RatedBy(c, liked, item)) + {u})
  {
    var rated := Rated(c, liked, u);
    var st1 := st.SAdd(rated, item);
    SAddFrame(st, rated, item);
    SAddFrame(st1, RatedBy(c, liked, item), u);
  }

  /** like/dislike writes the user's rated set, the item's rated-by set and the
      popularity ranking of its kind, and nothing else. */
  lemma RecordFrame(st: Snapshot, faults: set<Call>, c: string, liked: bool, u: string, item: string)
    ensures var after := RecordOutcome(st, faults, c, liked, u, item).1;
            && (forall k :: k != Rated(c, liked, u) && k != RatedBy(c, liked, item) ==> after.Members(k) == st.Members(k))
            && (forall k :: k != Popularity(c, liked) ==> after.Ranking(k) == st.Ranking(k))
            && (RecordOutcome(st, faults, c, liked, u, item).0 == Pass ==>
                  && after.Members(Rated(c, liked, u)) == st.Members(Rated(c, liked, u)) + {item}
                  && after.Members(RatedBy(c, liked, item)) == st.Members(RatedBy(c, liked, item)) + {u})
  {
    var ratedBy := RatedBy(c, liked, item);
    var after := RecordOutcome(st, faults, c, liked, u, item).1;
    if SIsMemberCall(ratedBy, u) !in faults {
      var st1 := if u !in st.Members(ratedBy) then st.ZIncrBy(Popularity(c, liked), item, 1.0) else st;
      ZAddFrame(st, Popularity(c, liked), item, st.Score(Popularity(c, liked), item) + 1.0);
      assert st1.sets == st.sets;
      assert forall k :: k != Popularity(c, liked) ==> st1.Ranking(k) == st.Ranking(k);
      assert after == AddBoth(st1, faults, c, liked, u, item).1;
      AddBothFrame(st1, faults, c, liked, u, item);
    } else {
      assert after == st;
    }
  }

  /** A failing membership read ends the call before anything is written. */
  lemma RecordReadFailure(st: Snapshot, faults: set<Call>, c: string, liked: bool, u: string, item: string)
    requires SIsMemberCall(RatedBy(c, liked, item), u) in faults
    ensures RecordOutcome(st, faults, c, liked, u, item)
            == (Fail(StoreFailure(SIsMemberCall(RatedBy(c, liked, item), u))), st)
  {
  }

  /** The popularity counter of the item grows by exactly one when the user was not
      yet among its raters and is unchanged otherwise; no other counter moves. */
  lemma RecordCountsDistinctRaters(st: Snapshot, faults: set<Call>, c: string, liked: bool, u: string, item: string)
    requires SIsMemberCall(RatedBy(c, liked, item), u) !in faults
    ensures var after := RecordOutcome(st, faults, c, liked, u, item).1;
            && after.Score(Popularity(c, liked), item)
               == st.Score(Popularity(c, liked), item) + (if u in st.Members(RatedBy(c, liked, item)) then 0.0 else 1.0)
            && (forall m :: m != item ==> Kept(st, after, Popularity(c, liked), m))
            && (forall k :: k != Popularity(c, liked) ==> after.Ranking(k) == st.Ranking(k))
  {
    RecordFrame(st, faults, c, liked, u, item);
    var st1 := if u !in st.Members(RatedBy(c, liked, item)) then st.ZIncrBy(Popularity(c, liked), item, 1.0) else st;
    AddBothFrame(st1, faults, c, liked, u, item);
    assert RecordOutcome(st, faults, c, liked, u, item).1 == AddBoth(st1, faults, c, liked, u, item).1;
  }

  /** After a successful call the item is in the user's set and the user in the
      item's set, so the two-way index is kept. */
  lemma RecordIndexes(st: Snapshot, faults: set<Call>, c: string, liked: bool, u: string, item: string)
    requires RecordOutcome(st, faults, c, liked, u, item).0 == Pass
    ensures var after := RecordOutcome(st, faults, c, liked, u, item).1;
            && item in after.Members(Rated(c, liked, u))
            && u in after.Members(RatedBy(c, liked, item))
            && (Indexed(st, c, liked) ==> Indexed(after, c, liked))
  {
    RecordFrame(st, faults, c, liked, u, item);
    if Indexed(st, c, liked) {
      IndexedAddPair(st, RecordOutcome(st, faults, c, liked, u, item).1, c, liked, u, item);
    }
  }

  /** Recording the same rating again leaves every set and counter as the first
      successful call left them, whichever of its calls fail; with the same
      faults it succeeds. */
  lemma RecordIdempotent(st: Snapshot, faults: set<Call>, faults2: set<Call>, c: string, liked: bool, u: string,
                         item: string)
    requires RecordOutcome(st, faults, c, liked, u, item).0 == Pass
    ensures var after := RecordOutcome(st, faults, c, liked, u, item).1;
            && RecordOutcome(after, faults2, c, liked, u, item).1 == after
            && RecordOutcome(after, faults, c, liked, u, item) == (Pass, after)
  {
    var after := RecordOutcome(st, faults, c, liked, u, item).1;
    RecordIndexes(st, faults, c, liked, u, item);
    var rated := Rated(c, liked, u);
    var ratedBy := RatedBy(c, liked, item);
    assert after.SAdd(rated, item) == after by {
      assert after.Members(rated) + {item} == after.Members(rated);
      assert rated in after.sets;
      assert after.sets[rated := after.Members(rated)] == after.sets;
    }
    assert after.SAdd(ratedBy, u) == after by {
      assert after.Members(ratedBy) + {u} == after.Members(ratedBy);
      assert ratedBy in after.sets;
      assert after.sets[ratedBy := after.Members(ratedBy)] == after.sets;
    }
  }

  /** A dislike never touches the like sets or the most-liked ranking, and a like
      never touches the dislike sets or the most-disliked ranking. */
  lemma RecordKeepsOtherKind(st: Snapshot, faults: set<Call>, c: string, liked: bool, u: string, item: string)
    ensures var after := RecordOutcome(st, faults, c, liked, u, item).1;
            && (!liked ==> forall v :: after.Members(UserLiked(c, v)) == st.Members(UserLiked(c, v)))
            && (!liked ==> forall j :: after.Members(ItemLiked(c, j)) == st.Members(ItemLiked(c, j)))
            && (liked ==> forall v :: after.Members(UserDisliked(c, v)) == st.Members(UserDisliked(c, v)))
            && (liked ==> forall j :: after.Members(ItemDisliked(c, j)) == st.Members(ItemDisliked(c, j)))
            && after.Ranking(Popularity(c, !liked)) == st.Ranking(Popularity(c, !liked))
            && (Indexed(st, c, !liked) ==> Indexed(after, c, !liked))
  {
    var after := RecordOutcome(st, faults, c, liked, u, item).1;
    var other := !liked;
    RecordFrame(st, faults, c, liked, u, item);
    forall v ensures after.Members(Rated(c, other, v)) == st.Members(Rated(c, other, v)) {
      assert Rated(c, other, v) != Rated(c, liked, u) && Rated(c, other, v) != RatedBy(c, liked, item);
    }
    forall j ensures after.Members(RatedBy(c, other, j)) == st.Members(RatedBy(c, other, j)) {
      assert RatedBy(c, other, j) != Rated(c, liked, u) && RatedBy(c, other, j) != RatedBy(c, liked, item);
    }
    if Indexed(st, c, other) {
      IndexedKindFrame(st, after, c, other);
    }
  }

  /** There is no rollback: when the first SADD fails after a new rater was
      counted, the call fails and the increment stays. */
  lemma RecordNoRollback(st: Snapshot, faults: set<Call>, c: string, liked: bool, u: string, item: string)
    requires SIsMemberCall(RatedBy(c, liked, item), u) !in faults
    requires u !in st.Members(RatedBy(c, liked, item))
    requires SAddCall(Rated(c, liked, u), item) in faults
    ensures var (r, after) := RecordOutcome(st, faults, c, liked, u, item);
            && r == Fail(StoreFailure(SAddCall(Rated(c, liked, u), item)))
            && after.Score(Popularity(c, liked), item) == st.Score(Popularity(c, liked), item) + 1.0
            && after.sets == st.sets
  {
  }

  // The code as written counts rating events, not distinct raters

  /** The code as written and as intended part only on a repeated rating: for a
      new rater they agree on everything; for a repeated one they return the same
      result and sets, and the as-written counter ends one higher. */
  lemma RecordAsWrittenDiffersOnRepeat(st: Snapshot, faults: set<Call>, c: string, liked: bool, u: string,
                                       item: string)
    requires SIsMemberCall(RatedBy(c, liked, item), u) !in faults
    ensures u !in st.Members(RatedBy(c, liked, item)) ==>
              RecordAsWrittenOutcome(st, faults, c, liked, u, item) == RecordOutcome(st, faults, c, liked, u, item)
    ensures var written := RecordAsWrittenOutcome(st, faults, c, liked, u, item);
            var intended := RecordOutcome(st, faults, c, liked, u, item);
            && written.0 == intended.0
            && written.1.sets == intended.1.sets
            && (u in st.Members(RatedBy(c, liked, item)) ==>
                  written.1.Score(Popularity(c, liked), item) == intended.1.Score(Popularity(c, liked), item) + 1.0)
  {
    var bumped := st.ZIncrBy(Popularity(c, liked), item, 1.0);
    if u in st.Members(RatedBy(c, liked, item)) {
      AddBothFrame(st, faults, c, liked, u, item);
      AddBothFrame(bumped, faults, c, liked, u, item);
    }
  }

  /** u1 likes i1 twice in an empty collection: as written the most-liked counter
      of i1 reads 2, as intended it reads 1. */
  lemma LikeTwiceExample()
    ensures var st := Snapshot(map[], map[]);
            var once := RecordAsWrittenOutcome(st, {}, "movies", true, "u1", "i1");
            var twice := RecordAsWrittenOutcome(once.1, {}, "movies", true, "u1", "i1");
            twice.1.Score(MostLiked("movies"), "i1") == 2.0
    ensures var st := Snapshot(map[], map[]);
            var once := RecordOutcome(st, {}, "movies", true, "u1", "i1");
            var twice := RecordOutcome(once.1, {}, "movies", true, "u1", "i1");
            twice.1.Score(MostLiked("movies"), "i1") == 1.0
  {
    var st := Snapshot(map[], map[]);
    RecordCountsDistinctRaters(st, {}, "movies", true, "u1", "i1");
    RecordIdempotent(st, {}, {}, "movies", true, "u1", "i1");
  }

  // Update

  /** A recompute step of the base algorithm that Update calls. */
  datatype Step =
    | SimilarityFor(userId: string)
    | RecommendationFor(userId: string)
    | WilsonScore(itemId: string)

  /** The steps Update runs for a request when none fails: the user's similarity
      and recommendations when a user is named, then the item's score when an item is. */
  function PlannedSteps(i: Input): (steps: seq<Step>)
    ensures |steps| == (if i.userId != "" then 2 else 0) + (if i.itemId != "" then 1 else 0)
    ensures i.userId != "" <==> SimilarityFor(i.userId) in steps
    ensures i.userId != "" <==> RecommendationFor(i.userId) in steps
    ensures i.userId != "" ==> steps[0] == SimilarityFor(i.userId) && steps[1] == RecommendationFor(i.userId)
    ensures i.itemId != "" <==> WilsonScore(i.itemId) in steps
    ensures forall j :: 0 <= j < |steps| && steps[j].RecommendationFor? ==> 0 < j && steps[j - 1] == SimilarityFor(i.userId)
    ensures forall j :: 0 <= j < |steps| && steps[j].WilsonScore? ==> j == |steps| - 1
    ensures forall s :: s in steps ==> s in {SimilarityFor(i.userId), RecommendationFor(i.userId), WilsonScore(i.itemId)}
  {
    (if i.userId != "" then [SimilarityFor(i.userId), RecommendationFor(i.userId)] else [])
    + (if i.itemId != "" then [WilsonScore(i.itemId)] else [])
  }

  /** Update: an empty collection name is refused before any work; otherwise the
      planned steps run in order until one fails. `run` gives each step's outcome;
      `ran` lists the steps that were started. */
  method Update(i: Input, run: Step -> Outcome) returns (r: Outcome, ghost ran: seq<Step>)
    ensures i.collection == "" ==> r == Fail(EmptyCollection) && ran == []
    ensures i.collection != "" ==>
              && |ran| <= |PlannedSteps(i)| && ran == PlannedSteps(i)[..|ran|]
              && (forall j :: 0 <= j < |ran| - 1 ==> run(ran[j]) == Pass)
              && (r == Pass <==> ran == PlannedSteps(i) && forall j :: 0 <= j < |ran| ==> run(ran[j]) == Pass)
              && (r.Fail? ==> ran != [] && r == run(ran[|ran| - 1]))
  {
    ran := [];
    if i.collection == "" {
      return Fail(EmptyCollection), ran;
    }
    if i.userId != "" {
      ran := ran + [SimilarityFor(i.userId)];
      r := run(SimilarityFor(i.userId));
      if r.Fail? {
        return;
      }
      ran := ran + [RecommendationFor(i.userId)];
      r := run(RecommendationFor(i.userId));
      if r.Fail? {
        assert run(ran[1]) == r;
        return;
      }
    }
    if i.itemId != "" {
      ran := ran + [WilsonScore(i.itemId)];
      r := run(WilsonScore(i.itemId));
      if r.Fail? {
        assert run(ran[|ran| - 1]) == r;
        return;
      }
    }
    return Pass, ran;
  }
}
