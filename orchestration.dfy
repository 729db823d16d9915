/** The update orchestrator of the poll algorithm: updateData recomputes one
    user's similarity, then their recommendations, then item similarity;
    updateAllData runs it for every user of the collection. */
module Orchestration {
  import opened Namespace
  import opened SetStore
  import opened Similarity
  import opened Recommendation

  /** No scratch set of collection `c` holds anything. */
  ghost predicate NoScratch(st: Snapshot, c: string) {
    forall v :: st.Members(UserTemp(c, v)) == {}
  }

  /** The ranking under `k` after updateItemSimilarity ran, from `st`, for each of `items`. */
  ghost function ItemPassRanking(st: Snapshot, faults: set<Call>, c: string, items: set<string>, k: Key)
    : map<string, real>
  {
    if k.ItemSimilarity? && k.collection == c && k.id in items then ItemSimilarityOutcome(st, faults, c, k.id).1.Ranking(k)
    else st.Ranking(k)
  }

  /** `after` is what the best-effort item pass over `items` leaves: the sets as
      they were, and each item's similarity ranking as its own update left it. */
  ghost predicate ItemPassDone(st: Snapshot, faults: set<Call>, c: string, items: set<string>, after: Snapshot) {
    && after.sets == st.sets
    && forall k :: after.Ranking(k) == ItemPassRanking(st, faults, c, items, k)
  }

  /** updateItemSimilarity reads only sets and its own ranking, and writes only
      that ranking, so earlier updates of other items do not change its effect. */
  lemma ItemSimilarityLocal(cur: Snapshot, st: Snapshot, faults: set<Call>, c: string, i: string)
    requires cur.sets == st.sets
    requires cur.Ranking(ItemSimilarity(c, i)) == st.Ranking(ItemSimilarity(c, i))
    ensures var now := ItemSimilarityOutcome(cur, faults, c, i);
            var alone := ItemSimilarityOutcome(st, faults, c, i);
            && now.0 == alone.0
            && now.1.sets == cur.sets
            && now.1.Ranking(ItemSimilarity(c, i)) == alone.1.Ranking(ItemSimilarity(c, i))
            && forall k :: k != ItemSimilarity(c, i) ==> now.1.Ranking(k) == cur.Ranking(k)
  {
    ItemSimilarityFrame(cur, faults, c, i);
    var likers := st.Members(ItemLiked(c, i));
    assert cur.Members(ItemLiked(c, i)) == likers;
    if SMembersCall(ItemLiked(c, i)) in faults || likers == {} {
      return;
    }
    var keys := UserLikedKeys(c, likers);
    if SUnionCall(keys) in faults {
      return;
    }
    UnionOfSameSets(cur, st, keys);
    var others := st.UnionOf(keys);
    if |others| == 1 {
      return;
    }
    ItemScoresSameSets(cur, st, c, i, others);
  }

  /** The best-effort loop of updateData: updateItemSimilarity for every item,
      whatever each returns. `results` records each item's outcome. */
  method UpdateItemSimilarities(db: Store, c: string, items: set<string>) returns (ghost results: map<string, Outcome>)
    modifies db
    ensures ItemPassDone(old(db.data), db.faults, c, items, db.data)
    ensures results.Keys == items
    ensures forall i :: i in items ==> results[i] == ItemSimilarityOutcome(old(db.data), db.faults, c, i).0
  {
    ghost var st := db.data;
    ghost var done: set<string> := {};
    results := map[];
    var todo := items;
    while todo != {}
      invariant done + todo == items && done !! todo
      invariant ItemPassDone(st, db.faults, c, done, db.data)
      invariant results.Keys == done
      invariant forall i :: i in done ==> results[i] == ItemSimilarityOutcome(st, db.faults, c, i).0
      decreases todo
    {
      var ratedItemId :| ratedItemId in todo;
      todo := todo - {ratedItemId};
      ghost var cur := db.data;
      assert cur.Ranking(ItemSimilarity(c, ratedItemId)) == st.Ranking(ItemSimilarity(c, ratedItemId)) by {
        assert cur.Ranking(ItemSimilarity(c, ratedItemId)) == ItemPassRanking(st, db.faults, c, done, ItemSimilarity(c, ratedItemId));
      }
      ItemSimilarityLocal(cur, st, db.faults, c, ratedItemId);
      var r := UpdateItemSimilarity(db, c, ratedItemId);
      forall k ensures db.data.Ranking(k) == ItemPassRanking(st, db.faults, c, done + {ratedItemId}, k) {
        if k != ItemSimilarity(c, ratedItemId) {
          assert cur.Ranking(k) == ItemPassRanking(st, db.faults, c, done, k);
        }
      }
      results := results[ratedItemId := r];
      done := done + {ratedItemId};
    }
  }

  /** What updateData(u, itemId) returns and leaves in the store, given the
      neighbours its recommendation step listed. */
  ghost predicate UpdateDataSpec(st: Snapshot, faults: set<Call>, c: string, maxNeighbors: int, u: string,
                                 itemId: string, neighbours: seq<string>, r: Outcome, after: Snapshot)
  {
    var (r1, st1) := UserSimilarityOutcome(st, faults, c, u);
    if r1.Fail? then r == r1 && after == st1
    else
      var sims := st1.Ranking(UserSimilarity(c, u));
      && (ZRevRangeCall(UserSimilarity(c, u)) !in faults ==> TopRanked(sims, RangeCount(|sims|, maxNeighbors - 1), neighbours))
      && var (r2, st2) := RecommendationOutcome(st1, faults, c, u, neighbours);
         if r2.Fail? then r == r2 && after == st2
         else ItemStepDone(st2, faults, c, u, itemId, r, after)
  }

  /** The last step of updateData, from `st`: with no item given, the best-effort
      pass over the items the user liked; otherwise updateItemSimilarity(itemId). */
  ghost predicate ItemStepDone(st: Snapshot, faults: set<Call>, c: string, u: string, itemId: string, r: Outcome,
                               after: Snapshot)
  {
    if itemId == "" then
      var liked := if SMembersCall(UserLiked(c, u)) in faults then {} else st.Members(UserLiked(c, u));
      r == Pass && ItemPassDone(st, faults, c, liked, after)
    else (r, after) == ItemSimilarityOutcome(st, faults, c, itemId)
  }

  /** The last step of updateData changes no set. */
  lemma ItemStepSets(st: Snapshot, faults: set<Call>, c: string, u: string, itemId: string, r: Outcome, after: Snapshot)
    requires ItemStepDone(st, faults, c, u, itemId, r, after)
    ensures after.sets == st.sets
    ensures itemId == "" ==> r == Pass
  {
    if itemId != "" {
      ItemSimilarityFrame(st, faults, c, itemId);
    }
  }

  method UpdateData(db: Store, c: string, maxNeighbors: int, userId: string, itemId: string)
    returns (r: Outcome, ghost neighbours: seq<string>)
    modifies db
    ensures UpdateDataSpec(old(db.data), db.faults, c, maxNeighbors, userId, itemId, neighbours, r, db.data)
  {
    ghost var st := db.data;
    neighbours := [];
    r := UpdateUserSimilarity(db, c, userId);
    if r.Fail? {
      return;
    }
    r, neighbours := UpdateRecommendationFor(db, c, maxNeighbors, userId);
    if r.Fail? {
      return;
    }
    if itemId == "" {
      var rated := db.SMembers(UserLiked(c, userId));
      var ratedItemSet := if rated.Ok? then rated.value else {};
      ghost var results := UpdateItemSimilarities(db, c, ratedItemSet);
    } else {
      r := UpdateItemSimilarity(db, c, itemId);
      if r.Fail? {
        return;
      }
    }
    return Pass, neighbours;
  }

  // Properties of updateData

  /** User similarity and recommendations are hard gates: a failure of either is
      what updateData returns, and a failing user similarity leaves the store as it
      was. With no item given, failures of the item pass never surface. */
  lemma UpdateDataGates(st: Snapshot, faults: set<Call>, c: string, maxNeighbors: int, u: string, itemId: string,
                        neighbours: seq<string>, r: Outcome, after: Snapshot)
    requires UpdateDataSpec(st, faults, c, maxNeighbors, u, itemId, neighbours, r, after)
    ensures var r1 := UserSimilarityOutcome(st, faults, c, u).0;
            && (r1.Fail? ==> r == r1 && after == st)
            && (itemId == "" && r.Fail? ==>
                  r1.Fail? || r == RecommendationOutcome(UserSimilarityOutcome(st, faults, c, u).1, faults, c, u, neighbours).0)
  {
    var (r1, st1) := UserSimilarityOutcome(st, faults, c, u);
    if r1.Pass? {
      var (r2, st2) := RecommendationOutcome(st1, faults, c, u, neighbours);
      if r2.Pass? {
        ItemStepSets(st2, faults, c, u, itemId, r, after);
      }
    }
  }

  /** The sets after updateData are those its recommendation step left. */
  lemma UpdateDataSets(st: Snapshot, faults: set<Call>, c: string, maxNeighbors: int, u: string, itemId: string,
                       neighbours: seq<string>, r: Outcome, after: Snapshot)
    requires UpdateDataSpec(st, faults, c, maxNeighbors, u, itemId, neighbours, r, after)
    ensures var (r1, st1) := UserSimilarityOutcome(st, faults, c, u);
            && (r1.Fail? ==> after == st)
            && (r1.Pass? ==> after.sets == RecommendationOutcome(st1, faults, c, u, neighbours).1.sets)
  {
    var (r1, st1) := UserSimilarityOutcome(st, faults, c, u);
    if r1.Pass? {
      var (r2, st2) := RecommendationOutcome(st1, faults, c, u, neighbours);
      if r2.Pass? {
        ItemStepSets(st2, faults, c, u, itemId, r, after);
      }
    }
  }

  /** A store that differs from `st` in at most the scratch set of `u`, left empty
      or unchanged, keeps the two-way index and the absence of scratch sets. */
  lemma ScratchOnlyFrame(st: Snapshot, after: Snapshot, c: string, u: string)
    requires forall k :: k != UserTemp(c, u) ==> after.Members(k) == st.Members(k)
    requires after.Members(UserTemp(c, u)) == {} || after.Members(UserTemp(c, u)) == st.Members(UserTemp(c, u))
    ensures Indexed(st, c, true) ==> Indexed(after, c, true)
    ensures NoScratch(st, c) ==> NoScratch(after, c)
  {
    IndexedFrame(st, after, c);
  }

  /** Chaining the frames of the three steps of updateData. */
  lemma StagesFrame(st: Snapshot, st1: Snapshot, st2: Snapshot, after: Snapshot, c: string, u: string)
    requires st1.sets == st.sets && after.sets == st2.sets
    requires forall k :: k != UserTemp(c, u) ==> st2.Members(k) == st1.Members(k)
    requires st2.Members(UserTemp(c, u)) == {} || st2.Members(UserTemp(c, u)) == st1.Members(UserTemp(c, u))
    ensures forall k :: k != UserTemp(c, u) ==> after.Members(k) == st.Members(k)
    ensures Indexed(st, c, true) ==> Indexed(after, c, true)
    ensures NoScratch(st, c) ==> NoScratch(after, c)
  {
    assert forall k :: after.Members(k) == st2.Members(k) && st1.Members(k) == st.Members(k);
    ScratchOnlyFrame(st, after, c, u);
  }

  /** updateData never changes a like or dislike set, so it keeps the two-way
      index when it held; it touches no scratch set but the user's own, which it
      leaves empty whenever it filled it. */
  lemma UpdateDataFrame(st: Snapshot, faults: set<Call>, c: string, maxNeighbors: int, u: string, itemId: string,
                        neighbours: seq<string>, r: Outcome, after: Snapshot)
    requires UpdateDataSpec(st, faults, c, maxNeighbors, u, itemId, neighbours, r, after)
    ensures forall k :: k != UserTemp(c, u) ==> after.Members(k) == st.Members(k)
    ensures Indexed(st, c, true) ==> Indexed(after, c, true)
    ensures NoScratch(st, c) ==> NoScratch(after, c)
  {
    UpdateDataSets(st, faults, c, maxNeighbors, u, itemId, neighbours, r, after);
    var (r1, st1) := UserSimilarityOutcome(st, faults, c, u);
    if r1.Pass? {
      UserSimilarityFrame(st, faults, c, u);
      RecommendationFrame(st1, faults, c, u, neighbours);
      RecommendationDropsScratch(st1, faults, c, u, neighbours);
      StagesFrame(st, st1, RecommendationOutcome(st1, faults, c, u, neighbours).1, after, c, u);
    }
  }

  /** updateData(u, "") for each user in `order`, from `st`: `states` holds the
      store between the calls, `results` what each returned. */
  ghost predicate AllDataRun(st: Snapshot, faults: set<Call>, c: string, maxNeighbors: int, order: seq<string>,
                             neighbours: seq<seq<string>>, results: seq<Outcome>, states: seq<Snapshot>)
  {
    && |neighbours| == |order| && |results| == |order| && |states| == |order| + 1
    && states[0] == st
    && forall j :: 0 <= j < |order| ==>
         && UpdateDataSpec(states[j], faults, c, maxNeighbors, order[j], "", neighbours[j], results[j], states[j + 1])
  }

  lemma AllDataRunExtend(st: Snapshot, faults: set<Call>, c: string, maxNeighbors: int, order: seq<string>,
                          neighbours: seq<seq<string>>, results: seq<Outcome>, states: seq<Snapshot>,
                          u: string, ns: seq<string>, r: Outcome, after: Snapshot)
    requires AllDataRun(st, faults, c, maxNeighbors, order, neighbours, results, states)
    requires UpdateDataSpec(states[|order|], faults, c, maxNeighbors, u, "", ns, r, after)
    ensures AllDataRun(st, faults, c, maxNeighbors, order + [u], neighbours + [ns], results + [r], states + [after])
  {
    var order', neighbours', results', states' := order + [u], neighbours + [ns], results + [r], states + [after];
    forall j | 0 <= j < |order'|
      ensures UpdateDataSpec(states'[j], faults, c, maxNeighbors, order'[j], "", neighbours'[j], results'[j], states'[j + 1])
    {
      if j < |order| {
        assert states'[j] == states[j] && states'[j + 1] == states[j + 1];
        assert order'[j] == order[j] && neighbours'[j] == neighbours[j] && results'[j] == results[j];
      } else {
        assert states'[j] == states[|order|] && states'[j + 1] == after;
        assert order'[j] == u && neighbours'[j] == ns && results'[j] == r;
      }
    }
  }

  /** What updateAllData keeps between `st` and `now`: every set but the scratch
      sets, the two-way index when it held, and the absence of scratch sets. */
  ghost predicate RatingsKept(st: Snapshot, now: Snapshot, c: string) {
    && (forall k: Key :: !k.UserTemp? ==> now.Members(k) == st.Members(k))
    && (Indexed(st, c, true) ==> Indexed(now, c, true))
    && (NoScratch(st, c) ==> NoScratch(now, c))
  }

  /** `order` lists, without repeats, the users of `all` no longer in `todo`. */
  ghost predicate Visited(order: seq<string>, all: set<string>, todo: set<string>) {
    && todo <= all
    && (forall j :: 0 <= j < |order| ==> order[j] in all && order[j] !in todo)
    && (forall u :: u in all && u !in todo ==> u in order)
    && (forall i, j :: 0 <= i < j < |order| ==> order[i] != order[j])
  }

  lemma VisitedStep(order: seq<string>, all: set<string>, todo: set<string>, u: string)
    requires Visited(order, all, todo) && u in todo
    ensures Visited(order + [u], all, todo - {u})
  {
  }

  /** One more updateData call extends the run and keeps what updateAllData keeps. */
  lemma AllDataStep(st: Snapshot, faults: set<Call>, c: string, maxNeighbors: int, order: seq<string>,
                    neighbours: seq<seq<string>>, results: seq<Outcome>, states: seq<Snapshot>,
                    u: string, ns: seq<string>, r: Outcome, after: Snapshot)
    requires AllDataRun(st, faults, c, maxNeighbors, order, neighbours, results, states)
    requires RatingsKept(st, states[|order|], c)
    requires UpdateDataSpec(states[|order|], faults, c, maxNeighbors, u, "", ns, r, after)
    ensures AllDataRun(st, faults, c, maxNeighbors, order + [u], neighbours + [ns], results + [r], states + [after])
    ensures RatingsKept(st, after, c)
  {
    UpdateDataFrame(states[|order|], faults, c, maxNeighbors, u, "", ns, r, after);
    AllDataRunExtend(st, faults, c, maxNeighbors, order, neighbours, results, states, u, ns, r, after);
  }

  /** updateAllData: updateData(u, "") for every user of the collection, stopping
      at the first that fails; a failing read of the user set is returned as is. */
  method UpdateAllData(db: Store, c: string, maxNeighbors: int)
    returns (r: Outcome, ghost order: seq<string>, ghost neighbours: seq<seq<string>>, ghost results: seq<Outcome>,
             ghost states: seq<Snapshot>)
    modifies db
    ensures SMembersCall(AllUser(c)) in db.faults ==>
              r == Fail(StoreFailure(SMembersCall(AllUser(c)))) && db.data == old(db.data) && order == []
    ensures SMembersCall(AllUser(c)) !in db.faults ==>
              && (forall j :: 0 <= j < |order| ==> order[j] in old(db.data).Members(AllUser(c)))
              && (forall i, j :: 0 <= i < j < |order| ==> order[i] != order[j])
              && AllDataRun(old(db.data), db.faults, c, maxNeighbors, order, neighbours, results, states)
              && db.data == states[|order|]
              && (forall j :: 0 <= j < |order| - 1 ==> results[j] == Pass)
              && (r == Pass ==> (forall j :: 0 <= j < |order| ==> results[j] == Pass)
                                && (forall u :: u in old(db.data).Members(AllUser(c)) ==> u in order))
              && (r.Fail? ==> |order| > 0 && r == results[|order| - 1])
    ensures RatingsKept(old(db.data), db.data, c)
  {
    ghost var st := db.data;
    order, neighbours, results, states := [], [], [], [st];
    var read := db.SMembers(AllUser(c));
    if read.Err? {
      return Fail(read.error), order, neighbours, results, states;
    }
    var userIds := read.value;
    var todo := userIds;
    r := Pass;
    while todo != {}
      invariant Visited(order, userIds, todo)
      invariant AllDataRun(st, db.faults, c, maxNeighbors, order, neighbours, results, states)
      invariant db.data == states[|order|]
      invariant forall j :: 0 <= j < |order| ==> results[j] == Pass
      invariant r == Pass
      invariant userIds == st.Members(AllUser(c))
      invariant RatingsKept(st, db.data, c)
      decreases todo
    {
      var userId :| userId in todo;
      VisitedStep(order, userIds, todo, userId);
      todo := todo - {userId};
      ghost var ns;
      r, ns := UpdateData(db, c, maxNeighbors, userId, "");
      AllDataStep(st, db.faults, c, maxNeighbors, order, neighbours, results, states, userId, ns, r, db.data);
      order, neighbours, results, states := order + [userId], neighbours + [ns], results + [r], states + [db.data];
      if r.Fail? {
        return;
      }
    }
  }
}
