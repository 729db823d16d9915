/** The similarity engine of the poll algorithm: the Jaccard coefficient and the
    user-to-user and item-to-item neighbour rankings built from co-raters. */
module Similarity {
  import opened Namespace
  import opened SetStore

  /** Inclusion-exclusion for two sets. */
  lemma UnionSize(a: set<string>, b: set<string>)
    ensures |a + b| == |a| + |b| - |a * b|
    ensures |a * b| <= |a + b|
    ensures a != {} || b != {} ==> 0 < |a + b|
  {
    assert a == (a - b) + (a * b) && (a - b) !! (a * b);
    if a != {} || b != {} {
      assert a + b != {};
    }
  }

  /** jaccardCoefficient: |A ∩ B| / (|A| + |B| - |A ∩ B|), which is the size of the
      intersection over the size of the union, a value between 0 and 1. */
  function Jaccard(a: set<string>, b: set<string>): (r: real)
    requires a != {} || b != {}
    ensures r == (|a * b| as real) / (|a + b| as real)
    ensures 0.0 <= r <= 1.0
  {
    UnionSize(a, b);
    (|a * b| as real) / ((|a| + |b| - |a * b|) as real)
  }

  lemma JaccardSymmetric(a: set<string>, b: set<string>)
    requires a != {} || b != {}
    ensures Jaccard(a, b) == Jaccard(b, a)
  {
    assert a * b == b * a && a + b == b + a;
  }

  lemma JaccardSelf(a: set<string>)
    requires a != {}
    ensures Jaccard(a, a) == 1.0
  {
    assert a * a == a && a + a == a;
  }

  lemma JaccardDisjoint(a: set<string>, b: set<string>)
    requires a != {} || b != {}
    requires a !! b
    ensures Jaccard(a, b) == 0.0
  {
    assert a * b == {};
  }

  /** u1 liked {i1, i2, i3} and u2 liked {i2, i3}: their similarity is 2/3. */
  lemma JaccardExample()
    ensures Jaccard({"i1", "i2", "i3"}, {"i2", "i3"}) == 2.0 / 3.0
  {
    var a: set<string> := {"i1", "i2", "i3"};
    var b: set<string> := {"i2", "i3"};
    assert a * b == b;
    assert a + b == a;
    assert |b| == 2;
    assert |a| == 3;
  }

  /** Keys of the liker sets of `items`. */
  function ItemLikedKeys(c: string, items: set<string>): set<Key> {
    set i | i in items :: ItemLiked(c, i)
  }

  /** Keys of the liked-item sets of `users`. */
  function UserLikedKeys(c: string, users: set<string>): set<Key> {
    set v | v in users :: UserLiked(c, v)
  }

  /** Every user who liked an item `u` liked (the SUNION of their liker sets). */
  function CoRaters(st: Snapshot, c: string, u: string): set<string> {
    st.UnionOf(ItemLikedKeys(c, st.Members(UserLiked(c, u))))
  }

  /** Every item liked by a user who liked `i`. */
  function CoRated(st: Snapshot, c: string, i: string): set<string> {
    st.UnionOf(UserLikedKeys(c, st.Members(ItemLiked(c, i))))
  }

  lemma CoRatersMeaning(st: Snapshot, c: string, u: string, v: string)
    ensures v in CoRaters(st, c, u) <==> exists i :: i in st.Members(UserLiked(c, u)) && v in st.Members(ItemLiked(c, i))
  {
    if v in CoRaters(st, c, u) {
      var k, x :| k in ItemLikedKeys(c, st.Members(UserLiked(c, u))) && x in st.Members(k) && x == v;
      var i :| i in st.Members(UserLiked(c, u)) && k == ItemLiked(c, i);
    }
    if exists i :: i in st.Members(UserLiked(c, u)) && v in st.Members(ItemLiked(c, i)) {
      var i :| i in st.Members(UserLiked(c, u)) && v in st.Members(ItemLiked(c, i));
      assert ItemLiked(c, i) in ItemLikedKeys(c, st.Members(UserLiked(c, u)));
    }
  }

  lemma CoRatedMeaning(st: Snapshot, c: string, i: string, j: string)
    ensures j in CoRated(st, c, i) <==> exists v :: v in st.Members(ItemLiked(c, i)) && j in st.Members(UserLiked(c, v))
  {
    if j in CoRated(st, c, i) {
      var k, x :| k in UserLikedKeys(c, st.Members(ItemLiked(c, i))) && x in st.Members(k) && x == j;
      var v :| v in st.Members(ItemLiked(c, i)) && k == UserLiked(c, v);
    }
    if exists v :: v in st.Members(ItemLiked(c, i)) && j in st.Members(UserLiked(c, v)) {
      var v :| v in st.Members(ItemLiked(c, i)) && j in st.Members(UserLiked(c, v));
      assert UserLiked(c, v) in UserLikedKeys(c, st.Members(ItemLiked(c, i)));
    }
  }

  /** Jaccard score of `u` against every user of `others` but `u` itself. */
  function UserScores(st: Snapshot, c: string, u: string, others: set<string>): map<string, real>
    requires st.Members(UserLiked(c, u)) != {}
  {
    map v | v in others && v != u :: Jaccard(st.Members(UserLiked(c, u)), st.Members(UserLiked(c, v)))
  }

  /** Jaccard score of `i` against every item of `others` but `i` itself. */
  function ItemScores(st: Snapshot, c: string, i: string, others: set<string>): map<string, real>
    requires st.Members(ItemLiked(c, i)) != {}
  {
    map j | j in others && j != i :: Jaccard(st.Members(ItemLiked(c, i)), st.Members(ItemLiked(c, j)))
  }

  /** The item scores read the like sets only. */
  lemma ItemScoresSameSets(a: Snapshot, b: Snapshot, c: string, i: string, others: set<string>)
    requires a.sets == b.sets && a.Members(ItemLiked(c, i)) != {}
    ensures ItemScores(a, c, i, others) == ItemScores(b, c, i, others)
  {
    var la := a.Members(ItemLiked(c, i));
    forall j | j in others && j != i
      ensures Jaccard(la, a.Members(ItemLiked(c, j))) == Jaccard(la, b.Members(ItemLiked(c, j)))
    {
      assert a.Members(ItemLiked(c, j)) == b.Members(ItemLiked(c, j));
    }
  }

  /** What updateUserSimilarity returns and leaves in the store. */
  function UserSimilarityOutcome(st: Snapshot, faults: set<Call>, c: string, u: string): (Outcome, Snapshot) {
    var likedKey := UserLiked(c, u);
    if SMembersCall(likedKey) in faults then (Fail(StoreFailure(SMembersCall(likedKey))), st)
    else if st.Members(likedKey) == {} then (Pass, st)
    else
      var keys := ItemLikedKeys(c, st.Members(likedKey));
      if SUnionCall(keys) in faults then (Fail(StoreFailure(SUnionCall(keys))), st)
      else
        var others := st.UnionOf(keys);
        (Pass, if |others| == 1 then st else st.ZAddAll(UserSimilarity(c, u), UserScores(st, c, u, others)))
  }

  /** What updateItemSimilarity returns and leaves in the store. */
  function ItemSimilarityOutcome(st: Snapshot, faults: set<Call>, c: string, i: string): (Outcome, Snapshot) {
    var likersKey := ItemLiked(c, i);
    if SMembersCall(likersKey) in faults then (Fail(StoreFailure(SMembersCall(likersKey))), st)
    else if st.Members(likersKey) == {} then (Pass, st)
    else
      var keys := UserLikedKeys(c, st.Members(likersKey));
      if SUnionCall(keys) in faults then (Fail(StoreFailure(SUnionCall(keys))), st)
      else
        var others := st.UnionOf(keys);
        (Pass, if |others| == 1 then st else st.ZAddAll(ItemSimilarity(c, i), ItemScores(st, c, i, others)))
  }

  lemma UserScoresStep(st: Snapshot, c: string, u: string, done: set<string>, v: string)
    requires st.Members(UserLiked(c, u)) != {} && v != u
    ensures UserScores(st, c, u, done + {v})
            == UserScores(st, c, u, done)[v := Jaccard(st.Members(UserLiked(c, u)), st.Members(UserLiked(c, v)))]
  {
  }

  lemma ItemScoresStep(st: Snapshot, c: string, i: string, done: set<string>, j: string)
    requires st.Members(ItemLiked(c, i)) != {} && j != i
    ensures ItemScores(st, c, i, done + {j})
            == ItemScores(st, c, i, done)[j := Jaccard(st.Members(ItemLiked(c, i)), st.Members(ItemLiked(c, j)))]
  {
  }

  /** The slice of liker-set keys built, by append, from the items a user liked. */
  method ItemLikedKeySeq(c: string, items: set<string>) returns (keys: seq<Key>)
    ensures KeySet(keys) == ItemLikedKeys(c, items)
  {
    keys := [];
    var rest := items;
    while rest != {}
      invariant rest <= items
      invariant KeySet(keys) == ItemLikedKeys(c, items - rest)
      decreases rest
    {
      var itemId :| itemId in rest;
      assert KeySet(keys + [ItemLiked(c, itemId)]) == KeySet(keys) + {ItemLiked(c, itemId)};
      assert items - (rest - {itemId}) == (items - rest) + {itemId};
      keys := keys + [ItemLiked(c, itemId)];
      rest := rest - {itemId};
    }
    assert items - rest == items;
  }

  /** The slice of liked-set keys built, by append, from the users who liked an item. */
  method UserLikedKeySeq(c: string, users: set<string>) returns (keys: seq<Key>)
    ensures KeySet(keys) == UserLikedKeys(c, users)
  {
    keys := [];
    var rest := users;
    while rest != {}
      invariant rest <= users
      invariant KeySet(keys) == UserLikedKeys(c, users - rest)
      decreases rest
    {
      var userId :| userId in rest;
      assert KeySet(keys + [UserLiked(c, userId)]) == KeySet(keys) + {UserLiked(c, userId)};
      assert users - (rest - {userId}) == (users - rest) + {userId};
      keys := keys + [UserLiked(c, userId)];
      rest := rest - {userId};
    }
    assert users - rest == users;
  }

  /** One more co-rater scored: the ZADD of its Jaccard score, or nothing for the user itself. */
  lemma UserRankStep(st: Snapshot, c: string, u: string, done: set<string>, v: string)
    requires st.Members(UserLiked(c, u)) != {}
    ensures var k := UserSimilarity(c, u);
            var before := st.ZAddAll(k, UserScores(st, c, u, done));
            st.ZAddAll(k, UserScores(st, c, u, done + {v}))
            == if u == v then before else before.ZAdd(k, v, Jaccard(st.Members(UserLiked(c, u)), st.Members(UserLiked(c, v))))
  {
    if u == v {
      assert UserScores(st, c, u, done + {v}) == UserScores(st, c, u, done);
    } else {
      var score := Jaccard(st.Members(UserLiked(c, u)), st.Members(UserLiked(c, v)));
      UserScoresStep(st, c, u, done, v);
      ZAddAllThenZAdd(st, UserSimilarity(c, u), UserScores(st, c, u, done), v, score);
    }
  }

  /** One more co-rated item scored: the ZADD of its Jaccard score, or nothing for the item itself. */
  lemma ItemRankStep(st: Snapshot, c: string, i: string, done: set<string>, j: string)
    requires st.Members(ItemLiked(c, i)) != {}
    ensures var k := ItemSimilarity(c, i);
            var before := st.ZAddAll(k, ItemScores(st, c, i, done));
            st.ZAddAll(k, ItemScores(st, c, i, done + {j}))
            == if i == j then before else before.ZAdd(k, j, Jaccard(st.Members(ItemLiked(c, i)), st.Members(ItemLiked(c, j))))
  {
    if i == j {
      assert ItemScores(st, c, i, done + {j}) == ItemScores(st, c, i, done);
    } else {
      var score := Jaccard(st.Members(ItemLiked(c, i)), st.Members(ItemLiked(c, j)));
      ItemScoresStep(st, c, i, done, j);
      ZAddAllThenZAdd(st, ItemSimilarity(c, i), ItemScores(st, c, i, done), j, score);
    }
  }

  /** The ZADD loop of updateUserSimilarity over the co-raters `others`. */
  method RankUsers(db: Store, c: string, userId: string, others: set<string>)
    requires db.data.Members(UserLiked(c, userId)) != {}
    modifies db
    ensures db.data == if |others| == 1 then old(db.data)
                       else old(db.data).ZAddAll(UserSimilarity(c, userId), UserScores(old(db.data), c, userId, others))
  {
    ghost var st := db.data;
    var todo := others;
    while todo != {}
      invariant todo <= others
      invariant |others| == 1 ==> db.data == st
      invariant |others| != 1 ==> db.data == st.ZAddAll(UserSimilarity(c, userId), UserScores(st, c, userId, others - todo))
      decreases todo
    {
      var otherUserId :| otherUserId in todo;
      ghost var done := others - todo;
      assert others - (todo - {otherUserId}) == done + {otherUserId};
      if |others| != 1 {
        UserRankStep(st, c, userId, done, otherUserId);
        if userId != otherUserId {
          var score := Jaccard(db.data.Members(UserLiked(c, userId)), db.data.Members(UserLiked(c, otherUserId)));
          db.ZAdd(UserSimilarity(c, userId), Finite(score), otherUserId);
        }
      }
      todo := todo - {otherUserId};
    }
    assert others - todo == others;
  }

  /** The ZADD loop of updateItemSimilarity over the co-rated items `others`. */
  method RankItems(db: Store, c: string, itemId: string, others: set<string>)
    requires db.data.Members(ItemLiked(c, itemId)) != {}
    modifies db
    ensures db.data == old(db.data).ZAddAll(ItemSimilarity(c, itemId), ItemScores(old(db.data), c, itemId, others))
  {
    ghost var st := db.data;
    var todo := others;
    while todo != {}
      invariant todo <= others
      invariant db.data == st.ZAddAll(ItemSimilarity(c, itemId), ItemScores(st, c, itemId, others - todo))
      decreases todo
    {
      var otherItemId :| otherItemId in todo;
      ghost var done := others - todo;
      assert others - (todo - {otherItemId}) == done + {otherItemId};
      ItemRankStep(st, c, itemId, done, otherItemId);
      if itemId != otherItemId {
        var score := Jaccard(db.data.Members(ItemLiked(c, itemId)), db.data.Members(ItemLiked(c, otherItemId)));
        db.ZAdd(ItemSimilarity(c, itemId), Finite(score), otherItemId);
      }
      todo := todo - {otherItemId};
    }
    assert others - todo == others;
  }

  method UpdateUserSimilarity(db: Store, c: string, userId: string) returns (r: Outcome)
    modifies db
    ensures (r, db.data) == UserSimilarityOutcome(old(db.data), db.faults, c, userId)
  {
    var rated := db.SMembers(UserLiked(c, userId));
    if rated.Err? {
      return Fail(rated.error);
    }
    var ratedItemSet := rated.value;
    if |ratedItemSet| == 0 {
      return Pass;
    }
    var itemKeys := ItemLikedKeySeq(c, ratedItemSet);
    var union := db.SUnion(itemKeys);
    if union.Err? {
      return Fail(union.error);
    }
    RankUsers(db, c, userId, union.value);
    return Pass;
  }

  method UpdateItemSimilarity(db: Store, c: string, itemId: string) returns (r: Outcome)
    modifies db
    ensures (r, db.data) == ItemSimilarityOutcome(old(db.data), db.faults, c, itemId)
  {
    var rated := db.SMembers(ItemLiked(c, itemId));
    if rated.Err? {
      return Fail(rated.error);
    }
    var ratedUserSet := rated.value;
    if |ratedUserSet| == 0 {
      return Pass;
    }
    var userKeys := UserLikedKeySeq(c, ratedUserSet);
    var union := db.SUnion(userKeys);
    if union.Err? {
      return Fail(union.error);
    }
    if |union.value| == 1 {
      return Pass;
    }
    RankItems(db, c, itemId, union.value);
    return Pass;
  }

  // Properties of updateUserSimilarity

  lemma UserSimilarityNoLikes(st: Snapshot, faults: set<Call>, c: string, u: string)
    requires SMembersCall(UserLiked(c, u)) !in faults
    requires st.Members(UserLiked(c, u)) == {}
    ensures UserSimilarityOutcome(st, faults, c, u) == (Pass, st)
  {
  }

  /** The user's own entry is never written, and a co-rater union of one member
      writes nothing at all. */
  lemma UserSimilarityNeverRanksSelf(st: Snapshot, faults: set<Call>, c: string, u: string)
    ensures var after := UserSimilarityOutcome(st, faults, c, u).1;
            Kept(st, after, UserSimilarity(c, u), u)
    ensures |CoRaters(st, c, u)| == 1 ==> UserSimilarityOutcome(st, faults, c, u).1 == st
  {
  }

  /** Every entry that changes belongs to a user who liked one of the user's items
      and gets the Jaccard score of the two liked sets, whose union is not empty. */
  lemma UserSimilarityScoresCoRaters(st: Snapshot, faults: set<Call>, c: string, u: string, v: string)
    requires !Kept(st, UserSimilarityOutcome(st, faults, c, u).1, UserSimilarity(c, u), v)
    ensures UserSimilarityOutcome(st, faults, c, u).0 == Pass
    ensures v != u && st.Members(UserLiked(c, u)) != {}
    ensures exists i :: i in st.Members(UserLiked(c, u)) && v in st.Members(ItemLiked(c, i))
    ensures UserSimilarityOutcome(st, faults, c, u).1.Ranking(UserSimilarity(c, u))[v]
            == Jaccard(st.Members(UserLiked(c, u)), st.Members(UserLiked(c, v)))
  {
    CoRatersMeaning(st, c, u, v);
  }

  /** Only the user's own ranking changes: the sets, every other sorted set and the
      entries of users outside the co-rater union stay as they were, and scores stay
      within [0, 1]. */
  lemma UserSimilarityFrame(st: Snapshot, faults: set<Call>, c: string, u: string)
    ensures var after := UserSimilarityOutcome(st, faults, c, u).1;
            && after.sets == st.sets
            && (forall k :: k != UserSimilarity(c, u) ==> after.Ranking(k) == st.Ranking(k))
            && (forall v :: v !in CoRaters(st, c, u) ==> Kept(st, after, UserSimilarity(c, u), v))
            && (UnitScores(st.Ranking(UserSimilarity(c, u))) ==> UnitScores(after.Ranking(UserSimilarity(c, u))))
  {
    var likedKey := UserLiked(c, u);
    if SMembersCall(likedKey) !in faults && st.Members(likedKey) != {} {
      var keys := ItemLikedKeys(c, st.Members(likedKey));
      var others := st.UnionOf(keys);
      if SUnionCall(keys) !in faults && |others| != 1 {
        var e := UserScores(st, c, u, others);
        assert UnitScores(e);
        assert forall v :: v in e ==> v in others;
        ZAddAllFrame(st, UserSimilarity(c, u), e);
        ZAddAllKeeps(st, UserSimilarity(c, u), e);
      }
    }
  }

  /** Under the two-way index a user with likes is one of their own co-raters, so
      a union of one member means nobody else shares a liked item. */
  lemma CoRatersIncludeSelf(st: Snapshot, c: string, u: string)
    requires Indexed(st, c, true)
    requires st.Members(UserLiked(c, u)) != {}
    ensures u in CoRaters(st, c, u)
    ensures |CoRaters(st, c, u)| == 1 <==> CoRaters(st, c, u) == {u}
  {
    var i :| i in st.Members(UserLiked(c, u));
    assert i in st.Members(Rated(c, true, u));
    assert u in st.Members(RatedBy(c, true, i));
    assert u in st.Members(ItemLiked(c, i));
    CoRatersMeaning(st, c, u, u);
    var co := CoRaters(st, c, u);
    assert u in co;
    if |co| == 1 {
      assert |co - {u}| == 0;
      assert co - {u} == {};
      assert co == {u};
    }
  }

  // Properties of updateItemSimilarity

  lemma ItemSimilarityNoLikers(st: Snapshot, faults: set<Call>, c: string, i: string)
    requires SMembersCall(ItemLiked(c, i)) !in faults
    requires st.Members(ItemLiked(c, i)) == {}
    ensures ItemSimilarityOutcome(st, faults, c, i) == (Pass, st)
  {
  }

  lemma ItemSimilarityNeverRanksSelf(st: Snapshot, faults: set<Call>, c: string, i: string)
    ensures var after := ItemSimilarityOutcome(st, faults, c, i).1;
            Kept(st, after, ItemSimilarity(c, i), i)
    ensures |CoRated(st, c, i)| == 1 ==> ItemSimilarityOutcome(st, faults, c, i).1 == st
  {
  }

  lemma ItemSimilarityScoresCoRated(st: Snapshot, faults: set<Call>, c: string, i: string, j: string)
    requires !Kept(st, ItemSimilarityOutcome(st, faults, c, i).1, ItemSimilarity(c, i), j)
    ensures ItemSimilarityOutcome(st, faults, c, i).0 == Pass
    ensures j != i && st.Members(ItemLiked(c, i)) != {}
    ensures exists v :: v in st.Members(ItemLiked(c, i)) && j in st.Members(UserLiked(c, v))
    ensures ItemSimilarityOutcome(st, faults, c, i).1.Ranking(ItemSimilarity(c, i))[j]
            == Jaccard(st.Members(ItemLiked(c, i)), st.Members(ItemLiked(c, j)))
  {
    CoRatedMeaning(st, c, i, j);
  }

  lemma ItemSimilarityFrame(st: Snapshot, faults: set<Call>, c: string, i: string)
    ensures var after := ItemSimilarityOutcome(st, faults, c, i).1;
            && after.sets == st.sets
            && (forall k :: k != ItemSimilarity(c, i) ==> after.Ranking(k) == st.Ranking(k))
            && (forall j :: j !in CoRated(st, c, i) ==> Kept(st, after, ItemSimilarity(c, i), j))
            && (UnitScores(st.Ranking(ItemSimilarity(c, i))) ==> UnitScores(after.Ranking(ItemSimilarity(c, i))))
  {
    var likersKey := ItemLiked(c, i);
    if SMembersCall(likersKey) !in faults && st.Members(likersKey) != {} {
      var keys := UserLikedKeys(c, st.Members(likersKey));
      var others := st.UnionOf(keys);
      if SUnionCall(keys) !in faults && |others| != 1 {
        var e := ItemScores(st, c, i, others);
        assert UnitScores(e);
        assert forall j :: j in e ==> j in others;
        ZAddAllFrame(st, ItemSimilarity(c, i), e);
        ZAddAllKeeps(st, ItemSimilarity(c, i), e);
      }
    }
  }

  /** A store where i1 is liked by {u1, u2} and i2 by {u2, u3}. */
  function ExampleStore(c: string): Snapshot {
    Snapshot(map[UserLiked(c, "u1") := {"i1"}, UserLiked(c, "u2") := {"i1", "i2"},
                 UserLiked(c, "u3") := {"i2"},
                 ItemLiked(c, "i1") := {"u1", "u2"}, ItemLiked(c, "i2") := {"u2", "u3"}],
             map[])
  }

  lemma ExampleCoRated(c: string)
    ensures ExampleStore(c).Members(ItemLiked(c, "i1")) == {"u1", "u2"}
    ensures ExampleStore(c).Members(ItemLiked(c, "i2")) == {"u2", "u3"}
    ensures CoRated(ExampleStore(c), c, "i1") == {"i1", "i2"}
  {
    var st := ExampleStore(c);
    var a: set<string> := {"u1", "u2"};
    assert st.Members(ItemLiked(c, "i1")) == a;
    assert st.Members(UserLiked(c, "u1")) == {"i1"};
    assert st.Members(UserLiked(c, "u2")) == {"i1", "i2"};
    var keys := UserLikedKeys(c, a);
    assert keys == {UserLiked(c, "u1"), UserLiked(c, "u2")};
    var others := st.UnionOf(keys);
    assert "i1" in st.Members(UserLiked(c, "u1"));
    assert "i2" in st.Members(UserLiked(c, "u2"));
    forall j | j in others ensures j in {"i1", "i2"} {
      var k :| k in keys && j in st.Members(k);
    }
  }

  /** i1 is liked by {u1, u2} and i2 by {u2, u3}: after updateItemSimilarity(i1)
      the ranking of i1 holds i2 with score 1/3. */
  lemma ItemSimilarityExample(c: string)
    ensures var (r, after) := ItemSimilarityOutcome(ExampleStore(c), {}, c, "i1");
            r == Pass && after.Ranking(ItemSimilarity(c, "i1")) == map["i2" := 1.0 / 3.0]
  {
    ExampleCoRated(c);
    ExampleScores(c);
    assert |{"i1", "i2"}| == 2;
  }

  lemma ExampleScores(c: string)
    ensures ExampleStore(c).Members(ItemLiked(c, "i1")) != {}
    ensures ItemScores(ExampleStore(c), c, "i1", {"i1", "i2"}) == map["i2" := 1.0 / 3.0]
  {
    var st := ExampleStore(c);
    var a: set<string> := {"u1", "u2"};
    var b: set<string> := {"u2", "u3"};
    assert st.Members(ItemLiked(c, "i1")) == a && st.Members(ItemLiked(c, "i2")) == b;
    assert a * b == {"u2"} && a + b == {"u1", "u2", "u3"};
    assert Jaccard(a, b) == 1.0 / 3.0;
    var scores := ItemScores(st, c, "i1", {"i1", "i2"});
    assert scores.Keys == {"i2"};
  }
}
