/** The set store the engine runs against: named sets and sorted sets with the
    semantics of the Redis commands the source issues (SMEMBERS, SUNION, SISMEMBER,
    SADD, SDIFF, SUNIONSTORE, DEL, ZADD, ZINCRBY, ZREVRANGE, and SCARD, read as the
    size of a set).

    A store call whose error the source checks can fail; which ones do is fixed by
    the store's `faults`. Calls whose error the source ignores are modelled as
    always succeeding. */
module SetStore {
  import opened Namespace

  /** A store call whose error the engine checks. */
  datatype Call =
    | SMembersCall(key: Key)
    | SUnionCall(keys: set<Key>)
    | SIsMemberCall(key: Key, member: string)
    | SAddCall(key: Key, member: string)
    | ZRevRangeCall(key: Key)
    | SDiffCall(key: Key, subtrahend: Key)

  datatype Error =
    | StoreFailure(call: Call)   // the store rejected the call
    | EmptyCollection            // `Update` was given no collection name

  datatype Outcome = Pass | Fail(error: Error)

  datatype Result<T> = Ok(value: T) | Err(error: Error)

  /** A float64 score as the engine computes it: a finite value, or NaN from 0/0. */
  datatype Float64 = Finite(value: real) | NaN

  /** Score of `m` in the ranking `rank`; a missing member counts as 0. */
  function ScoreOf(rank: map<string, real>, m: string): real {
    if m in rank then rank[m] else 0.0
  }

  /** The whole keyspace: plain sets and sorted sets (member -> score).
      A key that is absent reads as the empty set or the empty ranking. */
  datatype Snapshot = Snapshot(sets: map<Key, set<string>>, zsets: map<Key, map<string, real>>) {

    function Members(k: Key): set<string> {
      if k in sets then sets[k] else {}
    }

    function Ranking(k: Key): map<string, real> {
      if k in zsets then zsets[k] else map[]
    }

    /** Score of `m` in the sorted set `k`. */
    function Score(k: Key, m: string): real {
      ScoreOf(Ranking(k), m)
    }

    /** Union of the sets stored under `ks` (SUNION). */
    function UnionOf(ks: set<Key>): set<string> {
      set k, x | k in ks && x in Members(k) :: x
    }

    /** SADD k m */
    function SAdd(k: Key, m: string): (r: Snapshot)
      ensures r.Members(k) == Members(k) + {m}
      ensures r.zsets == zsets
    {
      this.(sets := sets[k := Members(k) + {m}])
    }

    /** Overwrites set `k` with `s`; an empty result removes the key, as Redis does. */
    function Store(k: Key, s: set<string>): (r: Snapshot)
      ensures r.Members(k) == s
      ensures r.zsets == zsets
    {
      if s == {} then this.(sets := sets - {k}) else this.(sets := sets[k := s])
    }

    /** DEL k */
    function Del(k: Key): (r: Snapshot)
      ensures k !in r.sets && k !in r.zsets
    {
      this.(sets := sets - {k}, zsets := zsets - {k})
    }

    /** ZADD k score m: insert `m` or overwrite its score. */
    function ZAdd(k: Key, m: string, score: real): (r: Snapshot)
      ensures r.Ranking(k) == Ranking(k)[m := score]
      ensures r.sets == sets
    {
      this.(zsets := zsets[k := Ranking(k)[m := score]])
    }

    /** ZINCRBY k delta m */
    function ZIncrBy(k: Key, m: string, delta: real): Snapshot {
      ZAdd(k, m, Score(k, m) + delta)
    }

    /** The effect of one ZADD per entry of `entries`, in any order. */
    function ZAddAll(k: Key, entries: map<string, real>): (r: Snapshot)
      ensures r.Ranking(k) == Ranking(k) + entries
      ensures r.sets == sets
    {
      if entries == map[] then this else this.(zsets := zsets[k := Ranking(k) + entries])
    }
  }

  /** Each write touches its own key only. */
  lemma SAddFrame(st: Snapshot, k: Key, m: string)
    ensures forall k' :: k' != k ==> st.SAdd(k, m).Members(k') == st.Members(k')
  {
  }

  lemma StoreFrame(st: Snapshot, k: Key, s: set<string>)
    ensures forall k' :: k' != k ==> st.Store(k, s).Members(k') == st.Members(k')
  {
  }

  lemma DelFrame(st: Snapshot, k: Key)
    ensures forall k' :: k' != k ==> st.Del(k).Members(k') == st.Members(k') && st.Del(k).Ranking(k') == st.Ranking(k')
  {
  }

  lemma ZAddFrame(st: Snapshot, k: Key, m: string, score: real)
    ensures forall k' :: k' != k ==> st.ZAdd(k, m, score).Ranking(k') == st.Ranking(k')
  {
  }

  lemma ZAddAllFrame(st: Snapshot, k: Key, e: map<string, real>)
    ensures forall k' :: k' != k ==> st.ZAddAll(k, e).Ranking(k') == st.Ranking(k')
  {
  }

  /** SUNION reads the sets only. */
  lemma UnionOfSameSets(a: Snapshot, b: Snapshot, ks: set<Key>)
    requires a.sets == b.sets
    ensures a.UnionOf(ks) == b.UnionOf(ks)
  {
    assert forall k :: a.Members(k) == b.Members(k);
  }

  /** A batch of ZADDs leaves the members outside the batch as they were and
      keeps scores within [0, 1] when the batch's scores are. */
  lemma ZAddAllKeeps(st: Snapshot, k: Key, e: map<string, real>)
    ensures forall m :: m !in e ==> Kept(st, st.ZAddAll(k, e), k, m)
    ensures UnitScores(st.Ranking(k)) && UnitScores(e) ==> UnitScores(st.ZAddAll(k, e).Ranking(k))
  {
  }

  /** The two-way index of likes (`liked`) or dislikes: `item` is in the user's
      set exactly when `user` is in the item's set. */
  ghost predicate Indexed(st: Snapshot, c: string, liked: bool) {
    if liked then
      forall user, item :: item in st.Members(UserLiked(c, user)) <==> user in st.Members(ItemLiked(c, item))
    else
      forall user, item :: item in st.Members(UserDisliked(c, user)) <==> user in st.Members(ItemDisliked(c, item))
  }

  /** `after` holds the same like and dislike sets of collection `c` as `before`. */
  ghost predicate SameRatings(before: Snapshot, after: Snapshot, c: string) {
    forall id ::
      && after.Members(UserLiked(c, id)) == before.Members(UserLiked(c, id))
      && after.Members(ItemLiked(c, id)) == before.Members(ItemLiked(c, id))
      && after.Members(UserDisliked(c, id)) == before.Members(UserDisliked(c, id))
      && after.Members(ItemDisliked(c, id)) == before.Members(ItemDisliked(c, id))
  }

  lemma IndexedFrame(before: Snapshot, after: Snapshot, c: string)
    requires SameRatings(before, after, c)
    ensures Indexed(before, c, true) ==> Indexed(after, c, true)
    ensures Indexed(before, c, false) ==> Indexed(after, c, false)
  {
  }

  /** Adding `item` to the user's set and `user` to the item's set, and changing
      no other set, keeps the two-way index of that kind. */
  lemma IndexedAddPair(before: Snapshot, after: Snapshot, c: string, liked: bool, user: string, item: string)
    requires Indexed(before, c, liked)
    requires forall k :: k != Rated(c, liked, user) && k != RatedBy(c, liked, item) ==> after.Members(k) == before.Members(k)
    requires after.Members(Rated(c, liked, user)) == before.Members(Rated(c, liked, user)) + {item}
    requires after.Members(RatedBy(c, liked, item)) == before.Members(RatedBy(c, liked, item)) + {user}
    ensures Indexed(after, c, liked)
  {
    if liked {
      forall v, j ensures j in after.Members(UserLiked(c, v)) <==> v in after.Members(ItemLiked(c, j)) {
        assert j in before.Members(UserLiked(c, v)) <==> v in before.Members(ItemLiked(c, j));
      }
    } else {
      forall v, j ensures j in after.Members(UserDisliked(c, v)) <==> v in after.Members(ItemDisliked(c, j)) {
        assert j in before.Members(UserDisliked(c, v)) <==> v in before.Members(ItemDisliked(c, j));
      }
    }
  }

  /** Changing no set of one kind keeps the two-way index of that kind. */
  lemma IndexedKindFrame(before: Snapshot, after: Snapshot, c: string, liked: bool)
    requires Indexed(before, c, liked)
    requires forall v :: after.Members(Rated(c, liked, v)) == before.Members(Rated(c, liked, v))
    requires forall j :: after.Members(RatedBy(c, liked, j)) == before.Members(RatedBy(c, liked, j))
    ensures Indexed(after, c, liked)
  {
    if liked {
      forall v, j ensures j in after.Members(UserLiked(c, v)) <==> v in after.Members(ItemLiked(c, j)) {
        assert after.Members(Rated(c, liked, v)) == before.Members(Rated(c, liked, v));
        assert after.Members(RatedBy(c, liked, j)) == before.Members(RatedBy(c, liked, j));
      }
    } else {
      forall v, j ensures j in after.Members(UserDisliked(c, v)) <==> v in after.Members(ItemDisliked(c, j)) {
        assert after.Members(Rated(c, liked, v)) == before.Members(Rated(c, liked, v));
        assert after.Members(RatedBy(c, liked, j)) == before.Members(RatedBy(c, liked, j));
      }
    }
  }

  /** A second SUNIONSTORE into the same key overwrites the first. */
  lemma StoreTwice(st: Snapshot, k: Key, a: set<string>, b: set<string>)
    ensures st.Store(k, a).Store(k, b) == st.Store(k, b)
  {
    if b == {} {
      assert (st.sets - {k}) - {k} == st.sets - {k};
      assert st.sets[k := a] - {k} == st.sets - {k};
    } else {
      assert (st.sets - {k})[k := b] == st.sets[k := b];
      assert st.sets[k := a][k := b] == st.sets[k := b];
    }
  }

  /** The entry of `m` in the sorted set `k` is the same before and after. */
  predicate Kept(before: Snapshot, after: Snapshot, k: Key, m: string) {
    && (m in after.Ranking(k) <==> m in before.Ranking(k))
    && (m in before.Ranking(k) ==> after.Ranking(k)[m] == before.Ranking(k)[m])
  }

  /** Every score of the ranking lies between 0 and 1. */
  predicate UnitScores(rank: map<string, real>) {
    forall m :: m in rank ==> 0.0 <= rank[m] <= 1.0
  }

  /** Adding the entries of `e` and then one more ZADD is adding both at once. */
  lemma ZAddAllThenZAdd(st: Snapshot, k: Key, e: map<string, real>, m: string, score: real)
    ensures st.ZAddAll(k, e).ZAdd(k, m, score) == st.ZAddAll(k, e[m := score])
  {
    var r := st.Ranking(k);
    if e == map[] {
      assert m in e[m := score];
      assert e[m := score] == map[m := score];
      assert r[m := score] == r + map[m := score];
    } else {
      assert st.ZAddAll(k, e).Ranking(k) == r + e;
      assert (r + e)[m := score] == r + e[m := score];
    }
  }

  /** The keys a SUNION call names, as a set. */
  function KeySet(keys: seq<Key>): set<Key> {
    set k | k in keys
  }

  /** `s` lists `n` distinct members of `m`, highest score first, and no member
      left out scores above a listed one: the reply of ZREVRANGE for the first `n`
      ranks. Among equal scores any order is allowed. */
  ghost predicate TopRanked(m: map<string, real>, n: nat, s: seq<string>) {
    && |s| == n
    && (forall j :: 0 <= j < |s| ==> s[j] in m)
    && (forall i, j :: 0 <= i < j < |s| ==> s[i] != s[j])
    && (forall i, j :: 0 <= i < j < |s| ==> m[s[j]] <= m[s[i]])
    && (forall x, j :: x in m && x !in s && 0 <= j < |s| ==> m[x] <= m[s[j]])
  }

  /** Whether ZREVRANGE k 0 stop on a sorted set of `n` members returns rank `r`
      (0 for the highest score). Rank `r` is addressed as `r` or, from the end,
      as `r - n`; the index of the same sign as `stop` must be at most `stop`. */
  predicate Returned(n: nat, stop: int, r: int) {
    (if stop < 0 then r - n else r) <= stop
  }

  /** How many members ZREVRANGE k 0 stop returns from a sorted set of `n`
      members: exactly the ranks that `Returned` admits, which are a prefix. */
  function RangeCount(n: nat, stop: int): (count: nat)
    ensures count <= n
    ensures forall r :: 0 <= r < n ==> (Returned(n, stop, r) <==> r < count)
  {
    var last := if stop < 0 then n + stop else stop;
    if last < 0 then 0 else if last >= n then n else last + 1
  }

  class Store {
    var data: Snapshot
    const faults: set<Call>

    constructor (faults: set<Call>)
      ensures data == Snapshot(map[], map[]) && this.faults == faults
    {
      data := Snapshot(map[], map[]);
      this.faults := faults;
    }

    method SMembers(k: Key) returns (r: Result<set<string>>)
      ensures r == if SMembersCall(k) in faults then Err(StoreFailure(SMembersCall(k))) else Ok(data.Members(k))
    {
      if SMembersCall(k) in faults {
        return Err(StoreFailure(SMembersCall(k)));
      }
      return Ok(data.Members(k));
    }

    /** SUNION over the keys in `keys`, accumulated key by key. */
    method SUnion(keys: seq<Key>) returns (r: Result<set<string>>)
      ensures var call := SUnionCall(KeySet(keys));
              r == if call in faults then Err(StoreFailure(call)) else Ok(data.UnionOf(KeySet(keys)))
    {
      var call := SUnionCall(KeySet(keys));
      if call in faults {
        return Err(StoreFailure(call));
      }
      var acc: set<string> := {};
      var j := 0;
      while j < |keys|
        invariant 0 <= j <= |keys|
        invariant acc == data.UnionOf(KeySet(keys[..j]))
      {
        assert KeySet(keys[..j + 1]) == KeySet(keys[..j]) + {keys[j]} by {
          assert keys[..j + 1] == keys[..j] + [keys[j]];
        }
        acc := acc + data.Members(keys[j]);
        j := j + 1;
      }
      assert keys[..j] == keys;
      return Ok(acc);
    }

    /** SISMEMBER: the integer reply 1 or 0. */
    method SIsMember(k: Key, m: string) returns (r: Result<int>)
      ensures var call := SIsMemberCall(k, m);
              r == if call in faults then Err(StoreFailure(call)) else Ok(if m in data.Members(k) then 1 else 0)
    {
      if SIsMemberCall(k, m) in faults {
        return Err(StoreFailure(SIsMemberCall(k, m)));
      }
      return Ok(if m in data.Members(k) then 1 else 0);
    }

    /** SDIFF k subtrahend */
    method SDiff(k: Key, subtrahend: Key) returns (r: Result<set<string>>)
      ensures var call := SDiffCall(k, subtrahend);
              r == if call in faults then Err(StoreFailure(call)) else Ok(data.Members(k) - data.Members(subtrahend))
    {
      if SDiffCall(k, subtrahend) in faults {
        return Err(StoreFailure(SDiffCall(k, subtrahend)));
      }
      return Ok(data.Members(k) - data.Members(subtrahend));
    }

    method SAdd(k: Key, m: string) returns (r: Outcome)
      modifies this`data
      ensures SAddCall(k, m) in faults ==> r == Fail(StoreFailure(SAddCall(k, m))) && data == old(data)
      ensures SAddCall(k, m) !in faults ==> r == Pass && data == old(data).SAdd(k, m)
    {
      if SAddCall(k, m) in faults {
        return Fail(StoreFailure(SAddCall(k, m)));
      }
      data := data.SAdd(k, m);
      return Pass;
    }

    /** SUNIONSTORE dest src, with a single source key. */
    method SUnionStore(dest: Key, src: Key)
      modifies this`data
      ensures data == old(data).Store(dest, old(data).Members(src))
    {
      data := data.Store(dest, data.Members(src));
    }

    method Del(k: Key)
      modifies this`data
      ensures data == old(data).Del(k)
    {
      data := data.Del(k);
    }

    /** ZADD k score m. The store refuses a NaN score ("not a valid float");
        the engine ignores that error, so nothing changes. */
    method ZAdd(k: Key, score: Float64, m: string)
      modifies this`data
      ensures data == if score.NaN? then old(data) else old(data).ZAdd(k, m, score.value)
    {
      if score.Finite? {
        data := data.ZAdd(k, m, score.value);
      }
    }

    method ZIncrBy(k: Key, delta: real, m: string)
      modifies this`data
      ensures data == old(data).ZIncrBy(k, m, delta)
    {
      data := data.ZIncrBy(k, m, delta);
    }

    /** ZREVRANGE k 0 stop: the members of highest score, by repeated selection
        of a best remaining member. */
    method ZRevRange(k: Key, stop: int) returns (r: Result<seq<string>>)
      ensures ZRevRangeCall(k) in faults ==> r == Err(StoreFailure(ZRevRangeCall(k)))
      ensures ZRevRangeCall(k) !in faults ==>
                r.Ok? && TopRanked(data.Ranking(k), RangeCount(|data.Ranking(k)|, stop), r.value)
    {
      if ZRevRangeCall(k) in faults {
        return Err(StoreFailure(ZRevRangeCall(k)));
      }
      var m := data.Ranking(k);
      var n := RangeCount(|m|, stop);
      var s: seq<string> := [];
      var rest := m.Keys;
      while |s| < n
        invariant |s| <= n
        invariant rest <= m.Keys
        invariant |rest| + |s| == |m|
        invariant forall j :: 0 <= j < |s| ==> s[j] in m && s[j] !in rest
        invariant forall x :: x in m && x !in s ==> x in rest
        invariant forall i, j :: 0 <= i < j < |s| ==> s[i] != s[j]
        invariant forall i, j :: 0 <= i < j < |s| ==> m[s[j]] <= m[s[i]]
        invariant forall x, j :: x in rest && 0 <= j < |s| ==> m[x] <= m[s[j]]
        decreases n - |s|
      {
        assert rest != {};
        var best :| best in rest;
        var scan := rest - {best};
        while scan != {}
          invariant best in rest
          invariant scan <= rest
          invariant forall y :: y in rest && y !in scan ==> m[y] <= m[best]
          decreases scan
        {
          var y :| y in scan;
          if m[y] > m[best] {
            best := y;
          }
          scan := scan - {y};
        }
        s := s + [best];
        rest := rest - {best};
      }
      return Ok(s);
    }
  }
}
