/** Log rewriting: the smallest log of the current contents, and what replaying it restores. */
module Rewrite {
  import opened Base
  import opened CacheModel
  import opened SweepLaws
  import opened LruLaws
  import opened Commands
  import opened TimedReplay
  import opened StoreEngine

  /** Records that rebuild one entry. */
  function KeyRecords(k: Key, e: Entry): seq<Record> {
    if e.deadline.None? then [SetRecord(k, e.value)]
    else [SetRecord(k, e.value), ExpireAtRecord(k, e.deadline.value)]
  }

  /** Records that rebuild the entries of `m` along the order `o`. */
  function RewriteRecords(o: seq<Key>, m: map<Key, Entry>): seq<Record>
    requires forall k :: k in o ==> k in m
  {
    if o == [] then []
    else RewriteRecords(o[..|o| - 1], m) + KeyRecords(o[|o| - 1], m[o[|o| - 1]])
  }

  lemma {:induction false} SnapshotOfLive(o: seq<Key>, m: map<Key, Entry>, now: int)
    requires forall k :: k in o ==> k in m && !Expired(m[k], now)
    ensures |SnapshotRows(o, m, now)| == |o|
    ensures forall i :: 0 <= i < |o| ==> SnapshotRows(o, m, now)[i] == Row(o[i], m[o[i]], now)
  {
    if o != [] {
      SnapshotOfLive(o[1..], m, now);
    }
  }

  /** `build_rewrite_commands`: sweep, then two records at most for each row of the snapshot. */
  method BuildRewriteCommands(store: Store, now: int) returns (commands: seq<Record>)
    requires store.Valid()
    modifies store
    ensures store.Valid() && store.State() == Prune(old(store.State()), now)
    ensures store.evicted == old(store.evicted)
    ensures commands == RewriteRecords(store.order, store.entries)
  {
    var rows := store.TakeSnapshot(now);
    PruneEntries(old(store.State()), now);
    SnapshotOfLive(store.order, store.entries, now);
    commands := RowCommands(rows, store.order, store.entries, now);
  }

  method RowCommands(rows: seq<Item>, ghost o: seq<Key>, ghost m: map<Key, Entry>, now: int)
    returns (commands: seq<Record>)
    requires |rows| == |o| && forall k :: k in o ==> k in m
    requires forall i :: 0 <= i < |o| ==> rows[i] == Row(o[i], m[o[i]], now)
    ensures commands == RewriteRecords(o, m)
  {
    commands := [];
    for i := 0 to |rows|
      invariant commands == RewriteRecords(o[..i], m)
    {
      commands := commands + [SetRecord(rows[i].key, rows[i].value)];
      if rows[i].ttl.Some? {
        commands := commands + [ExpireAtRecord(rows[i].key, now + rows[i].ttl.value)];
      }
      assert o[..i + 1][..i] == o[..i];
    }
    assert o[..|o|] == o;
  }

  /* ----- replaying a rewritten log ----- */

  /** Keys evicted while replaying. */
  function ReplayEvicted(c: Cache, cfg: Config, recs: seq<Record>, at: int): seq<Key> {
    if recs == [] then []
    else
      var before, last := recs[..|recs| - 1], recs[|recs| - 1];
      ReplayEvicted(c, cfg, before, at) + Dispatch(Replay(c, cfg, before, at), cfg, last, at).evicted
  }

  lemma {:induction false} ReplayEvictedAppend(c: Cache, cfg: Config, a: seq<Record>, b: seq<Record>, at: int)
    ensures ReplayEvicted(c, cfg, a + b, at) ==
            ReplayEvicted(c, cfg, a, at) + ReplayEvicted(Replay(c, cfg, a, at), cfg, b, at)
  {
    if b == [] {
      assert a + b == a;
    } else {
      var n := |b| - 1;
      assert (a + b)[..|a + b| - 1] == a + b[..n];
      ReplayEvictedAppend(c, cfg, a, b[..n], at);
      ReplayAppend(c, cfg, a, b[..n], at);
      Regroup(ReplayEvicted(c, cfg, a, at), ReplayEvicted(Replay(c, cfg, a, at), cfg, b[..n], at),
              Dispatch(Replay(c, cfg, a + b[..n], at), cfg, b[n], at).evicted);
    }
  }

  /** The part of a cache made of its `n` least recently used keys. */
  function Oldest(c: Cache, n: nat): Cache
    requires n <= |c.order|
  {
    Cache(c.order[..n], map k | k in c.entries && k in c.order[..n] :: c.entries[k])
  }

  lemma UsedOldest(c: Cache, n: nat)
    requires n <= |c.order|
    ensures Used(Oldest(c, n)) <= Used(c)
  {
    assert c.order == c.order[..n] + c.order[n..];
    TotalSizeAppend(c.order[..n], c.order[n..], c.entries);
    TotalSizeSame(c.order[..n], c.entries, Oldest(c, n).entries);
  }

  lemma OldestNext(c: Cache, n: nat)
    requires WF(c) && n < |c.order|
    ensures var k := c.order[n];
            k !in Oldest(c, n).entries && c.order[..n + 1] == c.order[..n] + [k] &&
            Oldest(c, n + 1).entries == Oldest(c, n).entries[k := c.entries[k]]
  {
    var k := c.order[n];
    assert k !in c.order[..n];
    assert c.order[..n + 1] == c.order[..n] + [k];
  }

  lemma PutFresh(p: Cache, k: Key, e: Entry)
    requires WF(p) && k !in p.entries
    ensures Put(p, k, e) == Cache(p.order + [k], p.entries[k := e])
  {
    KeepAll(p.order, p.entries.Keys - {k});
  }

  /** Adding the next key of the order as a fresh entry without deadline. */
  lemma PutNext(c: Cache, n: nat)
    requires WF(c) && n < |c.order|
    ensures var k := c.order[n];
            var d := Put(Oldest(c, n), k, NewEntry(k, c.entries[k].value, None));
            k !in Oldest(c, n).entries && d.order == c.order[..n + 1] &&
            d.entries.Keys == Oldest(c, n + 1).entries.Keys &&
            Used(d) == Used(Oldest(c, n + 1)) &&
            Revise(d, k, c.entries[k]) == Oldest(c, n + 1)
  {
    var k := c.order[n];
    var p := Oldest(c, n);
    OldestNext(c, n);
    OldestWF(c, n);
    var d := Put(p, k, NewEntry(k, c.entries[k].value, None));
    PutFresh(p, k, NewEntry(k, c.entries[k].value, None));
    ReviseFresh(p, k, NewEntry(k, c.entries[k].value, None), c.entries[k]);
    UsedRevise(d, k, c.entries[k]);
  }

  lemma ReviseFresh(p: Cache, k: Key, e: Entry, f: Entry)
    ensures Revise(Cache(p.order + [k], p.entries[k := e]), k, f) == Cache(p.order + [k], p.entries[k := f])
  {
    assert p.entries[k := e][k := f] == p.entries[k := f];
  }

  /** Within the cap, a prefix of the order with its last key still without deadline is not evicted from. */
  lemma NoEvictionInPrefix(c: Cache, cfg: Config, d: Cache, n: nat, at: int)
    requires WF(c) && WithinCap(c, cfg) && 0 < n <= |c.order|
    requires d.order == c.order[..n] && d.entries.Keys == Oldest(c, n).entries.Keys
    requires Used(d) == Used(Oldest(c, n)) && !Expired(d.entries[c.order[n - 1]], at)
    requires WF(d)
    ensures Evict(d, cfg, at) == Eviction(d, [])
  {
    UsedOldest(c, n);
    if cfg.lru && Over(d, cfg) {
      assert |c.order| == 1;
      assert d.order == [c.order[0]];
      assert d.entries.Keys == LiveKeys(d, at);
      RestrictAll(d, LiveKeys(d, at));
    }
  }

  /** Replaying the SET of the next key adds it without a deadline and evicts nothing. */
  lemma ReplayKeySet(c: Cache, cfg: Config, n: nat, at: int)
    requires WF(c) && WithinCap(c, cfg) && n < |c.order|
    ensures var k := c.order[n]; var fresh_ := NewEntry(k, c.entries[k].value, None);
            Dispatch(Oldest(c, n), cfg, SetRecord(k, c.entries[k].value), at) ==
            Effect(Put(Oldest(c, n), k, fresh_), OK, [], 1)
  {
    var k := c.order[n];
    var p := Oldest(c, n);
    var d := Put(p, k, NewEntry(k, c.entries[k].value, None));
    PutNext(c, n);
    OldestWF(c, n);
    PutWF(p, k, NewEntry(k, c.entries[k].value, None));
    NoEvictionInPrefix(c, cfg, d, n + 1, at);
    ParseSetRecord(k, c.entries[k].value);
  }

  lemma ReplayEvictedOne(c: Cache, cfg: Config, r: Record, at: int)
    ensures ReplayEvicted(c, cfg, [r], at) == Dispatch(c, cfg, r, at).evicted
  {
    assert [r][..0] == [];
    assert ReplayEvicted(c, cfg, [], at) == [] && Replay(c, cfg, [], at) == c;
  }

  lemma ReplayKeyExpire(d: Cache, cfg: Config, k: Key, e: Entry, at: int)
    requires k in d.entries && d.entries[k] == NewEntry(k, e.value, None)
    requires e.deadline.Some? && e.size == Cost(k, e.value)
    ensures Dispatch(d, cfg, ExpireAtRecord(k, e.deadline.value), at).cache == Revise(d, k, e)
    ensures Dispatch(d, cfg, ExpireAtRecord(k, e.deadline.value), at).evicted == []
  {
    ParseExpireAtRecord(k, e.deadline.value);
  }

  lemma ReplayKey(c: Cache, cfg: Config, n: nat, at: int)
    requires WF(c) && WithinCap(c, cfg) && n < |c.order|
    ensures var k := c.order[n];
            Replay(Oldest(c, n), cfg, KeyRecords(k, c.entries[k]), at) == Oldest(c, n + 1) &&
            ReplayEvicted(Oldest(c, n), cfg, KeyRecords(k, c.entries[k]), at) == []
  {
    var k := c.order[n];
    var e := c.entries[k];
    var p := Oldest(c, n);
    var d := Put(p, k, NewEntry(k, e.value, None));
    PutNext(c, n);
    ReplayKeySet(c, cfg, n, at);
    ReplayOne(p, cfg, SetRecord(k, e.value), at);
    ReplayEvictedOne(p, cfg, SetRecord(k, e.value), at);
    if e.deadline.None? {
      assert Revise(d, k, e) == d;
    } else {
      var exp := ExpireAtRecord(k, e.deadline.value);
      ReplayKeyExpire(d, cfg, k, e, at);
      ReplayTwo(p, cfg, SetRecord(k, e.value), exp, at);
      assert [SetRecord(k, e.value), exp] == [SetRecord(k, e.value)] + [exp];
      ReplayEvictedAppend(p, cfg, [SetRecord(k, e.value)], [exp], at);
      ReplayEvictedOne(d, cfg, exp, at);
    }
  }

  lemma OldestWF(c: Cache, n: nat)
    requires WF(c) && n <= |c.order|
    ensures WF(Oldest(c, n))
  {
  }

  lemma ReplayThenKey(c: Cache, cfg: Config, before: seq<Record>, n: nat, at: int)
    requires WF(c) && WithinCap(c, cfg) && n < |c.order|
    requires Replay(EMPTY, cfg, before, at) == Oldest(c, n) && ReplayEvicted(EMPTY, cfg, before, at) == []
    ensures var all := before + KeyRecords(c.order[n], c.entries[c.order[n]]);
            Replay(EMPTY, cfg, all, at) == Oldest(c, n + 1) && ReplayEvicted(EMPTY, cfg, all, at) == []
  {
    var mine := KeyRecords(c.order[n], c.entries[c.order[n]]);
    ReplayKey(c, cfg, n, at);
    ReplayAppend(EMPTY, cfg, before, mine, at);
    ReplayEvictedAppend(EMPTY, cfg, before, mine, at);
  }

  lemma RewriteRecordsNext(c: Cache, n: nat)
    requires WF(c) && n < |c.order|
    ensures RewriteRecords(c.order[..n + 1], c.entries) ==
            RewriteRecords(c.order[..n], c.entries) + KeyRecords(c.order[n], c.entries[c.order[n]])
  {
    assert c.order[..n + 1][..n] == c.order[..n];
  }

  lemma {:induction false} ReplayPrefix(c: Cache, cfg: Config, n: nat, recs: seq<Record>, at: int)
    requires WF(c) && WithinCap(c, cfg) && n <= |c.order| && recs == RewriteRecords(c.order[..n], c.entries)
    ensures Replay(EMPTY, cfg, recs, at) == Oldest(c, n) && ReplayEvicted(EMPTY, cfg, recs, at) == []
  {
    if n == 0 {
      assert recs == [];
      assert Oldest(c, 0) == EMPTY;
    } else {
      var before := RewriteRecords(c.order[..n - 1], c.entries);
      ReplayPrefix(c, cfg, n - 1, before, at);
      RewriteRecordsNext(c, n - 1);
      ReplayThenKey(c, cfg, before, n - 1, at);
    }
  }

  /**
   * A freshly rewritten log, replayed at any later time into a store with the same cap, evicts
   * nothing and restores what is alive then: the same values, the same deadlines, the same
   * least-recently-used order.
   */
  lemma RewrittenLogRestores(c: Cache, cfg: Config, now: int, at: int)
    requires WF(c) && WithinCap(c, cfg) && now <= at
    ensures var p := Prune(c, now);
            (forall k :: k in p.order ==> k in p.entries) &&
            var log := RewriteRecords(p.order, p.entries);
            Replay(EMPTY, cfg, log, at) == p &&
            Prune(Replay(EMPTY, cfg, log, at), at) == Prune(c, at) &&
            ReplayEvicted(EMPTY, cfg, log, at) == []
  {
    var p := Prune(c, now);
    RestrictWF(c, LiveKeys(c, now));
    WithinCapRestrict(c, cfg, LiveKeys(c, now));
    assert p.order[..|p.order|] == p.order;
    ReplayPrefix(p, cfg, |p.order|, RewriteRecords(p.order, p.entries), at);
    assert Oldest(p, |p.order|) == p;
    PruneTwice(c, now, at);
  }
}
