/**
 * When a lookup on the ring can fail. Two points of one node may collide without harm; two nodes that
 * share a point are enough for some history of edits to leave a point that nobody owns.
 */
module RingLookups {
  import opened Base
  import opened Ring

  /** No two distinct nodes have a point in common. */
  ghost predicate NoSharedPoint(hash: Hash, v: nat, nodes: set<Node>) {
    forall n, m, h :: n in nodes && m in nodes && IsPoint(hash, v, n, h) && IsPoint(hash, v, m, h) ==> n == m
  }

  /** No history of edits of the nodes, and no key, makes a lookup fail. */
  ghost predicate LookupsNeverFail(hash: Hash, v: nat, nodes: set<Node>) {
    forall edits, h :: Mentioned(edits) <= nodes ==> Route(After(hash, v, edits), h) != KeyError
  }

  /* ----- what adding and removing the points of a node does ----- */

  lemma {:induction false} BagMeans(hash: Hash, node: Node, n: nat, h: nat)
    ensures h in Bag(hash, node, n) <==> IsPoint(hash, n, node, h)
  {
    if n > 0 {
      BagMeans(hash, node, n - 1, h);
      PointsGrow(hash, node, n - 1, h);
    }
  }

  lemma {:induction false} AddPointsRing(hash: Hash, s: State, node: Node, n: nat, h: nat)
    ensures var t := AddPoints(hash, s, node, n).ring;
            if IsPoint(hash, n, node, h) then h in t && t[h] == node
            else (h in t <==> h in s.ring) && (h in t ==> t[h] == s.ring[h])
  {
    if n > 0 {
      AddPointsRing(hash, s, node, n - 1, h);
      PointsGrow(hash, node, n - 1, h);
    }
  }

  lemma {:induction false} RemovePointsRing(hash: Hash, s: State, node: Node, n: nat, h: nat)
    ensures var t := RemovePoints(hash, s, node, n).ring;
            (h in t <==> h in s.ring && !IsPoint(hash, n, node, h)) && (h in t ==> t[h] == s.ring[h])
  {
    if n > 0 {
      RemovePointsRing(hash, s, node, n - 1, h);
      PointsGrow(hash, node, n - 1, h);
    }
  }

  lemma {:induction false} DeleteBag(s: seq<nat>, h: nat)
    ensures multiset(Delete(s, h)) == multiset(s) - multiset{h}
  {
    if s != [] {
      HeadAndTail(s);
      if s[0] != h {
        DeleteBag(s[1..], h);
      }
    }
  }

  lemma DeleteFrom(t: seq<nat>, s: seq<nat>, gone: multiset<nat>, h: nat)
    requires multiset(t) == multiset(s) - gone
    ensures multiset(Delete(t, h)) == multiset(s) - (gone + multiset{h})
  {
    DeleteBag(t, h);
  }

  lemma {:induction false} RemovePointsBag(hash: Hash, s: State, node: Node, n: nat)
    ensures multiset(RemovePoints(hash, s, node, n).hashes) == multiset(s.hashes) - Bag(hash, node, n)
  {
    if n > 0 {
      RemovePointsBag(hash, s, node, n - 1);
      DeleteFrom(RemovePoints(hash, s, node, n - 1).hashes, s.hashes, Bag(hash, node, n - 1), Point(hash, node, n - 1));
    }
  }

  /* ----- the invariant of rings without shared points ----- */

  /** The list holds each point of the map as often as its owner has it, and no other point. */
  ghost predicate Accounted(hash: Hash, v: nat, s: State, h: nat) {
    multiset(s.hashes)[h] == if h in s.ring then Bag(hash, s.ring[h], v)[h] else 0
  }

  ghost predicate SoundRing(hash: Hash, v: nat, s: State, nodes: set<Node>) {
    && (forall h :: h in s.ring ==> s.ring[h] in nodes && IsPoint(hash, v, s.ring[h], h))
    && (forall h :: Accounted(hash, v, s, h))
  }

  /** At a point of a node to be added, a sound ring without that node has nothing. */
  lemma NothingAtFreshPoint(hash: Hash, v: nat, s: State, nodes: set<Node>, node: Node, h: nat)
    requires NoSharedPoint(hash, v, nodes) && node in nodes && SoundRing(hash, v, s, nodes)
    requires IsPoint(hash, v, node, h)
    ensures h in s.ring ==> s.ring[h] == node
    ensures node !in Nodes(s) ==> h !in s.ring && multiset(s.hashes)[h] == 0
  {
    assert Accounted(hash, v, s, h);
  }

  lemma AddSound(hash: Hash, v: nat, s: State, nodes: set<Node>, node: Node)
    requires NoSharedPoint(hash, v, nodes) && node in nodes && SoundRing(hash, v, s, nodes)
    ensures SoundRing(hash, v, Add(hash, v, s, node), nodes)
  {
    if node !in Nodes(s) {
      var t := AddPoints(hash, s, node, v);
      AddPointsBag(hash, s, node, v);
      forall h ensures Accounted(hash, v, t, h) &&
        (h in t.ring ==> t.ring[h] in nodes && IsPoint(hash, v, t.ring[h], h)) {
        AddPointsRing(hash, s, node, v, h);
        BagMeans(hash, node, v, h);
        assert Accounted(hash, v, s, h);
        if IsPoint(hash, v, node, h) {
          NothingAtFreshPoint(hash, v, s, nodes, node, h);
        }
      }
    }
  }

  lemma RemoveSound(hash: Hash, v: nat, s: State, nodes: set<Node>, node: Node)
    requires NoSharedPoint(hash, v, nodes) && node in nodes && SoundRing(hash, v, s, nodes)
    ensures SoundRing(hash, v, Remove(hash, v, s, node), nodes)
  {
    var t := RemovePoints(hash, s, node, v);
    RemovePointsBag(hash, s, node, v);
    forall h ensures Accounted(hash, v, t, h) &&
      (h in t.ring ==> t.ring[h] in nodes && IsPoint(hash, v, t.ring[h], h)) {
      RemovePointsRing(hash, s, node, v, h);
      BagMeans(hash, node, v, h);
      assert Accounted(hash, v, s, h);
      if IsPoint(hash, v, node, h) {
        NothingAtFreshPoint(hash, v, s, nodes, node, h);
      }
    }
  }

  lemma {:induction false} AfterSound(hash: Hash, v: nat, edits: seq<Edit>, nodes: set<Node>)
    requires NoSharedPoint(hash, v, nodes) && Mentioned(edits) <= nodes
    ensures SoundRing(hash, v, After(hash, v, edits), nodes)
  {
    if edits != [] {
      var before, last := edits[..|edits| - 1], edits[|edits| - 1];
      assert forall e :: e in before ==> e in edits;
      assert last in edits && last.node in Mentioned(edits);
      AfterSound(hash, v, before, nodes);
      if last.AddNode? {
        AddSound(hash, v, After(hash, v, before), nodes, last.node);
      } else {
        RemoveSound(hash, v, After(hash, v, before), nodes, last.node);
      }
    }
  }

  lemma {:induction false} FirstAboveIsMember(s: seq<nat>, h: nat)
    ensures FirstAbove(s, h).Some? ==> FirstAbove(s, h).value in s
  {
    if s != [] && h >= s[0] {
      FirstAboveIsMember(s[1..], h);
    }
  }

  lemma SoundRoutes(hash: Hash, v: nat, s: State, nodes: set<Node>, h: nat)
    requires SoundRing(hash, v, s, nodes)
    ensures Route(s, h) != KeyError
  {
    if s.hashes != [] {
      FirstAboveIsMember(s.hashes, h);
      var above := FirstAbove(s.hashes, h);
      var p := if above.Some? then above.value else s.hashes[0];
      assert p in multiset(s.hashes);
      assert Accounted(hash, v, s, p);
    }
  }

  /* ----- a shared point, and the history that orphans it ----- */

  /** A point in the sorted list but not in the map is found by some lookup. */
  lemma OrphanFound(s: State, p: nat) returns (h: nat)
    requires Sorted(s.hashes) && p in s.hashes && p !in s.ring
    ensures Route(s, h) == KeyError
  {
    if p > 0 {
      h := p - 1;
      LeastAbove(s.hashes, p);
    } else {
      h := s.hashes[|s.hashes| - 1];
      NoneAbove(s.hashes, h);
      var i :| 0 <= i < |s.hashes| && s.hashes[i] == 0;
      assert s.hashes[0] == 0;
    }
  }

  lemma {:induction false} LeastAbove(s: seq<nat>, p: nat)
    requires Sorted(s) && p in s && p > 0
    ensures FirstAbove(s, p - 1) == Some(p)
  {
    var i :| 0 <= i < |s| && s[i] == p;
    if s[0] < p {
      assert s[1..][i - 1] == p;
      LeastAbove(s[1..], p);
    }
  }

  lemma {:induction false} NoneAbove(s: seq<nat>, h: nat)
    requires forall i :: 0 <= i < |s| ==> s[i] <= h
    ensures FirstAbove(s, h) == None
  {
    if s != [] {
      NoneAbove(s[1..], h);
    }
  }

  lemma {:induction false} AddPointsSorted(hash: Hash, s: State, node: Node, n: nat)
    requires Sorted(s.hashes)
    ensures Sorted(AddPoints(hash, s, node, n).hashes)
  {
    if n > 0 {
      AddPointsSorted(hash, s, node, n - 1);
      InsertSorted(AddPoints(hash, s, node, n - 1).hashes, Point(hash, node, n - 1));
    }
  }

  lemma {:induction false} RemovePointsSorted(hash: Hash, s: State, node: Node, n: nat)
    requires Sorted(s.hashes)
    ensures Sorted(RemovePoints(hash, s, node, n).hashes)
  {
    if n > 0 {
      RemovePointsSorted(hash, s, node, n - 1);
      DeleteSorted(RemovePoints(hash, s, node, n - 1).hashes, Point(hash, node, n - 1));
    }
  }

  /** Add both nodes and remove the first: the shared point stays in the list and leaves the map. */
  lemma SharedPointOrphaned(hash: Hash, v: nat, n: Node, m: Node, p: nat)
    requires n != m && IsPoint(hash, v, n, p) && IsPoint(hash, v, m, p)
    ensures var s := Remove(hash, v, Add(hash, v, Add(hash, v, EMPTY_RING, n), m), n);
            Sorted(s.hashes) && p in s.hashes && p !in s.ring
  {
    var a := AddPoints(hash, EMPTY_RING, n, v);
    var b := AddPoints(hash, a, m, v);
    assert Add(hash, v, EMPTY_RING, n) == a;
    forall h | h in a.ring ensures a.ring[h] != m {
      AddPointsRing(hash, EMPTY_RING, n, v, h);
    }
    assert Add(hash, v, a, m) == b;
    AddPointsBag(hash, EMPTY_RING, n, v);
    AddPointsBag(hash, a, m, v);
    RemovePointsBag(hash, b, n, v);
    BagMeans(hash, m, v, p);
    RemovePointsRing(hash, b, n, v, p);
    AddPointsSorted(hash, EMPTY_RING, n, v);
    AddPointsSorted(hash, a, m, v);
    RemovePointsSorted(hash, b, n, v);
    assert p in multiset(RemovePoints(hash, b, n, v).hashes);
  }

  lemma SharedPointFails(hash: Hash, v: nat, nodes: set<Node>, n: Node, m: Node, p: nat)
    requires n in nodes && m in nodes && n != m && IsPoint(hash, v, n, p) && IsPoint(hash, v, m, p)
    ensures !LookupsNeverFail(hash, v, nodes)
  {
    var e1, e2, e3 := [AddNode(n)], [AddNode(n), AddNode(m)], [AddNode(n), AddNode(m), RemoveNode(n)];
    assert e1[..0] == [] && e2[..1] == e1 && e3[..2] == e2;
    var s := After(hash, v, e3);
    assert After(hash, v, e1) == Add(hash, v, EMPTY_RING, n);
    assert After(hash, v, e2) == Add(hash, v, After(hash, v, e1), m);
    SharedPointOrphaned(hash, v, n, m, p);
    var h := OrphanFound(s, p);
    assert Mentioned(e3) <= nodes;
  }

  /**
   * Over all histories of edits of a set of nodes and all keys, no lookup fails if and only if no two
   * distinct nodes of the set share a point.
   */
  lemma LookupsNeverFailIffNoSharedPoint(hash: Hash, v: nat, nodes: set<Node>)
    ensures LookupsNeverFail(hash, v, nodes) <==> NoSharedPoint(hash, v, nodes)
  {
    if NoSharedPoint(hash, v, nodes) {
      forall edits, h | Mentioned(edits) <= nodes ensures Route(After(hash, v, edits), h) != KeyError {
        AfterSound(hash, v, edits, nodes);
        SoundRoutes(hash, v, After(hash, v, edits), nodes, h);
      }
    } else {
      var n, m, p :| n in nodes && m in nodes && IsPoint(hash, v, n, p) && IsPoint(hash, v, m, p) && n != m;
      SharedPointFails(hash, v, nodes, n, m, p);
    }
  }

  /** Points of one node may collide among themselves: list and map disagree, and still no lookup fails. */
  lemma OwnCollisionsAreHarmless(node: Node)
    ensures var hash: Hash := _ => 0; !NoCollision(hash, 2, {node}) && LookupsNeverFail(hash, 2, {node})
  {
    var hash: Hash := _ => 0;
    assert Point(hash, node, 0) == Point(hash, node, 1);
    LookupsNeverFailIffNoSharedPoint(hash, 2, {node});
  }
}
