/**
 * The consistent-hash ring: a map from points to nodes and a sorted list of points, edited in place.
 * The hash is any function from byte strings to numbers.
 */
module Ring {
  import opened Base
  import opened Decimal

  type Node = Bytes
  type Hash = Bytes -> nat

  /** The label whose hash is the `i`-th point of a node. */
  function Label(node: Node, i: nat): Bytes {
    node + "#" + Digits(i)
  }

  function Point(hash: Hash, node: Node, i: nat): nat {
    hash(Label(node, i))
  }

  /** Labels determine their node and index: the digits after the last `#` are the index. */
  lemma LabelInjective(n: Node, i: nat, m: Node, j: nat)
    requires Label(n, i) == Label(m, j)
    ensures n == m && i == j
  {
    var s := Label(n, i);
    var a, b := |n|, |m|;
    assert s[a] == '#' && s[b] == '#';
    assert s[a + 1..] == Digits(i) && s[b + 1..] == Digits(j);
    assert forall t :: a < t < |s| ==> s[t] == s[a + 1..][t - a - 1];
    assert forall t :: b < t < |s| ==> s[t] == s[b + 1..][t - b - 1];
    assert a == b;
    assert s[..a] == n && s[..b] == m;
    DigitsInjective(i, j);
  }

  /* ----- sorted lists ----- */

  ghost predicate Sorted(s: seq<nat>) {
    forall i, j :: 0 <= i < j < |s| ==> s[i] <= s[j]
  }

  ghost predicate Strict(s: seq<nat>) {
    forall i, j :: 0 <= i < j < |s| ==> s[i] < s[j]
  }

  /** `bisect.bisect`: the first position whose element exceeds `h`. */
  method BisectRight(s: seq<nat>, h: nat) returns (lo: nat)
    requires Sorted(s)
    ensures lo <= |s|
    ensures forall i :: 0 <= i < lo ==> s[i] <= h
    ensures forall i :: lo <= i < |s| ==> h < s[i]
  {
    lo := 0;
    var hi := |s|;
    while lo < hi
      invariant 0 <= lo <= hi <= |s|
      invariant forall i :: 0 <= i < lo ==> s[i] <= h
      invariant forall i :: hi <= i < |s| ==> h < s[i]
    {
      var mid := (lo + hi) / 2;
      if h < s[mid] {
        hi := mid;
      } else {
        lo := mid + 1;
      }
    }
  }

  /** `bisect.bisect_left`: the first position whose element is at least `h`. */
  method BisectLeft(s: seq<nat>, h: nat) returns (lo: nat)
    requires Sorted(s)
    ensures lo <= |s|
    ensures forall i :: 0 <= i < lo ==> s[i] < h
    ensures forall i :: lo <= i < |s| ==> h <= s[i]
  {
    lo := 0;
    var hi := |s|;
    while lo < hi
      invariant 0 <= lo <= hi <= |s|
      invariant forall i :: 0 <= i < lo ==> s[i] < h
      invariant forall i :: hi <= i < |s| ==> h <= s[i]
    {
      var mid := (lo + hi) / 2;
      if s[mid] < h {
        lo := mid + 1;
      } else {
        hi := mid;
      }
    }
  }

  function Insert(s: seq<nat>, h: nat): seq<nat> {
    if s == [] || h < s[0] then [h] + s else [s[0]] + Insert(s[1..], h)
  }

  function Delete(s: seq<nat>, h: nat): seq<nat> {
    if s == [] then [] else if s[0] == h then s[1..] else [s[0]] + Delete(s[1..], h)
  }

  lemma {:induction false} InsertAt(s: seq<nat>, h: nat, k: nat)
    requires Sorted(s) && k <= |s|
    requires (forall i :: 0 <= i < k ==> s[i] <= h) && (forall i :: k <= i < |s| ==> h < s[i])
    ensures Insert(s, h) == s[..k] + [h] + s[k..]
  {
    if k > 0 {
      InsertAt(s[1..], h, k - 1);
      assert s[..k] == [s[0]] + s[1..][..k - 1];
      assert s[1..][k - 1..] == s[k..];
    } else if s != [] {
      assert s[..0] == [] && s[0..] == s;
    }
  }

  lemma WithoutShift(s: seq<nat>, k: nat)
    requires 0 < k < |s|
    ensures [s[0]] + (s[1..][..k - 1] + s[1..][k..]) == s[..k] + s[k + 1..]
  {
  }

  lemma {:induction false} DeleteAt(s: seq<nat>, h: nat, k: nat)
    requires k <= |s|
    requires (forall i :: 0 <= i < k ==> s[i] < h) && (forall i :: k <= i < |s| ==> h <= s[i])
    requires Sorted(s)
    ensures Delete(s, h) == if k < |s| && s[k] == h then s[..k] + s[k + 1..] else s
  {
    if k == |s| || s[k] != h {
      DeleteAbsent(s, h);
    } else if k > 0 {
      DeleteAt(s[1..], h, k - 1);
      WithoutShift(s, k);
    } else {
      assert s[..0] == [];
    }
  }

  lemma {:induction false} DeleteAbsent(s: seq<nat>, h: nat)
    requires h !in s
    ensures Delete(s, h) == s
  {
    if s != [] {
      DeleteAbsent(s[1..], h);
    }
  }

  lemma {:induction false} InsertBag(s: seq<nat>, h: nat)
    ensures multiset(Insert(s, h)) == multiset(s) + multiset{h}
  {
    if s != [] && h >= s[0] {
      InsertBag(s[1..], h);
      assert s == [s[0]] + s[1..];
    }
  }

  lemma HeadIsMember(t: seq<nat>)
    requires t != []
    ensures t[0] in t
  {
  }

  lemma ConsSorted(x: nat, t: seq<nat>)
    requires Sorted(t) && forall y :: y in t ==> x <= y
    ensures Sorted([x] + t)
  {
    assert forall i :: 0 <= i < |t| ==> t[i] in t;
  }

  lemma ConsStrict(x: nat, t: seq<nat>)
    requires Strict(t) && forall y :: y in t ==> x < y
    ensures Strict([x] + t)
  {
    assert forall i :: 0 <= i < |t| ==> t[i] in t;
  }

  lemma {:induction false} InsertMembers(s: seq<nat>, h: nat)
    ensures forall x :: x in Insert(s, h) <==> x == h || x in s
  {
    if s != [] && h >= s[0] {
      InsertMembers(s[1..], h);
      assert forall x :: x in s <==> x == s[0] || x in s[1..];
    }
  }

  lemma {:induction false} InsertSorted(s: seq<nat>, h: nat)
    requires Sorted(s)
    ensures Sorted(Insert(s, h))
  {
    if s != [] && h >= s[0] {
      InsertSorted(s[1..], h);
      InsertMembers(s[1..], h);
      ConsSorted(s[0], Insert(s[1..], h));
    } else {
      ConsSorted(h, s);
    }
  }

  lemma {:induction false} InsertStrict(s: seq<nat>, h: nat)
    requires Strict(s) && h !in s
    ensures Strict(Insert(s, h))
  {
    if s != [] && h >= s[0] {
      InsertStrict(s[1..], h);
      InsertMembers(s[1..], h);
      ConsStrict(s[0], Insert(s[1..], h));
    } else {
      ConsStrict(h, s);
    }
  }

  lemma {:induction false} DeleteMembers(s: seq<nat>, h: nat)
    ensures forall x :: x in Delete(s, h) ==> x in s
    ensures forall x :: x in s && x != h ==> x in Delete(s, h)
  {
    if s != [] && s[0] != h {
      DeleteMembers(s[1..], h);
    }
  }

  lemma {:induction false} DeleteSorted(s: seq<nat>, h: nat)
    requires Sorted(s)
    ensures Sorted(Delete(s, h))
  {
    if s != [] && s[0] != h {
      DeleteSorted(s[1..], h);
      DeleteMembers(s[1..], h);
      ConsSorted(s[0], Delete(s[1..], h));
    }
  }

  lemma {:induction false} DeleteStrict(s: seq<nat>, h: nat)
    requires Strict(s)
    ensures Strict(Delete(s, h)) && h !in Delete(s, h)
  {
    if s != [] && s[0] != h {
      DeleteStrict(s[1..], h);
      DeleteMembers(s[1..], h);
      ConsStrict(s[0], Delete(s[1..], h));
    }
  }

  /** A strictly sorted list is determined by its elements. */
  lemma {:induction false} StrictUnique(s: seq<nat>, t: seq<nat>)
    requires Strict(s) && Strict(t) && forall x :: x in s <==> x in t
    ensures s == t
  {
    if s == [] {
      if t != [] {
        HeadIsMember(t);
        assert false;
      }
    } else {
      assert s[0] in s && s[0] in t;
      assert t[0] in t && t[0] in s;
      assert s[0] == t[0];
      forall x ensures x in s[1..] <==> x in t[1..] {
        assert x in s[1..] <==> x in s && x != s[0];
        assert x in t[1..] <==> x in t && x != t[0];
      }
      StrictUnique(s[1..], t[1..]);
    }
  }

  /* ----- the ring ----- */

  datatype State = State(ring: map<nat, Node>, hashes: seq<nat>)

  const EMPTY_RING: State := State(map[], [])

  function Nodes(s: State): set<Node> {
    set h | h in s.ring :: s.ring[h]
  }

  /** Add the first `n` points of a node. */
  function AddPoints(hash: Hash, s: State, node: Node, n: nat): State {
    if n == 0 then s
    else
      var t := AddPoints(hash, s, node, n - 1);
      var h := Point(hash, node, n - 1);
      State(t.ring[h := node], Insert(t.hashes, h))
  }

  function RemovePoints(hash: Hash, s: State, node: Node, n: nat): State {
    if n == 0 then s
    else
      var t := RemovePoints(hash, s, node, n - 1);
      var h := Point(hash, node, n - 1);
      State(t.ring - {h}, Delete(t.hashes, h))
  }

  function Add(hash: Hash, v: nat, s: State, node: Node): State {
    if node in Nodes(s) then s else AddPoints(hash, s, node, v)
  }

  function Remove(hash: Hash, v: nat, s: State, node: Node): State {
    RemovePoints(hash, s, node, v)
  }

  /** Take one occurrence of a hash out of the sorted list, if it is there. */
  method Without(s: seq<nat>, h: nat) returns (t: seq<nat>)
    requires Sorted(s)
    ensures t == Delete(s, h) && Sorted(t)
  {
    var at := BisectLeft(s, h);
    DeleteAt(s, h, at);
    DeleteSorted(s, h);
    t := s;
    if at < |s| && s[at] == h {
      t := s[..at] + s[at + 1..];
    }
  }

  /** `ConsistentHashRing`, edited in place. */
  class HashRing {
    const hash: Hash
    const virtualNodes: nat
    var ring: map<nat, Node>
    var hashes: seq<nat>

    function AsState(): State
      reads this
    {
      State(ring, hashes)
    }

    constructor (hash: Hash, virtualNodes: nat)
      ensures AsState() == EMPTY_RING && this.hash == hash && this.virtualNodes == virtualNodes
    {
      this.hash, this.virtualNodes := hash, virtualNodes;
      ring, hashes := map[], [];
    }

    method AddNode(node: Node)
      requires Sorted(hashes)
      modifies this
      ensures Sorted(hashes) && AsState() == Add(hash, virtualNodes, old(AsState()), node)
    {
      if node in Nodes(AsState()) {
        return;
      }
      for i := 0 to virtualNodes
        invariant Sorted(hashes) && AsState() == AddPoints(hash, old(AsState()), node, i)
      {
        var h := Point(hash, node, i);
        ring := ring[h := node];
        var at := BisectRight(hashes, h);
        InsertAt(hashes, h, at);
        InsertSorted(hashes, h);
        hashes := hashes[..at] + [h] + hashes[at..];
      }
    }

    method RemoveNode(node: Node)
      requires Sorted(hashes)
      modifies this
      ensures Sorted(hashes) && AsState() == Remove(hash, virtualNodes, old(AsState()), node)
    {
      for i := 0 to virtualNodes
        invariant Sorted(hashes) && AsState() == RemovePoints(hash, old(AsState()), node, i)
      {
        var h := Point(hash, node, i);
        ring := ring - {h};
        var left := Without(hashes, h);
        hashes := left;
      }
    }

    /** `get_node`: no node on an empty ring, and a key error when list and map disagree. */
    method GetNode(key: Bytes) returns (r: Lookup)
      requires Sorted(hashes)
      ensures r == Route(AsState(), hash(key))
    {
      if hashes == [] {
        return NoNodes;
      }
      var h := hash(key);
      var at := BisectRight(hashes, h);
      RouteAt(AsState(), h, at);
      if at == |hashes| {
        at := 0;
      }
      r := if hashes[at] in ring then Owner(ring[hashes[at]]) else KeyError;
    }
  }

  datatype Lookup = NoNodes | KeyError | Owner(node: Node)

  /** First element above `h`, if any. */
  function FirstAbove(s: seq<nat>, h: nat): Option<nat> {
    if s == [] then None else if h < s[0] then Some(s[0]) else FirstAbove(s[1..], h)
  }

  function Route(s: State, h: nat): Lookup {
    if s.hashes == [] then NoNodes
    else
      var above := FirstAbove(s.hashes, h);
      var p := if above.Some? then above.value else s.hashes[0];
      if p in s.ring then Owner(s.ring[p]) else KeyError
  }

  lemma {:induction false} FirstAboveAt(s: seq<nat>, h: nat, k: nat)
    requires k <= |s| && (forall i :: 0 <= i < k ==> s[i] <= h) && (forall i :: k <= i < |s| ==> h < s[i])
    ensures FirstAbove(s, h) == if k < |s| then Some(s[k]) else None
  {
    if k > 0 {
      FirstAboveAt(s[1..], h, k - 1);
    }
  }

  lemma RouteAt(s: State, h: nat, k: nat)
    requires s.hashes != [] && k <= |s.hashes|
    requires (forall i :: 0 <= i < k ==> s.hashes[i] <= h) && (forall i :: k <= i < |s.hashes| ==> h < s.hashes[i])
    ensures var p := s.hashes[if k == |s.hashes| then 0 else k];
            Route(s, h) == if p in s.ring then Owner(s.ring[p]) else KeyError
  {
    FirstAboveAt(s.hashes, h, k);
  }

  /* ----- which nodes a ring stands for ----- */

  predicate IsPoint(hash: Hash, v: nat, node: Node, h: nat) {
    exists i :: 0 <= i < v && Point(hash, node, i) == h
  }

  /** No two points of the nodes share a hash. */
  ghost predicate NoCollision(hash: Hash, v: nat, nodes: set<Node>) {
    forall n, m, i: nat, j: nat ::
      n in nodes && m in nodes && i < v && j < v && Point(hash, n, i) == Point(hash, m, j) ==>
      n == m && i == j
  }

  /** A hash that is injective on labels has no collisions, whatever the nodes. */
  lemma InjectiveHasNoCollision(hash: Hash, v: nat, nodes: set<Node>)
    requires forall n, i: nat, m, j: nat :: hash(Label(n, i)) == hash(Label(m, j)) ==> Label(n, i) == Label(m, j)
    ensures NoCollision(hash, v, nodes)
  {
    forall n, m, i: nat, j: nat | Point(hash, n, i) == Point(hash, m, j) ensures n == m && i == j {
      LabelInjective(n, i, m, j);
    }
  }

  /** The ring holds exactly the points of the nodes, and the list is its keys in strict order. */
  ghost predicate Represents(hash: Hash, v: nat, s: State, nodes: set<Node>) {
    && Strict(s.hashes)
    && (forall h :: h in s.hashes <==> h in s.ring)
    && (forall h :: h in s.ring ==> s.ring[h] in nodes && IsPoint(hash, v, s.ring[h], h))
    && (forall n, h :: n in nodes && IsPoint(hash, v, n, h) ==> h in s.ring && s.ring[h] == n)
  }

  /** The state depends only on the set of nodes: neither the history nor the order of edits matters. */
  lemma Canonical(hash: Hash, v: nat, s: State, t: State, nodes: set<Node>)
    requires Represents(hash, v, s, nodes) && Represents(hash, v, t, nodes)
    ensures s == t
  {
    assert s.ring == t.ring;
    StrictUnique(s.hashes, t.hashes);
  }

  /** A ring part way through adding the points of a node. */
  ghost predicate Partial(hash: Hash, v: nat, s: State, nodes: set<Node>, node: Node, k: nat) {
    && Strict(s.hashes)
    && (forall h :: h in s.hashes <==> h in s.ring)
    && (forall h :: h in s.ring ==>
          (s.ring[h] in nodes && IsPoint(hash, v, s.ring[h], h)) || (s.ring[h] == node && IsPoint(hash, k, node, h)))
    && (forall n, h :: n in nodes && IsPoint(hash, v, n, h) ==> h in s.ring && s.ring[h] == n)
    && (forall h :: IsPoint(hash, k, node, h) ==> h in s.ring && s.ring[h] == node)
  }

  /** Without collisions a point belongs to one node only. */
  lemma OnePointOneNode(hash: Hash, v: nat, nodes: set<Node>, n: Node, m: Node, h: nat)
    requires NoCollision(hash, v, nodes) && n in nodes && m in nodes
    requires IsPoint(hash, v, n, h) && IsPoint(hash, v, m, h)
    ensures n == m
  {
    var i: nat :| i < v && Point(hash, n, i) == h;
    var j: nat :| j < v && Point(hash, m, j) == h;
  }

  lemma FreshPoint(hash: Hash, v: nat, s: State, nodes: set<Node>, node: Node, k: nat)
    requires Partial(hash, v, s, nodes, node, k) && k < v && node !in nodes && NoCollision(hash, v, nodes + {node})
    ensures Point(hash, node, k) !in s.ring
  {
    forall h | h in s.ring ensures h != Point(hash, node, k) {
      var n := s.ring[h];
      var bound := if n in nodes then v else k;
      var i: nat :| i < bound && Point(hash, n, i) == h;
      assert n in nodes + {node} && node in nodes + {node};
    }
  }

  lemma PointsGrow(hash: Hash, node: Node, k: nat, h: nat)
    ensures IsPoint(hash, k + 1, node, h) <==> IsPoint(hash, k, node, h) || h == Point(hash, node, k)
  {
    if h == Point(hash, node, k) {
      assert 0 <= k < k + 1;
    }
    if IsPoint(hash, k, node, h) {
      var i :| 0 <= i < k && Point(hash, node, i) == h;
      assert 0 <= i < k + 1;
    }
  }

  lemma AddOnePoint(hash: Hash, v: nat, s: State, nodes: set<Node>, node: Node, k: nat)
    requires Partial(hash, v, s, nodes, node, k) && k < v && node !in nodes && NoCollision(hash, v, nodes + {node})
    ensures var h := Point(hash, node, k);
            Partial(hash, v, State(s.ring[h := node], Insert(s.hashes, h)), nodes, node, k + 1)
  {
    var h := Point(hash, node, k);
    FreshPoint(hash, v, s, nodes, node, k);
    InsertMembers(s.hashes, h);
    InsertStrict(s.hashes, h);
    forall x ensures IsPoint(hash, k + 1, node, x) <==> IsPoint(hash, k, node, x) || x == h {
      PointsGrow(hash, node, k, x);
    }
  }

  lemma {:induction false} AddPartial(hash: Hash, v: nat, s: State, nodes: set<Node>, node: Node, k: nat)
    requires Represents(hash, v, s, nodes) && k <= v && node !in nodes && NoCollision(hash, v, nodes + {node})
    ensures Partial(hash, v, AddPoints(hash, s, node, k), nodes, node, k)
  {
    if k > 0 {
      AddPartial(hash, v, s, nodes, node, k - 1);
      AddOnePoint(hash, v, AddPoints(hash, s, node, k - 1), nodes, node, k - 1);
    }
  }

  /** Without collisions, adding a node to the ring of a set gives the ring of the larger set. */
  lemma AddRepresents(hash: Hash, v: nat, s: State, nodes: set<Node>, node: Node)
    requires Represents(hash, v, s, nodes) && NoCollision(hash, v, nodes + {node})
    ensures Represents(hash, v, Add(hash, v, s, node), nodes + {node})
  {
    if node in nodes {
      assert nodes + {node} == nodes;
      if v > 0 {
        MemberOwnsPoint(hash, v, s, nodes, node);
      }
    } else {
      AddPartial(hash, v, s, nodes, node, v);
    }
  }

  lemma MemberOwnsPoint(hash: Hash, v: nat, s: State, nodes: set<Node>, node: Node)
    requires Represents(hash, v, s, nodes) && node in nodes && v > 0
    ensures node in Nodes(s)
  {
    var h := Point(hash, node, 0);
    assert IsPoint(hash, v, node, h);
  }

  /** A ring part way through removing the points of a node. */
  ghost predicate Leaving(hash: Hash, v: nat, s: State, nodes: set<Node>, node: Node, k: nat) {
    && Strict(s.hashes)
    && (forall h :: h in s.hashes <==> h in s.ring)
    && (forall h :: h in s.ring ==> s.ring[h] in nodes && IsPoint(hash, v, s.ring[h], h) && !IsPoint(hash, k, node, h))
    && (forall n, h :: n in nodes && IsPoint(hash, v, n, h) && !IsPoint(hash, k, node, h) ==>
          h in s.ring && s.ring[h] == n)
  }

  lemma RemoveOnePoint(hash: Hash, v: nat, s: State, nodes: set<Node>, node: Node, k: nat)
    requires Leaving(hash, v, s, nodes, node, k)
    ensures var h := Point(hash, node, k);
            Leaving(hash, v, State(s.ring - {h}, Delete(s.hashes, h)), nodes, node, k + 1)
  {
    var h := Point(hash, node, k);
    DeleteMembers(s.hashes, h);
    DeleteStrict(s.hashes, h);
    forall x ensures IsPoint(hash, k + 1, node, x) <==> IsPoint(hash, k, node, x) || x == h {
      PointsGrow(hash, node, k, x);
    }
  }

  lemma {:induction false} RemoveLeaving(hash: Hash, v: nat, s: State, nodes: set<Node>, node: Node, k: nat)
    requires Represents(hash, v, s, nodes) && k <= v
    ensures Leaving(hash, v, RemovePoints(hash, s, node, k), nodes, node, k)
  {
    if k > 0 {
      RemoveLeaving(hash, v, s, nodes, node, k - 1);
      RemoveOnePoint(hash, v, RemovePoints(hash, s, node, k - 1), nodes, node, k - 1);
    }
  }

  /** Without collisions, removing a node gives the ring of the smaller set; absent nodes change nothing. */
  lemma RemoveRepresents(hash: Hash, v: nat, s: State, nodes: set<Node>, node: Node)
    requires Represents(hash, v, s, nodes) && NoCollision(hash, v, nodes + {node})
    ensures Represents(hash, v, Remove(hash, v, s, node), nodes - {node})
  {
    RemoveLeaving(hash, v, s, nodes, node, v);
    forall n, h | n in nodes && IsPoint(hash, v, n, h) && IsPoint(hash, v, node, h) ensures n == node {
      OnePointOneNode(hash, v, nodes + {node}, n, node, h);
    }
  }

  /* ----- any sequence of edits ----- */

  datatype Edit = AddNode(node: Node) | RemoveNode(node: Node)

  function Apply(hash: Hash, v: nat, s: State, e: Edit): State {
    match e
    case AddNode(n) => Add(hash, v, s, n)
    case RemoveNode(n) => Remove(hash, v, s, n)
  }

  function After(hash: Hash, v: nat, edits: seq<Edit>): State {
    if edits == [] then EMPTY_RING else Apply(hash, v, After(hash, v, edits[..|edits| - 1]), edits[|edits| - 1])
  }

  /** The nodes present after some edits. */
  function Members(edits: seq<Edit>): set<Node> {
    if edits == [] then {}
    else
      var before, last := Members(edits[..|edits| - 1]), edits[|edits| - 1];
      match last
      case AddNode(n) => before + {n}
      case RemoveNode(n) => before - {n}
  }

  function Mentioned(edits: seq<Edit>): set<Node> {
    set e | e in edits :: e.node
  }

  lemma {:induction false} MembersMentioned(edits: seq<Edit>)
    ensures Members(edits) <= Mentioned(edits)
  {
    if edits != [] {
      MembersMentioned(edits[..|edits| - 1]);
      assert edits[|edits| - 1] in edits;
    }
  }

  /** After any sequence of adds and removes, repeated or not, the ring stands for the present nodes. */
  lemma {:induction false} AfterRepresents(hash: Hash, v: nat, edits: seq<Edit>)
    requires NoCollision(hash, v, Mentioned(edits))
    ensures Represents(hash, v, After(hash, v, edits), Members(edits))
  {
    if edits != [] {
      var before, last := edits[..|edits| - 1], edits[|edits| - 1];
      assert forall e :: e in before ==> e in edits;
      AfterRepresents(hash, v, before);
      MembersMentioned(before);
      assert last in edits && last.node in Mentioned(edits);
      assert Members(before) + {last.node} <= Mentioned(edits);
      match last {
        case AddNode(n) => AddRepresents(hash, v, After(hash, v, before), Members(before), n);
        case RemoveNode(n) => RemoveRepresents(hash, v, After(hash, v, before), Members(before), n);
      }
    }
  }

  /** Two histories that leave the same nodes leave the same ring. */
  lemma HistoryDoesNotMatter(hash: Hash, v: nat, a: seq<Edit>, b: seq<Edit>)
    requires NoCollision(hash, v, Mentioned(a)) && NoCollision(hash, v, Mentioned(b)) && Members(a) == Members(b)
    ensures After(hash, v, a) == After(hash, v, b)
  {
    AfterRepresents(hash, v, a);
    AfterRepresents(hash, v, b);
    Canonical(hash, v, After(hash, v, a), After(hash, v, b), Members(a));
  }

  /* ----- routing ----- */

  /** The next point clockwise: the least one above `h`, or the least of all when none is above. */
  ghost predicate Successor(points: set<nat>, h: nat, p: nat) {
    && p in points
    && (if exists q :: q in points && h < q then h < p && forall q :: q in points && h < q ==> p <= q
        else forall q :: q in points ==> p <= q)
  }

  ghost predicate Owns(s: State, h: nat, n: Node) {
    exists p :: Successor(s.ring.Keys, h, p) && s.ring[p] == n
  }

  lemma {:induction false} FirstAboveLeast(s: seq<nat>, h: nat)
    requires Strict(s)
    ensures var r := FirstAbove(s, h);
            if r.Some? then r.value in s && h < r.value && (forall q :: q in s && h < q ==> r.value <= q)
            else forall q :: q in s ==> q <= h
  {
    if s != [] {
      FirstAboveLeast(s[1..], h);
      assert forall q :: q in s[1..] ==> s[0] < q;
      assert forall q :: q in s <==> q == s[0] || q in s[1..];
    }
  }

  /** Bisection with wrap-around finds the owner of the next point clockwise. */
  lemma RouteFindsSuccessor(hash: Hash, v: nat, s: State, nodes: set<Node>, h: nat, n: Node)
    requires Represents(hash, v, s, nodes)
    ensures Route(s, h) == Owner(n) <==> Owns(s, h, n)
    ensures Route(s, h) != KeyError
    ensures Route(s, h) == NoNodes <==> s.ring == map[]
  {
    var keys := s.ring.Keys;
    assert forall q :: q in keys <==> q in s.hashes;
    if s.hashes == [] {
      assert s.ring == map[];
    } else {
      FirstAboveLeast(s.hashes, h);
      var above := FirstAbove(s.hashes, h);
      var p := if above.Some? then above.value else s.hashes[0];
      assert s.hashes[0] in s.hashes;
      assert Successor(keys, h, p);
      assert s.ring != map[];
      forall q | Successor(keys, h, q) ensures q == p {
        SuccessorUnique(keys, h, p, q);
      }
    }
  }

  lemma SuccessorUnique(points: set<nat>, h: nat, p: nat, q: nat)
    requires Successor(points, h, p) && Successor(points, h, q)
    ensures p == q
  {
  }

  lemma SuccessorInSubset(points: set<nat>, fewer: set<nat>, h: nat, p: nat)
    requires Successor(points, h, p) && fewer <= points && p in fewer
    ensures Successor(fewer, h, p)
  {
    if exists q :: q in points && h < q {
      assert p in fewer && h < p;
    }
  }

  lemma RemoveKeepsOwner(hash: Hash, v: nat, s: State, nodes: set<Node>, node: Node, h: nat, owner: Node)
    requires Represents(hash, v, s, nodes) && NoCollision(hash, v, nodes + {node})
    requires Owns(s, h, owner) && owner != node
    ensures Owns(Remove(hash, v, s, node), h, owner)
  {
    var t := Remove(hash, v, s, node);
    RemoveRepresents(hash, v, s, nodes, node);
    var p :| Successor(s.ring.Keys, h, p) && s.ring[p] == owner;
    assert IsPoint(hash, v, owner, p) && owner in nodes - {node};
    assert t.ring.Keys <= s.ring.Keys by {
      forall x | x in t.ring ensures x in s.ring {
        assert t.ring[x] in nodes && IsPoint(hash, v, t.ring[x], x);
      }
    }
    SuccessorInSubset(s.ring.Keys, t.ring.Keys, h, p);
  }

  lemma AddKeepsOwner(hash: Hash, v: nat, s: State, nodes: set<Node>, node: Node, h: nat, owner: Node)
    requires Represents(hash, v, s, nodes) && NoCollision(hash, v, nodes + {node})
    requires Owns(Add(hash, v, s, node), h, owner) && owner != node
    ensures Owns(s, h, owner)
  {
    var t := Add(hash, v, s, node);
    AddRepresents(hash, v, s, nodes, node);
    var p :| Successor(t.ring.Keys, h, p) && t.ring[p] == owner;
    assert owner in nodes && IsPoint(hash, v, owner, p);
    assert s.ring.Keys <= t.ring.Keys by {
      forall x | x in s.ring ensures x in t.ring {
        assert s.ring[x] in nodes + {node} && IsPoint(hash, v, s.ring[x], x);
      }
    }
    SuccessorInSubset(t.ring.Keys, s.ring.Keys, h, p);
  }

  /** Removing a node changes the owner only of the keys it owned. */
  lemma RemoveMovesOnlyItsKeys(hash: Hash, v: nat, s: State, nodes: set<Node>, node: Node, h: nat, owner: Node)
    requires Represents(hash, v, s, nodes) && NoCollision(hash, v, nodes + {node})
    requires Route(s, h) == Owner(owner) && owner != node
    ensures Route(Remove(hash, v, s, node), h) == Owner(owner)
  {
    RouteFindsSuccessor(hash, v, s, nodes, h, owner);
    RemoveKeepsOwner(hash, v, s, nodes, node, h, owner);
    RemoveRepresents(hash, v, s, nodes, node);
    RouteFindsSuccessor(hash, v, Remove(hash, v, s, node), nodes - {node}, h, owner);
  }

  /** Adding a node changes owners only to the new node. */
  lemma AddMovesOnlyToNewNode(hash: Hash, v: nat, s: State, nodes: set<Node>, node: Node, h: nat, owner: Node)
    requires Represents(hash, v, s, nodes) && NoCollision(hash, v, nodes + {node})
    requires Route(Add(hash, v, s, node), h) == Owner(owner)
    ensures owner == node || Route(s, h) == Owner(owner)
  {
    if owner != node {
      AddRepresents(hash, v, s, nodes, node);
      RouteFindsSuccessor(hash, v, Add(hash, v, s, node), nodes + {node}, h, owner);
      AddKeepsOwner(hash, v, s, nodes, node, h, owner);
      RouteFindsSuccessor(hash, v, s, nodes, h, owner);
    }
  }

  /** Adding a node that is absent and removing it again restores the ring exactly. */
  lemma AddThenRemoveCancels(hash: Hash, v: nat, s: State, nodes: set<Node>, node: Node)
    requires Represents(hash, v, s, nodes) && NoCollision(hash, v, nodes + {node}) && node !in nodes
    ensures Remove(hash, v, Add(hash, v, s, node), node) == s
  {
    AddRepresents(hash, v, s, nodes, node);
    assert nodes + {node} + {node} == nodes + {node};
    RemoveRepresents(hash, v, Add(hash, v, s, node), nodes + {node}, node);
    assert nodes + {node} - {node} == nodes;
    Canonical(hash, v, Remove(hash, v, Add(hash, v, s, node), node), s, nodes);
  }

  /* ----- collisions ----- */

  /** The list is the strictly sorted list of the map's keys. */
  ghost predicate Agreement(s: State) {
    Strict(s.hashes) && forall h :: h in s.hashes <==> h in s.ring
  }

  /** The points of a node with their multiplicity. */
  ghost function Bag(hash: Hash, node: Node, n: nat): multiset<nat> {
    if n == 0 then multiset{} else Bag(hash, node, n - 1) + multiset{Point(hash, node, n - 1)}
  }

  ghost function Bags(hash: Hash, v: nat, nodes: seq<Node>): multiset<nat> {
    if nodes == [] then multiset{} else Bags(hash, v, nodes[..|nodes| - 1]) + Bag(hash, nodes[|nodes| - 1], v)
  }

  ghost predicate DistinctNodes(nodes: seq<Node>) {
    forall i, j :: 0 <= i < j < |nodes| ==> nodes[i] != nodes[j]
  }

  function AddAll(nodes: seq<Node>): seq<Edit> {
    seq(|nodes|, i requires 0 <= i < |nodes| => AddNode(nodes[i]))
  }

  lemma InsertInto(t: seq<nat>, s: seq<nat>, added: multiset<nat>, h: nat)
    requires multiset(t) == multiset(s) + added
    ensures multiset(Insert(t, h)) == multiset(s) + (added + multiset{h})
  {
    InsertBag(t, h);
  }

  lemma {:induction false} AddPointsBag(hash: Hash, s: State, node: Node, n: nat)
    ensures multiset(AddPoints(hash, s, node, n).hashes) == multiset(s.hashes) + Bag(hash, node, n)
  {
    if n > 0 {
      AddPointsBag(hash, s, node, n - 1);
      InsertInto(AddPoints(hash, s, node, n - 1).hashes, s.hashes, Bag(hash, node, n - 1), Point(hash, node, n - 1));
    }
  }

  lemma {:induction false} AddPointsNodes(hash: Hash, s: State, node: Node, n: nat, h: nat)
    requires h in AddPoints(hash, s, node, n).ring
    ensures var m := AddPoints(hash, s, node, n).ring[h]; m == node || (h in s.ring && m == s.ring[h])
  {
    if n > 0 && h != Point(hash, node, n - 1) {
      AddPointsNodes(hash, s, node, n - 1, h);
    }
  }

  /** A ring built from some nodes holds no other node. */
  lemma {:induction false} BuiltNodes(hash: Hash, v: nat, nodes: seq<Node>, h: nat)
    requires h in After(hash, v, AddAll(nodes)).ring
    ensures After(hash, v, AddAll(nodes)).ring[h] in nodes
  {
    if nodes != [] {
      var before, last := nodes[..|nodes| - 1], nodes[|nodes| - 1];
      assert AddAll(nodes)[..|nodes| - 1] == AddAll(before);
      var s := After(hash, v, AddAll(before));
      if last !in Nodes(s) {
        AddPointsNodes(hash, s, last, v, h);
      }
      if h in s.ring {
        BuiltNodes(hash, v, before, h);
      }
    }
  }

  lemma NotYetBuilt(hash: Hash, v: nat, nodes: seq<Node>, node: Node)
    requires node !in nodes
    ensures node !in Nodes(After(hash, v, AddAll(nodes)))
  {
    var s := After(hash, v, AddAll(nodes));
    forall h | h in s.ring ensures s.ring[h] != node {
      BuiltNodes(hash, v, nodes, h);
    }
  }

  /** A ring built from distinct nodes lists every point of every node, collisions or not. */
  lemma {:induction false} BuiltBag(hash: Hash, v: nat, nodes: seq<Node>)
    requires DistinctNodes(nodes)
    ensures multiset(After(hash, v, AddAll(nodes)).hashes) == Bags(hash, v, nodes)
  {
    if nodes != [] {
      var before, last := nodes[..|nodes| - 1], nodes[|nodes| - 1];
      BuiltBag(hash, v, before);
      NotYetBuilt(hash, v, before, last);
      AddPointsBag(hash, After(hash, v, AddAll(before)), last, v);
      assert AddAll(nodes)[..|nodes| - 1] == AddAll(before);
    }
  }

  lemma {:induction false} InBag(hash: Hash, node: Node, n: nat, i: nat)
    requires i < n
    ensures Point(hash, node, i) in Bag(hash, node, n)
  {
    if i < n - 1 {
      InBag(hash, node, n - 1, i);
    }
  }

  lemma {:induction false} TwiceInBag(hash: Hash, node: Node, n: nat, i: nat, j: nat)
    requires i < j < n && Point(hash, node, i) == Point(hash, node, j)
    ensures Bag(hash, node, n)[Point(hash, node, i)] >= 2
  {
    if j < n - 1 {
      TwiceInBag(hash, node, n - 1, i, j);
    } else {
      InBag(hash, node, n - 1, i);
    }
  }

  lemma {:induction false} BagInBags(hash: Hash, v: nat, nodes: seq<Node>, a: nat, h: nat)
    requires a < |nodes|
    ensures Bags(hash, v, nodes)[h] >= Bag(hash, nodes[a], v)[h]
  {
    if a < |nodes| - 1 {
      BagInBags(hash, v, nodes[..|nodes| - 1], a, h);
    }
  }

  lemma {:induction false} TwoBagsInBags(hash: Hash, v: nat, nodes: seq<Node>, a: nat, b: nat, h: nat)
    requires a < b < |nodes|
    ensures Bags(hash, v, nodes)[h] >= Bag(hash, nodes[a], v)[h] + Bag(hash, nodes[b], v)[h]
  {
    if b < |nodes| - 1 {
      TwoBagsInBags(hash, v, nodes[..|nodes| - 1], a, b, h);
    } else {
      BagInBags(hash, v, nodes[..|nodes| - 1], a, h);
    }
  }

  lemma {:induction false} StrictOnce(s: seq<nat>, h: nat)
    requires Strict(s)
    ensures multiset(s)[h] <= 1
  {
    if s != [] {
      StrictOnce(s[1..], h);
      assert s == [s[0]] + s[1..];
      assert s[0] !in s[1..];
    }
  }

  lemma CollisionShows(hash: Hash, v: nat, nodes: seq<Node>, a: nat, b: nat, i: nat, j: nat)
    requires a < |nodes| && b < |nodes| && i < v && j < v && (a != b || i != j)
    requires Point(hash, nodes[a], i) == Point(hash, nodes[b], j)
    ensures Bags(hash, v, nodes)[Point(hash, nodes[a], i)] >= 2
  {
    var h := Point(hash, nodes[a], i);
    InBag(hash, nodes[a], v, i);
    InBag(hash, nodes[b], v, j);
    if a < b {
      TwoBagsInBags(hash, v, nodes, a, b, h);
    } else if b < a {
      TwoBagsInBags(hash, v, nodes, b, a, h);
    } else {
      TwiceInBag(hash, nodes[a], v, if i < j then i else j, if i < j then j else i);
      BagInBags(hash, v, nodes, a, h);
    }
  }

  /** A ring built from distinct nodes keeps its list and its map in agreement iff no two points collide. */
  lemma AgreementIffNoCollision(hash: Hash, v: nat, nodes: seq<Node>)
    requires DistinctNodes(nodes)
    ensures Agreement(After(hash, v, AddAll(nodes))) <==> NoCollision(hash, v, set n | n in nodes)
  {
    var all := set n | n in nodes;
    var s := After(hash, v, AddAll(nodes));
    if NoCollision(hash, v, all) {
      AddAllMentions(nodes);
      AfterRepresents(hash, v, AddAll(nodes));
    } else {
      var n, m, i: nat, j: nat :| n in all && m in all && i < v && j < v && Point(hash, n, i) == Point(hash, m, j) &&
        !(n == m && i == j);
      var a: nat :| a < |nodes| && nodes[a] == n;
      var b: nat :| b < |nodes| && nodes[b] == m;
      BuiltBag(hash, v, nodes);
      CollisionShows(hash, v, nodes, a, b, i, j);
      if Strict(s.hashes) {
        StrictOnce(s.hashes, Point(hash, n, i));
      }
    }
  }

  lemma AddAllMentions(nodes: seq<Node>)
    ensures Mentioned(AddAll(nodes)) == set n | n in nodes
  {
    var edits := AddAll(nodes);
    forall n | n in nodes ensures n in Mentioned(edits) {
      var i :| 0 <= i < |nodes| && nodes[i] == n;
      assert edits[i] in edits && edits[i].node == n;
    }
  }

  /** With a collision, removing one node can leave a point that no node owns: a lookup then fails. */
  lemma CollisionBreaksLookup(h: nat)
    ensures var hash: Hash := _ => 0;
            Route(After(hash, 1, [AddNode("a"), AddNode("b"), RemoveNode("a")]), h) == KeyError
  {
    var hash: Hash := _ => 0;
    var e1, e2, e3 := [AddNode("a")], [AddNode("a"), AddNode("b")], [AddNode("a"), AddNode("b"), RemoveNode("a")];
    assert e1[..0] == [] && e2[..1] == e1 && e3[..2] == e2;
    assert After(hash, 1, e1) == State(map[0 := "a"], [0]);
    assert "a"[0] != "b"[0];
    var one := State(map[0 := "a"], [0]);
    assert Nodes(one) == {"a"} by { assert 0 in one.ring && one.ring[0] == "a"; }
    assert After(hash, 1, e2) == State(map[0 := "b"], [0, 0]);
    assert After(hash, 1, e3) == State(map[], [0]);
  }
}
