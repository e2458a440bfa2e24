/** The consistent hash ring of internal/router/consistent_hash.go.

    The two uses of the checksum are arbitrary functions: `point(address, i)` for the i-th virtual
    node of an address, `position(key)` for a key. Nothing is assumed of them, so distinct virtual
    nodes may collide; the last one written then owns the point. */
module ConsistentHashing {
  import opened Wrappers
  import opened Routes

  type Hash = nat

  datatype Hashing = Hashing(point: (string, nat) -> Hash, position: string -> Hash)

  // ---------------------------------------------------------------- the ring of a list, as a value

  function Addresses(backends: seq<Backend>): (addresses: seq<string>)
    ensures |addresses| == |backends|
    ensures forall i | 0 <= i < |backends| :: addresses[i] == backends[i].address
  {
    seq(|backends|, i requires 0 <= i < |backends| => backends[i].address)
  }

  /** `a` has a virtual node at `h`. */
  ghost predicate Covers(hashing: Hashing, virtualNodes: int, a: string, h: Hash) {
    exists i :: 0 <= i < virtualNodes && hashing.point(a, i) == h
  }

  /** Some address in the list has a virtual node at `h`. */
  ghost predicate IsPoint(hashing: Hashing, virtualNodes: int, addresses: seq<string>, h: Hash) {
    exists a | a in addresses :: Covers(hashing, virtualNodes, a, h)
  }

  /** The owner of a point: the last address in the list with a virtual node there. */
  ghost function Owner(hashing: Hashing, virtualNodes: int, addresses: seq<string>, h: Hash): (a: string)
    requires IsPoint(hashing, virtualNodes, addresses, h)
    ensures a in addresses && Covers(hashing, virtualNodes, a, h)
  {
    var init, last := addresses[..|addresses| - 1], addresses[|addresses| - 1];
    if Covers(hashing, virtualNodes, last, h) then last
    else
      assert forall a | a in addresses :: a in init || a == last;
      Owner(hashing, virtualNodes, init, h)
  }

  /** `p` is the first point at or after `h`, or the first of all when none is. */
  ghost predicate IsNextPoint(hashing: Hashing, virtualNodes: int, addresses: seq<string>, h: Hash, p: Hash) {
    && IsPoint(hashing, virtualNodes, addresses, p)
    && (forall q: Hash | IsPoint(hashing, virtualNodes, addresses, q) :: if h <= p then !(h <= q < p) else q < h && p <= q)
  }

  /** `a` owns the key in a ring built from the list. */
  ghost predicate IsChoice(hashing: Hashing, virtualNodes: int, addresses: seq<string>, key: string, a: string) {
    exists p ::
      && IsNextPoint(hashing, virtualNodes, addresses, hashing.position(key), p)
      && a == Owner(hashing, virtualNodes, addresses, p)
  }

  lemma NextPointIsUnique(hashing: Hashing, virtualNodes: int, addresses: seq<string>, h: Hash, p: Hash, q: Hash)
    requires IsNextPoint(hashing, virtualNodes, addresses, h, p) && IsNextPoint(hashing, virtualNodes, addresses, h, q)
    ensures p == q
  {
  }

  lemma ChoiceIsUnique(hashing: Hashing, virtualNodes: int, addresses: seq<string>, key: string, a: string, b: string)
    requires IsChoice(hashing, virtualNodes, addresses, key, a) && IsChoice(hashing, virtualNodes, addresses, key, b)
    ensures a == b
  {
    var h := hashing.position(key);
    var p :| IsNextPoint(hashing, virtualNodes, addresses, h, p) && a == Owner(hashing, virtualNodes, addresses, p);
    var q :| IsNextPoint(hashing, virtualNodes, addresses, h, q) && b == Owner(hashing, virtualNodes, addresses, q);
    NextPointIsUnique(hashing, virtualNodes, addresses, h, p, q);
  }

  /** How far it is from `h` up to `p` on a circle of `m` places. */
  function Around(h: Hash, p: Hash, m: nat): int {
    if h <= p then p - h else m - h + p
  }

  /** The next point is the one that comes first when going up from `h` around the circle, however many places this has. */
  lemma NextPointIsNearest(hashing: Hashing, virtualNodes: int, addresses: seq<string>, h: Hash, p: Hash, m: nat)
    requires h < m && forall q: Hash | IsPoint(hashing, virtualNodes, addresses, q) :: q < m
    ensures IsNextPoint(hashing, virtualNodes, addresses, h, p)
       <==> && IsPoint(hashing, virtualNodes, addresses, p)
            && forall q: Hash | IsPoint(hashing, virtualNodes, addresses, q) :: Around(h, p, m) <= Around(h, q, m)
  {
    hide IsPoint;
  }

  /** The owner of a point is the last entry of the list that has a virtual node there. */
  lemma {:induction false} OwnerIsLast(hashing: Hashing, virtualNodes: int, addresses: seq<string>, h: Hash)
    returns (j: nat)
    requires IsPoint(hashing, virtualNodes, addresses, h)
    ensures j < |addresses| && Owner(hashing, virtualNodes, addresses, h) == addresses[j]
    ensures forall k | j < k < |addresses| ::
              forall i | 0 <= i < virtualNodes :: hashing.point(addresses[k], i) != h
  {
    var n := |addresses| - 1;
    j := n;
    if !Covers(hashing, virtualNodes, addresses[n], h) {
      assert forall a | a in addresses :: a in addresses[..n] || a == addresses[n];
      j := OwnerIsLast(hashing, virtualNodes, addresses[..n], h);
      forall k | j < k < |addresses|
        ensures !Covers(hashing, virtualNodes, addresses[k], h)
      {
        assert k < n ==> addresses[k] == addresses[..n][k];
      }
    }
  }

  // ---------------------------------------------------------------- minimal disruption

  function Removed(addresses: seq<string>, j: nat): seq<string>
    requires j < |addresses|
  {
    addresses[..j] + addresses[j + 1..]
  }

  /** A point that another address owns keeps its owner when one entry is removed. */
  lemma {:induction false} OwnerSurvives(hashing: Hashing, virtualNodes: int, addresses: seq<string>, j: nat, h: Hash)
    requires j < |addresses| && IsPoint(hashing, virtualNodes, addresses, h)
    requires Owner(hashing, virtualNodes, addresses, h) != addresses[j]
    ensures IsPoint(hashing, virtualNodes, Removed(addresses, j), h)
    ensures Owner(hashing, virtualNodes, Removed(addresses, j), h) == Owner(hashing, virtualNodes, addresses, h)
  {
    var n := |addresses| - 1;
    var init, last, rest := addresses[..n], addresses[n], Removed(addresses, j);
    OwnerOfMore(hashing, virtualNodes, init, last, h);
    assert addresses == init + [last];
    hide Owner;
    hide IsPoint;
    hide Covers;
    if j == n {
      assert rest == init;
    } else {
      assert rest == Removed(init, j) + [last];
      OwnerOfMore(hashing, virtualNodes, Removed(init, j), last, h);
      if !Covers(hashing, virtualNodes, last, h) {
        OwnerSurvives(hashing, virtualNodes, init, j, h);
      }
    }
  }

  lemma OwnerOfMore(hashing: Hashing, virtualNodes: int, init: seq<string>, last: string, h: Hash)
    ensures var all := init + [last];
            && (IsPoint(hashing, virtualNodes, all, h)
                <==> Covers(hashing, virtualNodes, last, h) || IsPoint(hashing, virtualNodes, init, h))
            && (Covers(hashing, virtualNodes, last, h) ==> Owner(hashing, virtualNodes, all, h) == last)
            && (!Covers(hashing, virtualNodes, last, h) && IsPoint(hashing, virtualNodes, init, h) ==>
                  Owner(hashing, virtualNodes, all, h) == Owner(hashing, virtualNodes, init, h))
  {
    var all := init + [last];
    assert all[..|all| - 1] == init;
    hide Covers;
    assert last in all && (forall a | a in init :: a in all) && forall a | a in all :: a in init || a == last;
  }

  /** Minimal disruption: removing one entry changes the choice only for keys that its address owned. */
  lemma RemovalMovesOnlyItsKeys(hashing: Hashing, virtualNodes: int, addresses: seq<string>, j: nat, key: string,
      a: string)
    requires j < |addresses| && IsChoice(hashing, virtualNodes, addresses, key, a) && a != addresses[j]
    ensures IsChoice(hashing, virtualNodes, Removed(addresses, j), key, a)
  {
    var h, rest := hashing.position(key), Removed(addresses, j);
    var p :| IsNextPoint(hashing, virtualNodes, addresses, h, p) && a == Owner(hashing, virtualNodes, addresses, p);
    OwnerSurvives(hashing, virtualNodes, addresses, j, p);
    forall q | IsPoint(hashing, virtualNodes, rest, q) ensures IsPoint(hashing, virtualNodes, addresses, q) {
      var b :| b in rest && Covers(hashing, virtualNodes, b, q);
      assert b in addresses;
    }
    assert IsNextPoint(hashing, virtualNodes, rest, h, p);
  }

  /** Inserting an entry anywhere keeps a key's choice or moves the key to the new address. */
  lemma InsertionMovesOnlyToIt(hashing: Hashing, virtualNodes: int, addresses: seq<string>, j: nat, key: string,
      before: string, after: string)
    requires j < |addresses|
    requires IsChoice(hashing, virtualNodes, Removed(addresses, j), key, before)
    requires IsChoice(hashing, virtualNodes, addresses, key, after)
    ensures after == before || after == addresses[j]
  {
    if after != addresses[j] {
      RemovalMovesOnlyItsKeys(hashing, virtualNodes, addresses, j, key, after);
      ChoiceIsUnique(hashing, virtualNodes, Removed(addresses, j), key, before, after);
    }
  }

  // ---------------------------------------------------------------- signatures

  /** The addresses, each followed by a comma. */
  function Signature(addresses: seq<string>): string {
    if addresses == [] then "" else addresses[0] + "," + Signature(addresses[1..])
  }

  predicate CommaFree(addresses: seq<string>) {
    forall a | a in addresses :: ',' !in a
  }

  lemma FirstComma(a: string, b: string, s: string, t: string)
    requires ',' !in a && ',' !in b && a + "," + s == b + "," + t
    ensures a == b && s == t
  {
    var l, r := a + "," + s, b + "," + t;
    if |a| <= |b| {
      FirstCommaIsHere(a, b, s, t);
    } else {
      FirstCommaIsHere(b, a, t, s);
    }
    assert l[..|a|] == a && r[..|b|] == b;
    assert l[|a| + 1..] == s && r[|b| + 1..] == t;
  }

  lemma FirstCommaIsHere(a: string, b: string, s: string, t: string)
    requires ',' !in b && a + "," + s == b + "," + t && |a| <= |b|
    ensures |a| == |b|
  {
    var r := b + "," + t;
    assert r[|a|] == (a + "," + s)[|a|] == ',';
  }

  /** Lists without commas in their addresses have the same signature only if they are the same. */
  lemma {:induction false} SignatureIsInjective(a: seq<string>, b: seq<string>)
    requires CommaFree(a) && CommaFree(b) && Signature(a) == Signature(b)
    ensures a == b
  {
    if a != [] && b != [] {
      assert a[0] in a && b[0] in b;
      FirstComma(a[0], b[0], Signature(a[1..]), Signature(b[1..]));
      assert forall x | x in a[1..] :: x in a;
      assert forall x | x in b[1..] :: x in b;
      SignatureIsInjective(a[1..], b[1..]);
      assert a == [a[0]] + a[1..] && b == [b[0]] + b[1..];
    }
  }

  /** With commas, different lists can share a signature; the ring of the one is then kept for the other, and whatever
      the hash, it chooses an address that is not in the list. */
  lemma CommasConfuseSignatures(hashing: Hashing, virtualNodes: int, key: string)
    ensures var cached, given := ["a,b", "c"], ["a", "b,c"];
            && Signature(given) == Signature(cached)
            && forall a | IsChoice(hashing, virtualNodes, cached, key, a) :: a in cached && a !in given
  {
    assert ["a,b", "c"][1..] == ["c"] && ["a", "b,c"][1..] == ["b,c"];
    assert ["c"][1..] == [] && ["b,c"][1..] == [];
    assert |"a,b"| == 3 && |"c"| == 1 && |"a"| == 1 && |"b,c"| == 3;
    assert "a,b"[0] != "b,c"[0] && "c"[0] != "a"[0];
  }

  // ---------------------------------------------------------------- the selector

  /** Without virtual nodes the ring is empty, and reading from it is out of range. */
  datatype Result = NoBackends | Chosen(backend: Backend) | OutOfRange

  ghost predicate Sorted(s: seq<Hash>) {
    forall i, j | 0 <= i < j < |s| :: s[i] <= s[j]
  }

  method InsertHash(sorted: seq<Hash>, h: Hash) returns (r: seq<Hash>)
    requires Sorted(sorted)
    ensures Sorted(r) && multiset(r) == multiset(sorted) + multiset{h}
  {
    var at := 0;
    while at < |sorted| && sorted[at] <= h
      invariant at <= |sorted|
      invariant forall i | 0 <= i < at :: sorted[i] <= h
    {
      at := at + 1;
    }
    StaysSorted(sorted, at, h);
    hide Sorted;
    assert sorted == sorted[..at] + sorted[at..];
    r := sorted[..at] + [h] + sorted[at..];
  }

  lemma StaysSorted(sorted: seq<Hash>, at: nat, h: Hash)
    requires Sorted(sorted) && at <= |sorted|
    requires (forall i | 0 <= i < at :: sorted[i] <= h) && (at < |sorted| ==> h < sorted[at])
    ensures Sorted(sorted[..at] + [h] + sorted[at..])
  {
    var r := sorted[..at] + [h] + sorted[at..];
    assert forall i | 0 <= i < |r| :: r[i] == if i < at then sorted[i] else if i == at then h else sorted[i - 1];
    assert forall i | at <= i < |sorted| :: h < sorted[i];
  }

  method SortRing(ring: seq<Hash>) returns (sorted: seq<Hash>)
    ensures Sorted(sorted) && multiset(sorted) == multiset(ring)
  {
    sorted := [];
    for n := 0 to |ring|
      invariant Sorted(sorted) && multiset(sorted) == multiset(ring[..n])
    {
      assert ring[..n + 1] == ring[..n] + [ring[n]];
      sorted := InsertHash(sorted, ring[n]);
    }
    assert ring[..|ring|] == ring;
  }

  /** The first place in a sorted ring at or after `h`, as sort.Search finds it. */
  method Search(ring: seq<Hash>, h: Hash) returns (idx: nat)
    requires Sorted(ring)
    ensures idx <= |ring|
    ensures forall i | 0 <= i < idx :: ring[i] < h
    ensures forall i | idx <= i < |ring| :: h <= ring[i]
  {
    var lo, hi := 0, |ring|;
    while lo < hi
      invariant lo <= hi <= |ring|
      invariant forall i | 0 <= i < lo :: ring[i] < h
      invariant forall i | hi <= i < |ring| :: h <= ring[i]
    {
      var mid := (lo + hi) / 2;
      if ring[mid] < h {
        lo := mid + 1;
      } else {
        hi := mid;
      }
    }
    idx := lo;
  }

  class ConsistentHash {
    const hashing: Hashing
    const virtualNodes: int
    var ring: seq<Hash>
    var nodeMap: map<Hash, Backend>
    var lastBackends: string
    ghost var cached: seq<string>   // the addresses the ring was last built from

    /** The ring and the map are those of the cached list. */
    ghost predicate Built()
      reads this
    {
      && Sorted(ring)
      && (forall h: Hash :: h in ring <==> IsPoint(hashing, virtualNodes, cached, h))
      && (forall h: Hash :: h in nodeMap <==> IsPoint(hashing, virtualNodes, cached, h))
      && (forall h | h in nodeMap :: nodeMap[h].address == Owner(hashing, virtualNodes, cached, h))
    }

    ghost predicate Valid()
      reads this
    {
      Built() && lastBackends == Signature(cached)
    }

    constructor (hashing: Hashing, virtualNodes: int)
      ensures Valid() && cached == [] && this.hashing == hashing && this.virtualNodes == virtualNodes
    {
      this.hashing, this.virtualNodes := hashing, virtualNodes;
      ring, nodeMap, lastBackends, cached := [], map[], "", [];
    }

    method BackendsSignature(backends: seq<Backend>) returns (sig: string)
      ensures sig == Signature(Addresses(backends))
    {
      sig := "";
      for i := 0 to |backends|
        invariant sig == Signature(Addresses(backends)[..i])
      {
        SignatureOfNext(Addresses(backends), i);
        sig := sig + backends[i].address + ",";
      }
      assert Addresses(backends)[..|backends|] == Addresses(backends);
    }

    /** Ring and map hold the points of the first `n` addresses and the first `i` of the next one's;
        the map knows who wrote each point last. */
    ghost predicate Filled(addresses: seq<string>, n: nat, i: nat)
      requires n < |addresses|
      reads this
    {
      var before, next := addresses[..n], addresses[n];
      && (forall h: Hash :: h in ring <==> IsPoint(hashing, virtualNodes, before, h) || Covers(hashing, i, next, h))
      && (forall h: Hash :: h in nodeMap <==> IsPoint(hashing, virtualNodes, before, h) || Covers(hashing, i, next, h))
      && (forall h | h in nodeMap ::
            nodeMap[h].address == if Covers(hashing, i, next, h) then next else Owner(hashing, virtualNodes, before, h))
    }

    /** Ring and map, still unsorted, hold the points of the first `n` addresses. */
    ghost predicate FilledUpTo(addresses: seq<string>, n: nat)
      requires n <= |addresses|
      reads this
    {
      && (forall h: Hash :: h in ring <==> IsPoint(hashing, virtualNodes, addresses[..n], h))
      && (forall h: Hash :: h in nodeMap <==> IsPoint(hashing, virtualNodes, addresses[..n], h))
      && (forall h | h in nodeMap :: nodeMap[h].address == Owner(hashing, virtualNodes, addresses[..n], h))
    }

    method AddVirtualNode(b: Backend, i: nat, ghost addresses: seq<string>, ghost n: nat)
      requires n < |addresses| && addresses[n] == b.address && Filled(addresses, n, i)
      modifies this`ring, this`nodeMap
      ensures Filled(addresses, n, i + 1)
    {
      hide IsPoint;
      hide Covers;
      hide Owner;
      var hash := hashing.point(b.address, i);
      CoversOneMore(hashing, i, b.address);
      ring := ring + [hash];
      nodeMap := nodeMap[hash := b];
    }

    /** Writes the virtual nodes of the n-th backend. */
    method AddVirtualNodes(b: Backend, ghost addresses: seq<string>, ghost n: nat)
      requires n < |addresses| && addresses[n] == b.address && FilledUpTo(addresses, n)
      modifies this`ring, this`nodeMap
      ensures FilledUpTo(addresses, n + 1)
    {
      hide IsPoint;
      hide Covers;
      hide Owner;
      CoversNone(hashing, b.address);
      assert Filled(addresses, n, 0);
      hide ConsistentHash.Filled;
      var i: nat := 0;
      while i < virtualNodes
        invariant (i <= virtualNodes || i == 0) && Filled(addresses, n, i)
      {
        AddVirtualNode(b, i, addresses, n);
        i := i + 1;
      }
      FilledToTheEnd(addresses, n, i);
    }

    lemma FilledToTheEnd(addresses: seq<string>, n: nat, i: nat)
      requires n < |addresses| && Filled(addresses, n, i) && virtualNodes <= i && (i <= virtualNodes || i == 0)
      ensures FilledUpTo(addresses, n + 1)
    {
      hide IsPoint;
      hide Owner;
      CoversNothing(hashing, virtualNodes, addresses[n]);
      PointsOfNext(hashing, virtualNodes, addresses, n);
      hide Covers;
    }

    method Rebuild(backends: seq<Backend>)
      modifies this`ring, this`nodeMap, this`lastBackends, this`cached
      ensures Valid() && cached == Addresses(backends)
    {
      hide IsPoint;
      hide Covers;
      hide Owner;
      ghost var addresses := Addresses(backends);
      PointsOfNone(hashing, virtualNodes);
      ring := [];
      nodeMap := map[];
      for n := 0 to |backends|
        invariant FilledUpTo(addresses, n)
      {
        AddVirtualNodes(backends[n], addresses, n);
      }
      assert addresses[..|backends|] == addresses;
      var sorted := SortRing(ring);
      SameMembers(ring, sorted);
      var sig := BackendsSignature(backends);
      ring, lastBackends, cached := sorted, sig, addresses;
    }

    method BackendsChanged(backends: seq<Backend>) returns (changed: bool)
      ensures changed <==> Signature(Addresses(backends)) != lastBackends
    {
      var sig := BackendsSignature(backends);
      return sig != lastBackends;
    }

    /** The owner of the first ring point at or after the key's position; `first` is never used. */
    method Locate(key: string, first: Backend) returns (node: Backend)
      requires Valid() && ring != []
      ensures IsChoice(hashing, virtualNodes, cached, key, node.address)
    {
      hide IsPoint;
      var hash := hashing.position(key);
      var idx := Search(ring, hash);
      if idx >= |ring| {
        idx := 0;
      }
      var p := ring[idx];
      assert p in ring && p in nodeMap;
      forall q: Hash | IsPoint(hashing, virtualNodes, cached, q)
        ensures if hash <= p then !(hash <= q < p) else q < hash && p <= q
      {
        assert q in ring;
        var j :| 0 <= j < |ring| && ring[j] == q;
      }
      assert IsNextPoint(hashing, virtualNodes, cached, hash, p);
      node := first;
      if p in nodeMap {
        node := nodeMap[p];
      }
    }

    /** The choice is that of a ring built from the current list, unless commas in addresses make its
        signature that of the cached list. A single backend is returned without asking the ring. */
    method Select(key: string, backends: seq<Backend>) returns (r: Result)
      requires Valid()
      modifies this`ring, this`nodeMap, this`lastBackends, this`cached
      ensures Valid()
      ensures r.NoBackends? <==> backends == []
      ensures |backends| <= 1 ==> cached == old(cached)
      ensures |backends| == 1 ==> r == Chosen(backends[0])
      ensures r.OutOfRange? <==> |backends| >= 2 && virtualNodes <= 0
      ensures |backends| >= 2 ==>
                cached == if virtualNodes >= 1 && Signature(Addresses(backends)) == Signature(old(cached)) then old(cached)
                          else Addresses(backends)
      ensures |backends| >= 2 && virtualNodes >= 1 ==> IsChoice(hashing, virtualNodes, cached, key, r.backend.address)
      ensures |backends| >= 2 && CommaFree(old(cached)) && CommaFree(Addresses(backends)) ==> cached == Addresses(backends)
      ensures CommaFree(old(cached)) && CommaFree(Addresses(backends)) ==> CommaFree(cached)
    {
      hide IsChoice;
      hide Owner;
      hide IsPoint;
      if |backends| == 0 {
        return NoBackends;
      }
      var first := backends[0];
      if |backends| == 1 {
        return Chosen(first);
      }
      ghost var addresses, before := Addresses(backends), cached;
      HasPoints(hashing, virtualNodes, addresses);
      HasPoints(hashing, virtualNodes, before);
      if CommaFree(before) && CommaFree(addresses) && Signature(addresses) == Signature(before) {
        SignatureIsInjective(addresses, before);
      }
      var changed := BackendsChanged(backends);
      if |ring| == 0 || changed {
        Rebuild(backends);
      }
      if |ring| == 0 {
        return OutOfRange;
      }
      assert ring[0] in ring;
      var node := Locate(key, first);
      return Chosen(node);
    }
  }

  /** A list of backends has points exactly if there are virtual nodes, and it has a signature. */
  lemma HasPoints(hashing: Hashing, virtualNodes: int, addresses: seq<string>)
    ensures (exists h: Hash :: IsPoint(hashing, virtualNodes, addresses, h)) <==> virtualNodes >= 1 && addresses != []
    ensures Signature(addresses) == "" <==> addresses == []
  {
    if virtualNodes >= 1 && addresses != [] {
      var h := hashing.point(addresses[0], 0);
      assert addresses[0] in addresses && Covers(hashing, virtualNodes, addresses[0], h);
      assert IsPoint(hashing, virtualNodes, addresses, h);
    }
  }

  lemma SameMembers(a: seq<Hash>, b: seq<Hash>)
    requires multiset(a) == multiset(b)
    ensures forall h: Hash :: h in a <==> h in b
  {
    forall h: Hash ensures h in a <==> h in b {
      assert h in multiset(a) <==> h in multiset(b);
    }
  }

  lemma PointsOfNone(hashing: Hashing, virtualNodes: int)
    ensures forall h: Hash :: !IsPoint(hashing, virtualNodes, [], h)
  {
  }

  lemma CoversNone(hashing: Hashing, a: string)
    ensures forall h: Hash :: !Covers(hashing, 0, a, h)
  {
  }

  lemma CoversNothing(hashing: Hashing, n: int, a: string)
    ensures n <= 0 ==> forall h: Hash :: Covers(hashing, n, a, h) <==> Covers(hashing, 0, a, h)
  {
  }

  lemma CoversOneMore(hashing: Hashing, i: nat, a: string)
    ensures forall h: Hash :: Covers(hashing, i + 1, a, h) <==> Covers(hashing, i, a, h) || h == hashing.point(a, i)
  {
    forall h: Hash ensures Covers(hashing, i + 1, a, h) <==> Covers(hashing, i, a, h) || h == hashing.point(a, i) {
      if Covers(hashing, i, a, h) {
        var j :| 0 <= j < i && hashing.point(a, j) == h;
      }
    }
  }

  lemma PointsOfNext(hashing: Hashing, virtualNodes: int, addresses: seq<string>, n: nat)
    requires n < |addresses|
    ensures var before, upTo, next := addresses[..n], addresses[..n + 1], addresses[n];
            && (forall h: Hash :: IsPoint(hashing, virtualNodes, upTo, h)
                             <==> IsPoint(hashing, virtualNodes, before, h) || Covers(hashing, virtualNodes, next, h))
            && (forall h: Hash | IsPoint(hashing, virtualNodes, upTo, h) ::
                  Owner(hashing, virtualNodes, upTo, h)
                  == if Covers(hashing, virtualNodes, next, h) then next else Owner(hashing, virtualNodes, before, h))
  {
    assert forall a :: a in addresses[..n + 1] <==> a in addresses[..n] || a == addresses[n];
    assert addresses[..n + 1][..n] == addresses[..n];
  }

  lemma {:induction false} SignatureOfMore(front: seq<string>, last: string)
    ensures Signature(front + [last]) == Signature(front) + last + ","
  {
    if front == [] {
      assert [last][1..] == [];
      assert Signature([last]) == last + "," + "";
    } else {
      SignatureOfMore(front[1..], last);
      SignatureOfFront(front, last);
      hide Signature;
      Joined(front[0] + ",", Signature(front[1..]), last + ",");
      Joined(Signature(front[1..]), last, ",");
    }
  }

  lemma SignatureOfFront(front: seq<string>, last: string)
    requires front != []
    ensures Signature(front) == front[0] + "," + Signature(front[1..])
    ensures Signature(front + [last]) == front[0] + "," + Signature(front[1..] + [last])
  {
    assert (front + [last])[1..] == front[1..] + [last];
  }

  lemma Joined(a: string, b: string, c: string)
    ensures (a + b) + c == a + (b + c)
  {
  }

  lemma SignatureOfNext(a: seq<string>, i: nat)
    requires i < |a|
    ensures Signature(a[..i + 1]) == Signature(a[..i]) + a[i] + ","
  {
    assert a[..i + 1] == a[..i] + [a[i]];
    SignatureOfMore(a[..i], a[i]);
  }
}
