/** The shape of a radix trie, stated on the strings its nodes spell: each key has its child keys in order. */
module TrieShape {
  import opened Wrappers

  type Trie = map<string, seq<string>>

  /** Child keys extend the key, and differ in the first byte of the label, in increasing order. */
  ghost predicate Ordered(key: string, kids: seq<string>) {
    && (forall i | 0 <= i < |kids| :: key < kids[i])
    && (forall i, j | 0 <= i < j < |kids| :: key < kids[i] && key < kids[j] && kids[i][|key|] < kids[j][|key|])
  }

  /** Some child key leads to `m`. */
  ghost predicate Leads(kids: seq<string>, m: string) {
    exists c | c in kids :: c <= m
  }

  ghost predicate Shape(t: Trie) {
    && "" in t
    && (forall k {:trigger Ordered(k, t[k])} | k in t :: Ordered(k, t[k]) && (forall c | c in t[k] :: c in t))
    && (forall k, m {:trigger Leads(t[k], m)} | k in t && m in t && k < m :: Leads(t[k], m))
  }

  /** Hangs the new leaf `h` below `k`; `kids` are the children of `k` with `h` sorted in. */
  ghost function Appended(t: Trie, k: string, h: string, kids: seq<string>): Trie
    requires k in t
  {
    t[k := kids][h := []]
  }

  /** Puts a node spelling `s` between `k` and its i-th child. */
  ghost function Split(t: Trie, k: string, i: nat, s: string): Trie
    requires k in t && i < |t[k]|
  {
    t[k := t[k][i := s]][s := [t[k][i]]]
  }

  /** Two child keys on the way to one string are the same child. */
  lemma SameChild(key: string, kids: seq<string>, i: nat, c: string, b: char)
    requires Ordered(key, kids) && i < |kids| && c in kids
    requires |key| < |kids[i]| && |key| < |c| && kids[i][|key|] == c[|key|] == b
    ensures c == kids[i]
  {
  }

  /** A string below `k` that no child of `k` starts is on no way to any node. */
  lemma {:induction false} OffTheWay(t: Trie, k: string, h: string, m: string)
    requires Shape(t) && k in t && m in t && k < h
    requires forall c | c in t[k] :: k < c && c[|k|] != h[|k|]
    ensures !(k < m && |k| < |m| && m[|k|] == h[|k|])
    ensures !(h <= m)
  {
    if k < m {
      assert Leads(t[k], m);
      var c :| c in t[k] && c <= m;
      assert c[|k|] == m[|k|];
    }
  }

  /** Appending a leaf where no child starts like it keeps the shape. */
  lemma {:induction false} AppendKeepsShape(t: Trie, k: string, h: string, kids: seq<string>)
    requires Shape(t) && k in t && k < h
    requires forall c | c in t[k] :: k < c && c[|k|] != h[|k|]
    requires Ordered(k, kids) && forall c :: c in kids <==> c in t[k] || c == h
    ensures h !in t
    ensures Shape(Appended(t, k, h, kids))
  {
    if h in t {
      OffTheWay(t, k, h, h);
    }
    var u := Appended(t, k, h, kids);
    assert Ordered(h, []);
    forall j | j in u ensures Ordered(j, u[j]) {
      if j != k && j != h {
        assert u[j] == t[j] && Ordered(j, t[j]);
      }
    }
    forall j, c | j in u && c in u[j] ensures c in u {
      if j != k && j != h {
        assert u[j] == t[j] && Ordered(j, t[j]);
      } else if j == k && c != h {
        assert Ordered(k, t[k]) && c in t[k];
      }
    }
    forall a, m | a in u && m in u && a < m ensures Leads(u[a], m) {
      if a == h {
        OffTheWay(t, k, h, m);
      } else if m != h {
        assert Leads(t[a], m);
        var c :| c in t[a] && c <= m;
        assert c in u[a];
      } else if a == k {
        assert h in u[a];
      } else {
        AboveTheLeaf(t, k, h, a);
        var c :| c in t[a] && c <= k;
        assert c in u[a] && c <= h;
      }
    }
  }

  /** Any other node above the new leaf is above its parent. */
  lemma AboveTheLeaf(t: Trie, k: string, h: string, a: string)
    requires Shape(t) && k in t && k < h && a in t && a < h && a != k
    requires forall c | c in t[k] :: k < c && c[|k|] != h[|k|]
    ensures a < k && Leads(t[a], k)
  {
    PrefixesCompare(a, k, h);
    if k < a {
      OffTheWay(t, k, h, a);
    }
  }

  /** What is below `k` and starts like the split edge is below the child that the edge leads to. */
  lemma {:induction false} BelowTheEdge(t: Trie, k: string, i: nat, s: string, m: string)
    requires Shape(t) && k in t && i < |t[k]| && k < s < t[k][i]
    requires m in t && k < m && m[|k|] == s[|k|]
    ensures t[k][i] <= m
  {
    assert Ordered(k, t[k]) && t[k][i] in t[k];
    assert Leads(t[k], m);
    var d :| d in t[k] && d <= m;
    SameChild(k, t[k], i, d, s[|k|]);
  }

  /** The children of the node above a split edge. */
  lemma SplitKids(k: string, kids: seq<string>, i: nat, s: string)
    requires Ordered(k, kids) && i < |kids| && k < s < kids[i]
    ensures Ordered(k, kids[i := s]) && Ordered(s, [kids[i]])
    ensures forall d | d in kids && d != kids[i] :: d in kids[i := s]
    ensures forall d | d in kids[i := s] :: d in kids || d == s
    ensures s in kids[i := s]
  {
    var after := kids[i := s];
    assert after[i] == s;
    forall d | d in kids && d != kids[i] ensures d in after {
      var j :| 0 <= j < |kids| && kids[j] == d;
      assert after[j] == d;
    }
  }

  /** Splitting the edge to a child keeps the shape. */
  lemma {:induction false} SplitKeepsShape(t: Trie, k: string, i: nat, s: string)
    requires Shape(t) && k in t && i < |t[k]| && k < s < t[k][i]
    ensures s !in t
    ensures Shape(Split(t, k, i, s))
  {
    var c, u := t[k][i], Split(t, k, i, s);
    assert Ordered(k, t[k]) && c in t[k];
    SplitKids(k, t[k], i, s);
    if s in t {
      BelowTheEdge(t, k, i, s, s);
    }
    forall j | j in u ensures Ordered(j, u[j]) {
      if j != k && j != s {
        assert u[j] == t[j] && Ordered(j, t[j]);
      }
    }
    forall j, d | j in u && d in u[j] ensures d in u {
      if j != k && j != s {
        assert u[j] == t[j] && Ordered(j, t[j]);
      }
    }
    forall a, m | a in u && m in u && a < m ensures Leads(u[a], m) {
      if a == s {
        BelowTheEdge(t, k, i, s, m);
        assert c in u[s];
      } else {
        SplitLeads(t, k, i, s, a, m);
      }
    }
  }

  /** Every older node still leads to what is below it. */
  lemma {:induction false} SplitLeads(t: Trie, k: string, i: nat, s: string, a: string, m: string)
    requires Shape(t) && k in t && i < |t[k]| && k < s < t[k][i]
    requires a in t && a != s && (m in t || m == s) && a < m
    ensures Leads(Split(t, k, i, s)[a], m)
  {
    var c, u := t[k][i], Split(t, k, i, s);
    assert Ordered(k, t[k]) && c in t[k];
    SplitKids(k, t[k], i, s);
    if m in t {
      assert Leads(t[a], m);
      var d :| d in t[a] && d <= m;
      assert if a == k && d == c then s in u[a] && s <= m else d in u[a];
    } else if a == k {
      assert s in u[a];
    } else {
      PrefixesCompare(a, k, s);
      if k < a {
        BelowTheEdge(t, k, i, s, a);
      } else {
        assert Leads(t[a], k);
        var d :| d in t[a] && d <= k;
        assert d in u[a] && d <= s;
      }
    }
  }

  /** The child that starts like `path` lies on the way to every key below `k` on the path. */
  lemma {:induction false} OnTheWay(t: Trie, k: string, c: string, path: string, m: string)
    requires Shape(t) && k in t && c in t[k] && m in t && k < m <= path
    requires k < c && c[|k|] == path[|k|]
    ensures c <= m
  {
    assert Leads(t[k], m);
    var d :| d in t[k] && d <= m;
    var i :| 0 <= i < |t[k]| && t[k][i] == d;
    SameChild(k, t[k], i, c, path[|k|]);
  }

  /** A node has one parent. */
  lemma {:induction false} UniqueParent(t: Trie, k: string, k': string, c: string)
    requires Shape(t) && k in t && k' in t && c in t[k] && c in t[k']
    ensures k == k'
  {
    assert Ordered(k, t[k]) && Ordered(k', t[k']);
    PrefixesCompare(k, k', c);
    if k < k' {
      OnTheWay(t, k, c, c, k');
    } else if k' < k {
      OnTheWay(t, k', c, c, k);
    }
  }

  /** Splitting an edge leaves every other node's children alone. */
  lemma {:induction false} SplitLeavesOthers(t: Trie, k: string, i: nat, s: string, k': string)
    requires Shape(t) && k in t && i < |t[k]| && k' in t && k' != k
    ensures forall c | c in t[k'] :: c in t && c != t[k][i]
  {
    assert Ordered(k', t[k']);
    forall c | c in t[k'] ensures c != t[k][i] {
      if c == t[k][i] {
        UniqueParent(t, k, k', c);
      }
    }
  }

  /** Sibling keys differ. */
  lemma SplitSiblings(key: string, kids: seq<string>, i: nat)
    requires Ordered(key, kids) && i < |kids|
    ensures forall j | 0 <= j < |kids| && j != i :: kids[j] != kids[i]
  {
    forall j | 0 <= j < |kids| && j != i ensures kids[j] != kids[i] {
      if j < i {
        assert kids[j][|key|] < kids[i][|key|];
      } else {
        assert kids[i][|key|] < kids[j][|key|];
      }
    }
  }
}
