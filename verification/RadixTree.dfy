/** The radix trie of internal/router/radix.go: nodes are objects that insertions split in place. */
module RadixIndex {
  import opened Wrappers
  import opened Routes
  import opened RouteOrder
  import opened TrieShape
  import opened TrieWalk

  class RadixNode {
    const path: string
    ghost const key: string   // what the labels from the root down to this node spell
    var routes: seq<Route>
    var children: seq<RadixNode>

    constructor (path: string, routes: seq<Route>, children: seq<RadixNode>, ghost key: string)
      ensures this.path == path && this.routes == routes && this.children == children && this.key == key
    {
      this.path, this.routes, this.children, this.key := path, routes, children, key;
    }
  }

  method CommonPrefix(a: string, b: string) returns (common: string)
    ensures common <= a && common <= b
    ensures |common| < |a| && |common| < |b| ==> a[|common|] != b[|common|]
  {
    var minLen := |a|;
    if |b| < minLen {
      minLen := |b|;
    }
    var i := 0;
    while i < minLen && a[i] == b[i]
      invariant i <= minLen
      invariant a[..i] == b[..i]
    {
      i := i + 1;
    }
    common := a[..i];
  }

  /** Go's string order. */
  predicate Less(a: string, b: string) {
    b != "" && (a == "" || a[0] < b[0] || (a[0] == b[0] && Less(a[1..], b[1..])))
  }

  /** The first bytes of the paths increase. */
  ghost predicate Ascending(nodes: seq<RadixNode>) {
    && (forall i | 0 <= i < |nodes| :: nodes[i].path != "")
    && (forall i, j | 0 <= i < j < |nodes| :: nodes[i].path[0] < nodes[j].path[0])
  }

  lemma SortedIn(sorted: seq<RadixNode>, c: RadixNode, at: nat)
    requires Ascending(sorted) && c.path != "" && at <= |sorted|
    requires forall i | 0 <= i < at :: sorted[i].path[0] < c.path[0]
    requires at < |sorted| ==> c.path[0] < sorted[at].path[0]
    ensures Ascending(sorted[..at] + [c] + sorted[at..])
  {
    var r := sorted[..at] + [c] + sorted[at..];
    forall i | 0 <= i < |r| ensures r[i] == if i < at then sorted[i] else if i == at then c else sorted[i - 1] {
    }
    assert forall i | at <= i < |sorted| :: c.path[0] < sorted[i].path[0];
    forall i, j | 0 <= i < j < |r| ensures r[i].path != "" && r[j].path != "" && r[i].path[0] < r[j].path[0] {
    }
  }

  lemma BagIn<T>(s: seq<T>, c: T, at: nat)
    requires at <= |s|
    ensures multiset(s[..at] + [c] + s[at..]) == multiset(s) + multiset{c}
  {
    assert s == s[..at] + s[at..];
  }

  method InsertByPath(sorted: seq<RadixNode>, c: RadixNode) returns (r: seq<RadixNode>)
    requires Ascending(sorted) && c.path != ""
    requires forall d | d in sorted :: d.path[0] != c.path[0]
    ensures Ascending(r)
    ensures multiset(r) == multiset(sorted) + multiset{c}
  {
    var at := 0;
    while at < |sorted| && Less(sorted[at].path, c.path)
      invariant at <= |sorted|
      invariant forall i | 0 <= i < at :: sorted[i].path[0] < c.path[0]
    {
      at := at + 1;
    }
    r := sorted[..at] + [c] + sorted[at..];
    SortedIn(sorted, c, at);
    BagIn(sorted, c, at);
  }

  /** Sorts children by path; their first bytes differ, so these decide. */
  method SortByPath(children: seq<RadixNode>) returns (sorted: seq<RadixNode>)
    requires forall c | c in children :: c.path != ""
    requires forall i, j | 0 <= i < j < |children| :: children[i].path[0] != children[j].path[0]
    ensures multiset(sorted) == multiset(children)
    ensures Ascending(sorted)
  {
    sorted := [];
    for n := 0 to |children|
      invariant multiset(sorted) == multiset(children[..n])
      invariant Ascending(sorted)
    {
      assert children[..n + 1] == children[..n] + [children[n]];
      forall d | d in sorted ensures d.path[0] != children[n].path[0] {
        assert d in multiset(sorted);
        assert d in children[..n];
      }
      sorted := InsertByPath(sorted, children[n]);
    }
    assert children[..|children|] == children;
  }

  ghost function KeysOf(children: seq<RadixNode>): (keys: seq<string>)
    ensures |keys| == |children|
    ensures forall i | 0 <= i < |children| :: keys[i] == children[i].key
  {
    seq(|children|, i requires 0 <= i < |children| => children[i].key)
  }

  /** The nodes' paths are labels below the key `k`. */
  ghost predicate Labelled(k: string, children: seq<RadixNode>) {
    forall i | 0 <= i < |children| :: children[i].path != "" && children[i].key == k + children[i].path
  }

  // ---------------------------------------------------------------- the linked nodes, apart from the heap

  /** What a node spells. */
  datatype Key = Key(text: string)

  /** A node, its children and the routes it holds. */
  datatype Entry = Entry(node: RadixNode, kids: seq<RadixNode>, held: seq<Route>)

  datatype Keyed = Keyed(trie: Trie)

  /** All nodes by key; their keys form a trie. */
  datatype Model = Model(at: map<Key, Entry>, keyed: Keyed, repr: set<RadixNode>) {
    ghost predicate Has(k: string) {
      Key(k) in at && k in keyed.trie
    }

    ghost function Trie(): Trie {
      keyed.trie
    }

    ghost function Entry(k: string): Entry
      requires Has(k)
    {
      at[Key(k)]
    }
  }

  /** The children are the nodes at the child keys. */
  ghost predicate Linked(at: map<Key, Entry>, k: string, children: seq<RadixNode>, keys: seq<string>) {
    && keys == KeysOf(children) && Labelled(k, children)
    && (forall i | 0 <= i < |children| :: Key(children[i].key) in at && at[Key(children[i].key)].node == children[i])
  }

  ghost predicate Placement(m: Model, k: string) {
    && m.Has(k) && Linked(m.at, k, m.Entry(k).kids, m.Trie()[k])
  }

  ghost predicate Formed(m: Model) {
    && Shape(m.Trie())
    && (forall k {:trigger Placement(m, k)} | k in m.Trie() :: Placement(m, k))
    && (forall k | k in m.at :: k.text in m.Trie() && m.at[k].node.key == k.text && m.at[k].node in m.repr)
  }

  /** Hangs `node` below `k`, whose children then are `children`. */
  ghost function AppendedTo(m: Model, k: string, node: RadixNode, children: seq<RadixNode>): Model
    requires m.Has(k)
  {
    Model(m.at[Key(k) := m.Entry(k).(kids := children)][Key(node.key) := Entry(node, [], [])],
          Keyed(Appended(m.Trie(), k, node.key, KeysOf(children))), m.repr + {node})
  }

  /** Puts `split` in the place of the i-th child of `k`, above a copy `moved` of that child. */
  ghost function SplitAt(m: Model, k: string, i: nat, split: RadixNode, moved: RadixNode): Model
    requires m.Has(k) && i < |m.Entry(k).kids| && i < |m.Trie()[k]| && m.Has(moved.key)
  {
    Model(m.at[Key(k) := m.Entry(k).(kids := m.Entry(k).kids[i := split])]
              [Key(moved.key) := m.Entry(moved.key).(node := moved)]
              [Key(split.key) := Entry(split, [moved], [])],
          Keyed(Split(m.Trie(), k, i, split.key)), m.repr + {split, moved})
  }

  /** What is known of a child. */
  lemma ChildOf(m: Model, k: string, i: nat)
    requires Formed(m) && m.Has(k) && i < |m.Entry(k).kids|
    ensures var c := m.Entry(k).kids[i];
            && c.path != "" && c.key == k + c.path && m.Has(c.key) && m.Entry(c.key).node == c
            && i < |m.Trie()[k]| && m.Trie()[k][i] == c.key && c.key in m.Trie()[k]
  {
    assert Placement(m, k);
    assert Ordered(k, m.Trie()[k]);
  }

  /** Children are different nodes. */
  lemma OnlyChild(m: Model, k: string, i: nat)
    requires Formed(m) && m.Has(k) && i < |m.Entry(k).kids|
    ensures forall j | 0 <= j < |m.Entry(k).kids| && j != i :: m.Entry(k).kids[j] != m.Entry(k).kids[i]
  {
    assert Placement(m, k) && Ordered(k, m.Trie()[k]);
    SplitSiblings(k, m.Trie()[k], i);
  }

  lemma AppendKeepsFormed(m: Model, k: string, node: RadixNode, children: seq<RadixNode>)
    requires Formed(m) && m.Has(k) && k < node.key
    requires forall c | c in m.Trie()[k] :: k < c && c[|k|] != node.key[|k|]
    requires Labelled(k, children) && Ordered(k, KeysOf(children))
    requires forall c :: c in KeysOf(children) <==> c in m.Trie()[k] || c == node.key
    requires forall c | c in children :: c == node || c in m.Entry(k).kids
    ensures !m.Has(node.key) && Formed(AppendedTo(m, k, node, children))
  {
    hide Shape;
    var u := AppendedTo(m, k, node, children);
    AppendKeepsShape(m.Trie(), k, node.key, KeysOf(children));
    forall j | j in u.Trie() ensures Placement(u, j) {
      if j == k {
        assert Placement(m, k);
        forall n | 0 <= n < |children| ensures Key(children[n].key) in u.at
            && u.at[Key(children[n].key)].node == children[n] {
          assert children[n] in children;
          assert children[n] != node ==> exists o :: 0 <= o < |m.Entry(k).kids| && m.Entry(k).kids[o] == children[n];
        }
      } else if j != node.key {
        assert Placement(m, j);
      }
    }
  }

  lemma SplitKeepsFormed(m: Model, k: string, i: nat, split: RadixNode, moved: RadixNode)
    requires Formed(m) && m.Has(k) && i < |m.Entry(k).kids| && i < |m.Trie()[k]|
    requires moved.key == m.Trie()[k][i] && k < split.key && split.key < moved.key
    requires split.key == k + split.path && moved.key == split.key + moved.path
    requires m.Has(moved.key)
    ensures !m.Has(split.key) && Formed(SplitAt(m, k, i, split, moved))
  {
    SplitKeepsShape(m.Trie(), k, i, split.key);
    SplitPlaces(m, k, i, split, moved);
  }

  lemma SplitPlaces(m: Model, k: string, i: nat, split: RadixNode, moved: RadixNode)
    requires Formed(m) && m.Has(k) && i < |m.Entry(k).kids| && i < |m.Trie()[k]|
    requires moved.key == m.Trie()[k][i] && k < split.key && split.key < moved.key
    requires split.key == k + split.path && moved.key == split.key + moved.path
    requires m.Has(moved.key) && !m.Has(split.key)
    ensures var u := SplitAt(m, k, i, split, moved); forall j | j in u.Trie() :: Placement(u, j)
  {
    hide Leads;
    var u := SplitAt(m, k, i, split, moved);
    assert Placement(m, k) && Ordered(k, m.Trie()[k]);
    forall j | j in u.Trie() ensures Placement(u, j) {
      if j == k {
        assert KeysOf(u.Entry(k).kids) == m.Trie()[k][i := split.key];
        SplitSiblings(k, m.Trie()[k], i);
      } else if j != split.key {
        assert Placement(m, j);
        SplitLeavesOthers(m.Trie(), k, i, split.key, j);
        var kids := u.Entry(j).kids;
        forall n | 0 <= n < |kids| ensures Key(kids[n].key) in u.at && u.at[Key(kids[n].key)].node == kids[n] {
          assert m.Trie()[j][n] in m.Trie()[j];
        }
      }
    }
  }

  /** Each node holds exactly the routes placed at its key, in order of insertion. */
  ghost predicate Filed(placed: seq<Placed>, m: Model) {
    && (forall k | k in m.Trie() :: m.Has(k) && m.Entry(k).held == RoutesOf(AtHome(placed, k)))
    && HomesIn(placed, m.Trie().Keys)
  }

  /** Nodes keep their routes, and new nodes hold none. */
  ghost predicate Grown(m: Model, more: Model) {
    && m.Trie().Keys <= more.Trie().Keys && (forall k | k in m.Trie() :: m.Has(k))
    && (forall k | k in more.Trie() :: more.Has(k) && more.Entry(k).held == if m.Has(k) then m.Entry(k).held else [])
  }

  lemma GrownTwice(a: Model, b: Model, c: Model)
    requires Grown(a, b) && Grown(b, c)
    ensures Grown(a, c)
  {
  }

  lemma NotGrown(m: Model)
    requires Formed(m)
    ensures Grown(m, m)
  {
    forall j | j in m.Trie() ensures m.Has(j) {
      assert Placement(m, j);
    }
  }

  lemma StartOfWay(m: Model, path: string)
    requires Formed(m) && path != ""
    ensures m.Has("") && OnWay(m.Trie(), "", path)
  {
    assert Placement(m, "");
    NotGrown(m);
  }

  lemma NoChildStarts(m: Model, k: string, b: char)
    requires Formed(m) && m.Has(k)
    requires forall j | 0 <= j < |m.Entry(k).kids| && m.Entry(k).kids[j].path != "" :: m.Entry(k).kids[j].path[0] != b
    ensures forall c | c in m.Trie()[k] :: k < c && c[|k|] != b
  {
    assert Placement(m, k);
    forall c | c in m.Trie()[k] ensures k < c && c[|k|] != b {
      var i :| 0 <= i < |m.Trie()[k]| && m.Trie()[k][i] == c;
      ChildOf(m, k, i);
    }
  }

  lemma RootIsHome(m: Model)
    requires Formed(m) && m.Has("")
    ensures Home(m.Trie().Keys, "") == "" && Fork(m.Trie().Keys, "") == "" && m.Trie().Keys == m.Trie().Keys + {""}
  {
    ForkIs(m.Trie().Keys, "", "", "");
  }

  /** The i-th child of `k` matches the beginning of the rest of the path. */
  lemma WalkDown(m: Model, k: string, i: nat, remaining: string)
    requires Formed(m) && m.Has(k) && i < |m.Entry(k).kids| && m.Entry(k).kids[i].path <= remaining
    requires OnWay(m.Trie(), k, k + remaining) && remaining != "/"
    ensures var c := m.Entry(k).kids[i];
            && m.Has(c.key) && c == m.Entry(c.key).node && OnWay(m.Trie(), c.key, k + remaining)
            && c.path != "" && k + remaining == c.key + remaining[|c.path|..]
  {
    var c := m.Entry(k).kids[i];
    ChildOf(m, k, i);
    assert remaining == c.path + remaining[|c.path|..];
    assert (k + remaining)[|k|..] == remaining && (k + "/")[|k|..] == "/";
    StepDown(m.Trie(), k, c.key, k + remaining);
  }

  /** The rest of the path leaves the label of the i-th child of `k` after `n` bytes. */
  lemma BranchOff(m: Model, k: string, i: nat, remaining: string, n: nat)
    requires Formed(m) && m.Has(k) && i < |m.Entry(k).kids|
    requires OnWay(m.Trie(), k, k + remaining) && remaining != "/"
    requires 0 < n < |m.Entry(k).kids[i].path| && n <= |remaining|
    requires m.Entry(k).kids[i].path[..n] == remaining[..n]
    requires n < |remaining| ==> remaining[n] != m.Entry(k).kids[i].path[n]
    ensures var c, path := m.Entry(k).kids[i], k + remaining;
            var s := k + c.path[..n];
            && Home(m.Trie().Keys, path) == path && Fork(m.Trie().Keys, path) == s
            && path == s + remaining[n..] && s < c.key
            && (n < |remaining| ==> c.key[|s|] != remaining[n])
  {
    var c, path, s := m.Entry(k).kids[i], k + remaining, k + remaining[..n];
    ChildOf(m, k, i);
    assert (k + remaining)[|k|..] == remaining && (k + "/")[|k|..] == "/";
    LeaveEdge(m.Trie(), k, c.key, s, path);
  }

  lemma AppendGrows(m: Model, k: string, node: RadixNode, children: seq<RadixNode>)
    requires Formed(m) && m.Has(k) && !m.Has(node.key)
    ensures var u := AppendedTo(m, k, node, children);
            && Grown(m, u) && u.Trie().Keys == m.Trie().Keys + {node.key}
            && u.Has(node.key) && u.Entry(node.key).node == node && u.repr == m.repr + {node}
  {
    hide Shape;
    var u := AppendedTo(m, k, node, children);
    NotGrown(m);
    forall j | j in u.Trie() ensures u.Has(j) && u.Entry(j).held == if m.Has(j) then m.Entry(j).held else [] {
      assert j in m.Trie() ==> Placement(m, j);
    }
  }

  lemma SplitGrows(m: Model, k: string, i: nat, split: RadixNode, moved: RadixNode)
    requires Formed(m) && m.Has(k) && i < |m.Entry(k).kids| && i < |m.Trie()[k]|
    requires m.Has(moved.key) && !m.Has(split.key)
    ensures var u := SplitAt(m, k, i, split, moved);
            && Grown(m, u) && u.Trie().Keys == m.Trie().Keys + {split.key}
            && u.Has(split.key) && u.Entry(split.key).node == split && u.repr == m.repr + {split, moved}
            && u.Trie()[split.key] == [m.Trie()[k][i]]
  {
    hide Shape;
    var u := SplitAt(m, k, i, split, moved);
    NotGrown(m);
    forall j | j in u.Trie() ensures u.Has(j) && u.Entry(j).held == if m.Has(j) then m.Entry(j).held else [] {
      assert j in m.Trie() ==> Placement(m, j);
    }
  }

  lemma FiledAfterGrowth(placed: seq<Placed>, m: Model, more: Model)
    requires Filed(placed, m) && Grown(m, more)
    ensures Filed(placed, more)
  {
    hide AtHome;
    hide RoutesOf;
    forall k | k in more.Trie() ensures more.Entry(k).held == RoutesOf(AtHome(placed, k)) {
      if k !in m.Trie() {
        NothingAtNew(placed, m.Trie().Keys, k);
      }
    }
  }

  /** What the node at `k` contributes to a descent along `path`. */
  lemma ShownHere(placed: seq<Placed>, m: Model, k: string, path: string)
    requires Formed(m) && Filed(placed, m) && m.Has(k) && k <= path
    ensures var rest := Candidates(placed, path, |k| + 1);
            RoutesOf(Candidates(placed, path, |k|)) == ShownOf(m.Entry(k).held, path) + RoutesOf(rest)
  {
    var here := AtHome(placed, k);
    AtHomeHolds(placed, k);
    assert path[..|k|] == k;
    assert Candidates(placed, path, |k|) == VisibleIn(here, path) + Candidates(placed, path, |k| + 1);
    hide Candidates;
    hide Formed;
    hide AtHome;
    ShownOnTheWay(here, path);
    RoutesOfConcat(VisibleIn(here, path), Candidates(placed, path, |k| + 1));
  }

  /** Without a child on the path, nothing more is on the path. */
  lemma NothingBelow(placed: seq<Placed>, m: Model, k: string, path: string)
    requires Formed(m) && Filed(placed, m) && m.Has(k) && k <= path
    requires forall i | 0 <= i < |m.Entry(k).kids| :: m.Entry(k).kids[i].path != "" ==> !(m.Entry(k).kids[i].path <= path[|k|..])
    ensures RoutesOf(Candidates(placed, path, |k| + 1)) == []
  {
    hide Shape;
    forall p | p in placed ensures !(k < p.home && p.home <= path) {
      if k < p.home && p.home <= path {
        var i := WayDown(m, k, p.home, path);
      }
    }
    CandidatesSkip(placed, path, |k| + 1, |path| + 1);
  }

  /** The child that leads to a node further down the path lies on the path. */
  lemma WayDown(m: Model, k: string, h: string, path: string) returns (i: nat)
    requires Formed(m) && m.Has(k) && h in m.Trie() && k < h && h <= path
    ensures i < |m.Entry(k).kids| && m.Entry(k).kids[i].path != "" && m.Entry(k).kids[i].path <= path[|k|..]
  {
    var keys := m.Trie()[k];
    assert Leads(keys, h);
    var c :| c in keys && c <= h;
    i :| 0 <= i < |keys| && keys[i] == c;
    assert Placement(m, k);
    var child := m.Entry(k).kids[i];
    ChildOf(m, k, i);
    assert c == k + child.path && c == path[..|c|];
    assert path[|k|..][..|child.path|] == c[|k|..] == child.path;
  }

  /** The child on the path is where the path next meets a home. */
  lemma NextStop(placed: seq<Placed>, m: Model, k: string, i: nat, path: string)
    requires Formed(m) && Filed(placed, m) && m.Has(k) && k <= path
    requires i < |m.Entry(k).kids| && m.Entry(k).kids[i].path <= path[|k|..]
    ensures var c := m.Entry(k).kids[i].key;
            c <= path && Candidates(placed, path, |k| + 1) == Candidates(placed, path, |c|)
  {
    var t, child := m.Trie(), m.Entry(k).kids[i];
    ChildOf(m, k, i);
    var c := child.key;
    assert path == k + path[|k|..] && c <= path;
    forall p, n | p in placed && |k| + 1 <= n < |c| ensures p.home != path[..n] {
      if p.home == path[..n] {
        assert p.home in t && k < p.home;
        OnTheWay(t, k, c, path, p.home);
      }
    }
    CandidatesSkip(placed, path, |k| + 1, |c|);
  }

  /** The keys at or below `k`. */
  ghost function KeysUnder(m: Model, k: string): set<string> {
    set j | j in m.Trie() && k <= j
  }

  /** Below a node are its own routes and those below its children. */
  lemma UnderNode(placed: seq<Placed>, m: Model, k: string)
    requires Formed(m) && Filed(placed, m) && m.Has(k)
    ensures RouteBag(Under(placed, [k]))
         == multiset(m.Entry(k).held) + multiset(RoutesOf(Under(placed, KeysOf(m.Entry(k).kids))))
  {
    var keys := m.Trie()[k];
    assert Placement(m, k) && Ordered(k, keys);
    forall p | p in placed && k <= p.home ensures p.home == k || LedTo(keys, p.home) {
      assert p.home in m.Trie();
      assert p.home != k ==> Leads(keys, p.home);
    }
    UnderSplits(placed, k, keys);
  }

  /** One more child. */
  lemma UnderNextChild(placed: seq<Placed>, m: Model, k: string, i: nat)
    requires Formed(m) && m.Has(k) && i < |m.Entry(k).kids|
    ensures var kids := m.Entry(k).kids;
            RouteBag(Under(placed, KeysOf(kids[..i + 1])))
            == RouteBag(Under(placed, KeysOf(kids[..i]))) + RouteBag(Under(placed, [kids[i].key]))
    ensures var c := m.Entry(k).kids[i].key; KeysUnder(m, c) < KeysUnder(m, k)
  {
    var kids := m.Entry(k).kids;
    ChildOf(m, k, i);
    assert Placement(m, k) && Ordered(k, m.Trie()[k]);
    assert KeysOf(kids[..i + 1]) == KeysOf(kids[..i]) + [kids[i].key];
    forall j | 0 <= j < i ensures !(kids[j].key <= kids[i].key) && !(kids[i].key <= kids[j].key) {
      assert m.Trie()[k][j][|k|] < m.Trie()[k][i][|k|];
    }
    UnderOneMore(placed, KeysOf(kids[..i]), kids[i].key);
    assert k in KeysUnder(m, k);
  }

  /** Files one more route at `p.home`. */
  ghost function Filing(m: Model, p: Placed): Model
    requires m.Has(p.home)
  {
    m.(at := m.at[Key(p.home) := m.Entry(p.home).(held := m.Entry(p.home).held + [p.route])])
  }

  lemma FilingKeepsFormed(m: Model, p: Placed)
    requires Formed(m) && m.Has(p.home)
    ensures Formed(Filing(m, p))
  {
    hide Shape;
    forall j | j in m.Trie() ensures Placement(Filing(m, p), j) {
      assert Placement(m, j);
    }
  }

  lemma FiledAfterInsert(placed: seq<Placed>, m: Model, p: Placed)
    requires Filed(placed, m) && m.Has(p.home)
    ensures Filed(placed + [p], Filing(m, p))
  {
    hide AtHome;
    hide RoutesOf;
    var u := Filing(m, p);
    forall k | k in u.Trie() ensures u.Has(k) && u.Entry(k).held == RoutesOf(AtHome(placed + [p], k)) {
      RoutesAtHome(placed, p, k);
      assert m.Has(k) && m.Entry(k).held + [] == m.Entry(k).held;
    }
  }

  lemma SortedKeys(k: string, before: seq<RadixNode>, node: RadixNode, sorted: seq<RadixNode>)
    requires Ascending(sorted) && multiset(sorted) == multiset(before + [node])
    requires Labelled(k, before) && node.path != "" && node.key == k + node.path
    ensures Labelled(k, sorted) && Ordered(k, KeysOf(sorted))
    ensures forall c :: c in KeysOf(sorted) <==> c in KeysOf(before) || c == node.key
    ensures forall c | c in sorted :: c == node || c in before
  {
    var keys, olds, all := KeysOf(sorted), KeysOf(before), before + [node];
    forall c ensures c in sorted <==> c in all {
      assert c in multiset(sorted) <==> c in multiset(all);
    }
    forall i | 0 <= i < |sorted| ensures sorted[i].path != "" && sorted[i].key == k + sorted[i].path {
      assert sorted[i] in all;
      var j :| 0 <= j < |all| && all[j] == sorted[i];
    }
    forall c | c in keys ensures c in olds || c == node.key {
      var i :| 0 <= i < |keys| && keys[i] == c;
      assert sorted[i] in all;
      var j :| 0 <= j < |all| && all[j] == sorted[i];
      assert j < |before| ==> olds[j] == c;
    }
    forall c | c in olds || c == node.key ensures c in keys {
      var j := if c == node.key then |before| else var j :| 0 <= j < |olds| && olds[j] == c; j;
      assert all[j] in sorted;
      var i :| 0 <= i < |sorted| && sorted[i] == all[j];
      assert keys[i] == c;
    }
  }

  /** Adds a new node as a child and sorts the children again. */
  method AddChild(parent: RadixNode, path: string, ghost k: string) returns (node: RadixNode)
    requires path != "" && Labelled(k, parent.children) && Ordered(k, KeysOf(parent.children))
    requires forall c | c in KeysOf(parent.children) :: k < c && c[|k|] != path[0]
    modifies parent`children
    ensures fresh(node) && node.path == path && node.key == k + path && node.routes == [] && node.children == []
    ensures Labelled(k, parent.children) && Ordered(k, KeysOf(parent.children))
    ensures forall c :: c in KeysOf(parent.children) <==> c in KeysOf(old(parent.children)) || c == node.key
    ensures forall c | c in parent.children :: c == node || c in old(parent.children)
  {
    node := new RadixNode(path, [], [], k + path);
    var children := parent.children + [node];
    ghost var keys := KeysOf(parent.children);
    forall i | 0 <= i < |parent.children| ensures children[i].path[0] != path[0] {
      assert keys[i] in keys;
    }
    forall i, j | 0 <= i < j < |children| ensures children[i].path[0] != children[j].path[0] {
      if j < |parent.children| {
        assert keys[i][|k|] < keys[j][|k|];
      }
    }
    children := SortByPath(children);
    SortedKeys(k, parent.children, node, children);
    parent.children := children;
  }

  /** A node for the first `prefixLen` bytes of a child's path, above a copy of the child with the rest. */
  method BreakEdge(child: RadixNode, prefixLen: nat, ghost k: string) returns (splitNode: RadixNode, moved: RadixNode)
    requires 0 < prefixLen < |child.path| && child.key == k + child.path
    ensures fresh(splitNode) && fresh(moved)
    ensures splitNode.path == child.path[..prefixLen] && splitNode.key == k + splitNode.path
    ensures splitNode.routes == [] && splitNode.children == [moved]
    ensures moved.path == child.path[prefixLen..] && moved.key == child.key == splitNode.key + moved.path
    ensures moved.routes == child.routes && moved.children == child.children
  {
    assert child.path == child.path[..prefixLen] + child.path[prefixLen..];
    moved := new RadixNode(child.path[prefixLen..], child.routes, child.children, child.key);
    splitNode := new RadixNode(child.path[..prefixLen], [], [moved], k + child.path[..prefixLen]);
  }

  /** The object looks as its entry says. */
  ghost predicate Shows(e: Entry)
    reads e.node
  {
    e.node.children == e.kids && e.node.routes == e.held
  }

  class RadixTree {
    var root: RadixNode
    ghost var model: Model
    ghost var placed: seq<Placed>   // everything inserted, in order, with its home

    // ---------------------------------------------------------------- invariant

    /** The objects are linked, and hold routes, as the model says; only `but` may have other children. */
    ghost predicate StandsBut(but: string)
      reads this, model.repr
    {
      && Formed(model) && model.Has("") && model.Entry("").node == root
      && (forall k | k in model.at ::
            var e := model.at[k];
            && e.node in model.repr && e.node.key == k.text
            && if k == Key(but) then e.node.routes == e.held else Shows(e))
    }

    ghost predicate Stands()
      reads this, model.repr
    {
      && Formed(model) && model.Has("") && model.Entry("").node == root
      && (forall k | k in model.at :: model.at[k].node in model.repr && model.at[k].node.key == k.text && Shows(model.at[k]))
    }

    ghost predicate Valid()
      reads this, model.repr
    {
      Stands() && Filed(placed, model)
    }

    /** What the tree stands for. */
    ghost function Contents(): Index
      reads this
    {
      Index(model.Trie().Keys, placed)
    }

    constructor ()
      ensures Valid() && fresh(model.repr)
      ensures Contents() == IndexOf([])
    {
      root := new RadixNode("/", [], [], "");
      placed := [];
      new;
      model := Model(map[Key("") := Entry(root, [], [])], Keyed(map["" := []]), {root});
      assert Placement(model, "");
    }

    // ---------------------------------------------------------------- nodes

    static method FindChild(node: RadixNode, path: string) returns (child: RadixNode?, common: string, ghost i: nat)
      requires path != ""
      ensures child == null ==>
                forall j | 0 <= j < |node.children| && node.children[j].path != "" :: node.children[j].path[0] != path[0]
      ensures child != null ==>
                && i < |node.children| && child == node.children[i]
                && common != "" && common <= path && common <= child.path
                && (|common| < |path| && |common| < |child.path| ==> path[|common|] != child.path[|common|])
    {
      for n := 0 to |node.children|
        invariant forall j | 0 <= j < n && node.children[j].path != "" :: node.children[j].path[0] != path[0]
      {
        var c := node.children[n];
        if |c.path| == 0 {
          continue;
        }
        var shared := CommonPrefix(path, c.path);
        if |shared| > 0 {
          return c, shared, n;
        }
      }
      return null, "", 0;
    }

    ghost method NoteAppend(k: string, node: RadixNode, children: seq<RadixNode>)
      requires StandsBut(k) && model.Has(k) && model.Entry(k).node.children == children
      requires k < node.key && node.children == [] && node.routes == []
      requires forall c | c in model.Trie()[k] :: k < c && c[|k|] != node.key[|k|]
      requires Labelled(k, children) && Ordered(k, KeysOf(children))
      requires forall c :: c in KeysOf(children) <==> c in model.Trie()[k] || c == node.key
      requires forall c | c in children :: c == node || c in model.Entry(k).kids
      modifies this`model
      ensures Stands() && !old(model).Has(node.key) && model.Has(node.key) && model.Entry(node.key).node == node
      ensures model.Trie().Keys == old(model.Trie().Keys) + {node.key} && Grown(old(model), model)
      ensures model.repr == old(model.repr) + {node}
    {
      hide Shape;
      hide Grown;
      AppendKeepsFormed(model, k, node, children);
      AppendGrows(model, k, node, children);
      model := AppendedTo(model, k, node, children);
    }

    method AppendChild(parent: RadixNode, path: string, ghost k: string) returns (node: RadixNode)
      requires Stands() && model.Has(k) && model.Entry(k).node == parent && path != ""
      requires forall c | c in model.Trie()[k] :: k < c && c[|k|] != path[0]
      modifies this`model, parent`children
      ensures Stands() && fresh(model.repr - old(model.repr))
      ensures !old(model).Has(k + path) && model.Has(k + path) && model.Entry(k + path).node == node
      ensures model.Trie().Keys == old(model.Trie().Keys) + {k + path} && Grown(old(model), model)
    {
      hide Grown;
      assert Placement(model, k) && Ordered(k, model.Trie()[k]);
      node := AddChild(parent, path, k);
      NoteAppend(k, node, parent.children);
    }

    /** Replaces a child by another node. */
    static method ReplaceChild(parent: RadixNode, child: RadixNode, node: RadixNode, ghost at: nat)
      requires at < |parent.children| && parent.children[at] == child
      requires forall j | 0 <= j < at :: parent.children[j] != child
      modifies parent`children
      ensures parent.children == old(parent.children)[at := node]
    {
      for i := 0 to |parent.children|
        invariant i <= at && parent.children == old(parent.children)
      {
        if parent.children[i] == child {
          parent.children := parent.children[i := node];
          return;
        }
      }
    }

    ghost method NoteSplit(k: string, i: nat, split: RadixNode, moved: RadixNode)
      requires StandsBut(k) && model.Has(k) && i < |model.Entry(k).kids| && i < |model.Trie()[k]|
      requires model.Entry(k).node.children == model.Entry(k).kids[i := split]
      requires moved.key == model.Trie()[k][i] && k < split.key && split.key < moved.key
      requires split.key == k + split.path && moved.key == split.key + moved.path
      requires model.Has(moved.key) && moved.children == model.Entry(moved.key).kids
          && moved.routes == model.Entry(moved.key).held
      requires split.children == [moved] && split.routes == []
      modifies this`model
      ensures Stands() && !old(model).Has(split.key) && model.Has(split.key) && model.Entry(split.key).node == split
      ensures model.Trie().Keys == old(model.Trie().Keys) + {split.key} && Grown(old(model), model)
      ensures model.repr == old(model.repr) + {split, moved}
      ensures model.Trie()[split.key] == [moved.key]
    {
      hide Shape;
      hide Grown;
      SplitKeepsFormed(model, k, i, split, moved);
      SplitGrows(model, k, i, split, moved);
      model := SplitAt(model, k, i, split, moved);
    }

    /** Puts a node for the first `prefixLen` bytes of a child's path in the child's place, above a
        copy of the child. */
    method SplitEdge(parent: RadixNode, child: RadixNode, prefixLen: nat, ghost k: string, ghost i: nat)
      returns (splitNode: RadixNode)
      requires Stands() && model.Has(k) && model.Entry(k).node == parent
      requires i < |parent.children| && parent.children[i] == child && 0 < prefixLen < |child.path|
      modifies this`model, parent`children
      ensures Stands() && fresh(model.repr - old(model.repr)) && fresh(splitNode)
      ensures splitNode.key == k + child.path[..prefixLen] && !old(model).Has(splitNode.key)
      ensures model.Has(splitNode.key) && model.Entry(splitNode.key).node == splitNode
      ensures model.Trie().Keys == old(model.Trie().Keys) + {splitNode.key} && Grown(old(model), model)
      ensures model.Trie()[splitNode.key] == [child.key]
    {
      hide Shape;
      hide Grown;
      hide Formed;
      ChildOf(model, k, i);
      OnlyChild(model, k, i);
      ghost var moved;
      splitNode, moved := BreakEdge(child, prefixLen, k);
      ReplaceChild(parent, child, splitNode, i);
      NoteSplit(k, i, splitNode, moved);
    }

    // ---------------------------------------------------------------- insertion

    /** `node` has been found or created for `path`, and no route has moved. */
    twostate predicate Settled(path: string, new node: RadixNode)
      reads this, model.repr
    {
      var keys := old(model.Trie().Keys);
      var h := Home(keys, path);
      && Stands() && Grown(old(model), model)
      && model.Has(h) && node == model.Entry(h).node
      && model.Trie().Keys == keys + {h, Fork(keys, h)}
    }

    /** No child starts like the rest of the path: a leaf is appended. */
    method Append(current: RadixNode, remaining: string, ghost k: string) returns (node: RadixNode)
      requires Stands() && model.Has(k) && model.Entry(k).node == current
      requires OnWay(model.Trie(), k, k + remaining) && remaining != "" && remaining != "/"
      requires forall j | 0 <= j < |current.children| && current.children[j].path != "" :: current.children[j].path[0] != remaining[0]
      modifies this`model, current`children
      ensures Settled(k + remaining, node) && fresh(model.repr - old(model.repr))
    {
      hide Shape;
      hide Grown;
      assert (k + remaining)[|k|..] == remaining && (k + remaining)[|k|] == remaining[0];
      NoChildStarts(model, k, remaining[0]);
      LeaveNode(model.Trie(), k, k + remaining);
      node := AppendChild(current, remaining, k);
    }

    /** A child starts like the rest of the path and then differs, or the path ends inside its label:
        the edge is split, and a leaf takes what remains of the path. */
    method SplitChild(current: RadixNode, child: RadixNode, remaining: string, prefixLen: nat, ghost k: string,
        ghost i: nat)
      returns (node: RadixNode)
      requires Stands() && model.Has(k) && model.Entry(k).node == current
      requires OnWay(model.Trie(), k, k + remaining) && remaining != "/"
      requires i < |current.children| && current.children[i] == child
      requires 0 < prefixLen < |child.path| && prefixLen <= |remaining|
          && child.path[..prefixLen] == remaining[..prefixLen]
      requires prefixLen < |remaining| ==> remaining[prefixLen] != child.path[prefixLen]
      modifies this`model, current`children
      ensures Settled(k + remaining, node) && fresh(model.repr - old(model.repr))
    {
      hide Shape;
      hide Formed;
      hide Grown;
      hide Home;
      hide Fork;
      hide OnWay;
      BranchOff(model, k, i, remaining, prefixLen);
      ghost var before := model;
      node := SplitEdge(current, child, prefixLen, k, i);
      if prefixLen == |remaining| {
        assert k + remaining == node.key;
        return;
      }
      ghost var between := model;
      node := AppendChild(node, remaining[prefixLen..], node.key);
      GrownTwice(before, between, model);
    }

    method FindOrCreateNode(pattern: string) returns (node: RadixNode)
      requires Stands()
      modifies this`model, model.repr`children
      ensures Settled(Spelled(pattern), node) && fresh(model.repr - old(model.repr))
    {
      hide Shape;
      hide Formed;
      hide Grown;
      hide Home;
      hide Fork;
      hide OnWay;
      NotGrown(model);
      if pattern == "" || pattern == "/" {
        RootIsHome(model);
        return root;
      }
      var path := pattern;
      if !("/" <= path) {
        path := "/" + path;
      }
      var current, remaining := root, path;
      ghost var k := "";
      StartOfWay(model, path);
      while |remaining| > 0
        invariant path == k + remaining && OnWay(model.Trie(), k, path) && model.Has(k)
            && current == model.Entry(k).node
        invariant Stands() && model == old(model)
        decreases |remaining|
      {
        if remaining == "/" {
          StopHere(model.Trie(), k, path);
          return current;
        }
        var child, common, i := FindChild(current, remaining);
        if child == null {
          node := Append(current, remaining, k);
          return;
        }
        var prefixLen := |common|;
        if prefixLen == |child.path| {
          WalkDown(model, k, i, remaining);
          current := child;
          remaining := remaining[prefixLen..];
          k := child.key;
          continue;
        }
        node := SplitChild(current, child, remaining, prefixLen, k, i);
        return;
      }
      assert path == k;
      StopHere(model.Trie(), k, path);
      return current;
    }

    method AddRouteTo(node: RadixNode, route: Route, ghost h: string)
      requires Valid() && model.Has(h) && model.Entry(h).node == node
      modifies this`model, this`placed, node`routes
      ensures Valid() && model.Trie() == old(model.Trie()) && model.repr == old(model.repr)
      ensures placed == old(placed) + [Placed(route, h)]
    {
      hide Formed;
      hide Filed;
      node.routes := node.routes + [route];
      ghost var p := Placed(route, h);
      FilingKeepsFormed(model, p);
      FiledAfterInsert(placed, model, p);
      model, placed := Filing(model, p), placed + [p];
    }

    method Insert(route: Route)
      requires Valid()
      modifies this, model.repr
      ensures Valid() && fresh(model.repr - old(model.repr))
      ensures Contents() == Grow(old(Contents()), route)
    {
      hide Shape;
      hide Formed;
      hide Filed;
      hide Grown;
      ghost var before := model;
      var node;
      if route.rule.pathExact != "" {
        node := FindOrCreateNode(route.rule.pathExact);
      } else if route.rule.pathPrefix != "" {
        node := FindOrCreateNode(route.rule.pathPrefix);
      } else {
        node := root;
        RootIsHome(model);
        NotGrown(model);
      }
      FiledAfterGrowth(placed, before, model);
      AddRouteTo(node, route, Home(before.Trie().Keys, Spelled(Pattern(route))));
    }

    // ---------------------------------------------------------------- lookup

    method ShowRoutes(routes: seq<Route>, fullPath: string, results: seq<Route>) returns (r: seq<Route>)
      ensures r == results + ShownOf(routes, fullPath)
    {
      r := results;
      for i := 0 to |routes|
        invariant r == results + ShownOf(routes[..i], fullPath)
      {
        assert routes[..i + 1][..i] == routes[..i];
        if routes[i].rule.pathExact != "" {
          if fullPath == routes[i].rule.pathExact {
            r := r + [routes[i]];
          }
        } else {
          r := r + [routes[i]];
        }
      }
      assert routes[..|routes|] == routes;
    }

    method CollectMatches(node: RadixNode, remaining: string, fullPath: string, results: seq<Route>, ghost k: string)
      returns (r: seq<Route>)
      requires Valid() && model.Has(k) && model.Entry(k).node == node && fullPath == k + remaining
      ensures r == results + RoutesOf(Candidates(placed, fullPath, |k|))
      decreases |remaining|
    {
      hide Shape;
      hide Formed;
      hide Filed;
      hide Candidates;
      hide RoutesOf;
      assert fullPath[|k|..] == remaining;
      r := ShowRoutes(node.routes, fullPath, results);
      ShownHere(placed, model, k, fullPath);
      if |node.children| == 0 || |remaining| == 0 {
        NothingBelow(placed, model, k, fullPath);
        return;
      }
      for i := 0 to |node.children|
        invariant forall j | 0 <= j < i :: !(node.children[j].path <= remaining)
      {
        var child := node.children[i];
        if child.path <= remaining {
          ChildOf(model, k, i);
          NextStop(placed, model, k, i, fullPath);
          assert fullPath == child.key + remaining[|child.path|..];
          r := CollectMatches(child, remaining[|child.path|..], fullPath, r, child.key);
          return;
        }
      }
      NothingBelow(placed, model, k, fullPath);
    }

    method Lookup(path: string) returns (results: seq<Route>)
      requires Valid()
      ensures results == RoutesOf(StableSort(VisibleIn(placed, path)))
    {
      results := CollectMatches(root, path, path, [], "");
      DescentSorts(placed, path);
    }

    method CollectAllRoutes(node: RadixNode, routes: seq<Route>, ghost k: string) returns (r: seq<Route>)
      requires Valid() && model.Has(k) && model.Entry(k).node == node
      ensures multiset(r) == multiset(routes) + RouteBag(Under(placed, [k]))
      decreases KeysUnder(model, k)
    {
      hide Shape;
      hide Formed;
      hide Filed;
      hide RoutesOf;
      hide Under;
      r := routes + node.routes;
      UnderNothing(placed);
      for i := 0 to |node.children|
        invariant multiset(r) == multiset(routes) + multiset(node.routes) + RouteBag(Under(placed,
            KeysOf(node.children[..i])))
      {
        ChildOf(model, k, i);
        UnderNextChild(placed, model, k, i);
        r := CollectAllRoutes(node.children[i], r, node.children[i].key);
      }
      assert node.children[..|node.children|] == node.children;
      UnderNode(placed, model, k);
    }

    method AllRoutes() returns (routes: seq<Route>)
      requires Valid()
      ensures multiset(routes) == RouteBag(placed)
    {
      routes := CollectAllRoutes(root, [], "");
      UnderRoot(placed);
    }
  }
}
