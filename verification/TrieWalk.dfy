/** The walk that `findOrCreateNode` takes down a trie ends where `Home` and `Fork` say. */
module TrieWalk {
  import opened Wrappers
  import opened RouteOrder
  import opened TrieShape

  /** The walk for `path` has reached `k` and has not passed the place a final "/" is dropped at. */
  ghost predicate OnWay(t: Trie, k: string, path: string) {
    && Shape(t) && k in t && k <= path && path != ""
    && (EndsWithSlash(path) && path[..|path| - 1] in t ==> |k| <= |path| - 1)
  }

  /** A child whose whole label matches is the next stop. */
  lemma StepDown(t: Trie, k: string, c: string, path: string)
    requires OnWay(t, k, path) && path != k + "/" && c in t[k] && k < c <= path
    ensures OnWay(t, c, path)
  {
    assert Ordered(k, t[k]);
    var m := path[..|path| - 1];
    if EndsWithSlash(path) && m in t {
      assert path == m + "/";
      assert k < m;
      OnTheWay(t, k, c, path, m);
    }
  }

  /** The walk stops at a node, before a final "/" or at the end. */
  lemma StopHere(t: Trie, k: string, path: string)
    requires OnWay(t, k, path) && (path == k + "/" || path == k)
    ensures Home(t.Keys, path) == k && Fork(t.Keys, k) == k
  {
    if path == k + "/" {
      assert path[..|path| - 1] == k;
    }
    ForkIs(t.Keys, k, k, k);
  }

  /** No child starts like the rest: the whole path becomes a key, and leaves the tree at `k`. */
  lemma LeaveNode(t: Trie, k: string, path: string)
    requires OnWay(t, k, path) && path != k + "/" && k < path
    requires forall c | c in t[k] :: k < c && c[|k|] != path[|k|]
    ensures path !in t && Home(t.Keys, path) == path && Fork(t.Keys, path) == k
  {
    OffTheWay(t, k, path, k);
    if path in t {
      OffTheWay(t, k, path, path);
    }
    var m := path[..|path| - 1];
    if EndsWithSlash(path) && m in t {
      assert path == m + "/";
      OffTheWay(t, k, path, m);
    }
    forall m | m in t ensures !(path[..|k| + 1] <= m) {
      OffTheWay(t, k, path, m);
      assert path[..|k| + 1][..|k|] == k && path[..|k| + 1][|k|] == path[|k|];
    }
    ForkIs(t.Keys, path, k, k);
  }

  /** The child `c` shares exactly `s` with the path: the whole path becomes a key, and leaves the tree at `s`. */
  lemma LeaveEdge(t: Trie, k: string, c: string, s: string, path: string)
    requires OnWay(t, k, path) && path != k + "/" && c in t[k] && k < s <= path && s < c
    requires |s| < |path| ==> path[|s|] != c[|s|]
    ensures Home(t.Keys, path) == path && Fork(t.Keys, path) == s
  {
    KeepsFinalSlash(t, k, c, s, path);
    assert Ordered(k, t[k]) && c in t;
    hide Shape;
    hide Home;
    if |s| < |path| {
      assert s <= path && s != path;
      forall m | m in t ensures !(path[..|s| + 1] <= m) {
        LeavesInsideEdge(t, k, c, s, path, m);
      }
    }
    ForkIs(t.Keys, path, s, c);
  }

  lemma KeepsFinalSlash(t: Trie, k: string, c: string, s: string, path: string)
    requires OnWay(t, k, path) && path != k + "/" && c in t[k] && k < s <= path && s < c
    requires |s| < |path| ==> path[|s|] != c[|s|]
    ensures Home(t.Keys, path) == path
  {
    assert Ordered(k, t[k]);
    var m := path[..|path| - 1];
    if EndsWithSlash(path) && m in t {
      assert path == m + "/";
      assert k < m;
      OnTheWay(t, k, c, path, m);
    }
  }

  lemma LeavesInsideEdge(t: Trie, k: string, c: string, s: string, path: string, m: string)
    requires Shape(t) && k in t && c in t[k] && k < s < path && s < c && m in t
    requires path[|s|] != c[|s|]
    ensures !(path[..|s| + 1] <= m)
  {
    var front := path[..|s| + 1];
    if front <= m {
      assert k < m && c[|k|] == s[|k|] == front[|k|] == m[|k|];
      assert m[|s|] == front[|s|];
      OnTheWay(t, k, c, m, m);
    }
  }
}
