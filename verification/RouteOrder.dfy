/** What the route index answers, stated on sequences of routes without any tree.

    A placed route carries the string spelled by the tree node that holds it (its home). */
module RouteOrder {
  import opened Wrappers
  import opened Routes

  datatype Placed = Placed(route: Route, home: string)

  /** The pattern `Insert` files a route under; "" for a route with only a regular expression. */
  function Pattern(route: Route): string {
    if route.rule.pathExact != "" then route.rule.pathExact else route.rule.pathPrefix
  }

  /** The string a search for a pattern spells, from the root: "/" is the root itself, and a
      pattern without a leading "/" is given one. */
  function Spelled(pattern: string): string {
    if pattern == "" || pattern == "/" then ""
    else if pattern[0] == '/' then pattern
    else "/" + pattern
  }

  predicate EndsWithSlash(s: string) {
    s != "" && s[|s| - 1] == '/'
  }

  /** Where a string settles in a tree whose nodes spell `keys`: one final "/" is dropped when a
      node spells the rest. */
  function Home(keys: set<string>, s: string): string {
    if EndsWithSlash(s) && s[..|s| - 1] in keys then s[..|s| - 1] else s
  }

  /** A pattern the index can find again: it starts with "/", or there is none. */
  predicate Rooted(route: Route) {
    Pattern(route) == "" || Pattern(route)[0] == '/'
  }

  /** The home is what the pattern spells, or that without one final "/". */
  predicate WellPlaced(p: Placed) {
    var s := Spelled(Pattern(p.route));
    p.home == s || (EndsWithSlash(s) && p.home == s[..|s| - 1])
  }

  ghost predicate AllWellPlaced(placed: seq<Placed>) {
    forall p | p in placed :: WellPlaced(p)
  }

  // ---------------------------------------------------------------- the index as a value

  /** The nodes' strings and the placed routes, in order of insertion. */
  datatype Index = Index(keys: set<string>, placed: seq<Placed>)

  /** The longest prefix of `h` that leads towards some key: where the way to `h` leaves the tree. */
  ghost function Fork(keys: set<string>, h: string): (s: string)
    ensures s <= h
  {
    if h == "" || exists k | k in keys :: h <= k then h else Fork(keys, h[..|h| - 1])
  }

  /** `Fork` is the prefix of `h` that leads towards a key and cannot be longer. */
  lemma {:induction false} ForkIs(keys: set<string>, h: string, s: string, towards: string)
    requires s <= h && s <= towards && towards in keys
    requires |s| < |h| ==> forall k | k in keys :: !(h[..|s| + 1] <= k)
    ensures Fork(keys, h) == s
  {
    if |s| < |h| {
      var shorter, front := h[..|h| - 1], h[..|s| + 1];
      forall k | k in keys ensures !(h <= k) {
        assert front <= h;
      }
      assert |s| < |shorter| ==> shorter[..|s| + 1] == h[..|s| + 1];
      ForkIs(keys, shorter, s, towards);
    } else {
      assert h == s;
    }
  }

  /** One insertion: the route goes to its home, and the home and its fork become nodes. */
  ghost function Grow(ix: Index, route: Route): Index {
    var h := Home(ix.keys, Spelled(Pattern(route)));
    Index(ix.keys + {h, Fork(ix.keys, h)}, ix.placed + [Placed(route, h)])
  }

  /** The index after inserting `routes` one after the other into an empty tree. */
  ghost function IndexOf(routes: seq<Route>): Index {
    if routes == [] then Index({""}, []) else Grow(IndexOf(routes[..|routes| - 1]), routes[|routes| - 1])
  }

  lemma IndexOfNext(routes: seq<Route>, i: nat)
    requires i < |routes|
    ensures IndexOf(routes[..i + 1]) == Grow(IndexOf(routes[..i]), routes[i])
  {
    assert routes[..i + 1][..i] == routes[..i];
  }

  ghost predicate NoTrailingSlash(routes: seq<Route>) {
    forall r | r in routes :: Pattern(r) == "/" || !EndsWithSlash(Pattern(r))
  }

  /** Insertion places every route, in order, at its pattern or at the pattern without one final "/". */
  lemma {:induction false} IndexPlacesAll(routes: seq<Route>)
    ensures RoutesOf(IndexOf(routes).placed) == routes
    ensures AllWellPlaced(IndexOf(routes).placed)
  {
    if routes != [] {
      var init, last := routes[..|routes| - 1], routes[|routes| - 1];
      hide *;
      IndexPlacesAll(init);
      PlacesOneMore(IndexOf(init), init, last);
      IndexOfAll(routes);
    }
  }

  lemma IndexOfAll(routes: seq<Route>)
    requires routes != []
    ensures var init, last := routes[..|routes| - 1], routes[|routes| - 1];
            IndexOf(routes) == Grow(IndexOf(init), last) && routes == init + [last]
  {
    hide Grow;
  }

  lemma PlacesOneMore(ix: Index, routes: seq<Route>, route: Route)
    requires AllWellPlaced(ix.placed) && RoutesOf(ix.placed) == routes
    ensures RoutesOf(Grow(ix, route).placed) == routes + [route] && AllWellPlaced(Grow(ix, route).placed)
  {
    GrowPlaces(ix, route);
  }

  lemma GrowPlaces(ix: Index, route: Route)
    requires AllWellPlaced(ix.placed)
    ensures RoutesOf(Grow(ix, route).placed) == RoutesOf(ix.placed) + [route]
    ensures AllWellPlaced(Grow(ix, route).placed)
  {
    var after := Grow(ix, route).placed;
    assert after[..|ix.placed|] == ix.placed;
  }

  /** No pattern loses a final "/": whenever one is inserted, the rest of it is not yet a key. */
  ghost predicate KeptWhole(routes: seq<Route>) {
    forall i | 0 <= i < |routes| :: KeptAt(routes, i)
  }

  ghost predicate KeptAt(routes: seq<Route>, i: nat)
    requires i < |routes|
  {
    var s := Spelled(Pattern(routes[i]));
    EndsWithSlash(s) ==> s[..|s| - 1] !in IndexOf(routes[..i]).keys
  }

  /** Each route's home depends on the keys there are when it is inserted. */
  lemma {:induction false} HomeAt(routes: seq<Route>, i: nat)
    requires i < |routes|
    ensures i < |IndexOf(routes).placed|
    ensures IndexOf(routes).placed[i]
         == Placed(routes[i], Home(IndexOf(routes[..i]).keys, Spelled(Pattern(routes[i]))))
  {
    hide *;
    var n := |routes| - 1;
    var init := routes[..n];
    IndexOfAll(routes);
    GrownPlaces(IndexOf(init), init, routes[n]);
    IndexPlacesAll(init);
    SliceOfInit(routes, i);
    if i < n {
      HomeAt(init, i);
    }
  }

  lemma SliceOfInit(routes: seq<Route>, i: nat)
    requires i < |routes|
    ensures i < |routes| - 1 ==> routes[..|routes| - 1][..i] == routes[..i] && routes[..|routes| - 1][i] == routes[i]
  {
  }

  lemma GrownPlaces(ix: Index, routes: seq<Route>, route: Route)
    ensures var after := Grow(ix, route).placed;
            && |after| == |ix.placed| + 1 && (forall i | 0 <= i < |ix.placed| :: after[i] == ix.placed[i])
            && after[|ix.placed|] == Placed(route, Home(ix.keys, Spelled(Pattern(route))))
    ensures RoutesOf(ix.placed) == routes ==> |ix.placed| == |routes|
  {
    hide Home;
    hide Fork;
  }

  lemma KeptAtIff(routes: seq<Route>, i: nat)
    requires i < |routes|
    ensures i < |IndexOf(routes).placed|
    ensures KeptAt(routes, i) <==> IndexOf(routes).placed[i] == Canonical(routes)[i]
  {
    HomeAt(routes, i);
    hide IndexOf;
  }

  /** Every pattern is filed whole if and only if none loses its final "/" when it is inserted. */
  lemma KeptWholeIff(routes: seq<Route>)
    ensures KeptWhole(routes) <==> IndexOf(routes).placed == Canonical(routes)
  {
    IndexPlacesAll(routes);
    var placed, whole := IndexOf(routes).placed, Canonical(routes);
    hide IndexOf;
    hide RoutesOf;
    hide AllWellPlaced;
    hide KeptAt;
    forall i | 0 <= i < |routes|
      ensures KeptAt(routes, i) <==> placed[i] == whole[i]
    {
      KeptAtIff(routes, i);
    }
    hide Canonical;
    SamePlaces(placed, whole);
  }

  lemma SamePlaces(a: seq<Placed>, b: seq<Placed>)
    requires |a| == |b|
    ensures a == b <==> forall i | 0 <= i < |a| :: a[i] == b[i]
  {
  }

  /** When no pattern but "/" ends in "/", every pattern is kept whole. */
  lemma NoTrailingSlashIsKept(routes: seq<Route>)
    requires NoTrailingSlash(routes)
    ensures KeptWhole(routes)
  {
    forall i | 0 <= i < |routes|
      ensures KeptAt(routes, i)
    {
      assert routes[i] in routes;
      assert !EndsWithSlash(Spelled(Pattern(routes[i])));
    }
  }

  ghost predicate HomesIn(placed: seq<Placed>, keys: set<string>) {
    forall p | p in placed :: p.home in keys
  }

  function RoutesOf(placed: seq<Placed>): (routes: seq<Route>)
    ensures |routes| == |placed|
    ensures forall i | 0 <= i < |placed| :: routes[i] == placed[i].route
  {
    if placed == [] then [] else RoutesOf(placed[..|placed| - 1]) + [placed[|placed| - 1].route]
  }

  /** The placement in which every pattern is kept whole. */
  function Canonical(routes: seq<Route>): (placed: seq<Placed>)
    ensures |placed| == |routes|
    ensures forall i | 0 <= i < |placed| :: placed[i] == Placed(routes[i], Spelled(Pattern(routes[i])))
  {
    seq(|routes|, i requires 0 <= i < |routes| => Placed(routes[i], Spelled(Pattern(routes[i]))))
  }

  /** An exact pattern is shown only to the path it equals. */
  predicate Shown(route: Route, path: string) {
    route.rule.pathExact != "" ==> path == route.rule.pathExact
  }

  /** The routes placed at `key`, in order of insertion. */
  function AtHome(placed: seq<Placed>, key: string): seq<Placed> {
    if placed == [] then []
    else
      var rest, last := AtHome(placed[..|placed| - 1], key), placed[|placed| - 1];
      if last.home == key then rest + [last] else rest
  }

  /** The routes whose home lies on `path` and that are shown to it, in order of insertion. */
  function VisibleIn(placed: seq<Placed>, path: string): seq<Placed> {
    if placed == [] then []
    else
      var rest, last := VisibleIn(placed[..|placed| - 1], path), placed[|placed| - 1];
      if last.home <= path && Shown(last.route, path) then rest + [last] else rest
  }

  /** What a descent along `path` collects from the nodes that spell at least `from` of it. */
  function Candidates(placed: seq<Placed>, path: string, from: nat): seq<Placed>
    decreases |path| + 1 - from
  {
    if from > |path| then []
    else VisibleIn(AtHome(placed, path[..from]), path) + Candidates(placed, path, from + 1)
  }

  // ---------------------------------------------------------------- stable sorting

  /** Puts `p` behind everything that is not longer. */
  function InsertByLength(sorted: seq<Placed>, p: Placed): seq<Placed> {
    if sorted == [] || |sorted[|sorted| - 1].home| <= |p.home| then
      sorted + [p]
    else
      InsertByLength(sorted[..|sorted| - 1], p) + [sorted[|sorted| - 1]]
  }

  /** Stable insertion sort by home length. */
  function StableSort(placed: seq<Placed>): seq<Placed> {
    if placed == [] then []
    else InsertByLength(StableSort(placed[..|placed| - 1]), placed[|placed| - 1])
  }

  ghost predicate SortedByLength(placed: seq<Placed>) {
    forall i, j | 0 <= i < j < |placed| :: |placed[i].home| <= |placed[j].home|
  }

  /** `StableSort` sorts. */
  lemma {:induction false} StableSortSorts(placed: seq<Placed>)
    ensures SortedByLength(StableSort(placed))
    ensures multiset(StableSort(placed)) == multiset(placed)
  {
    if placed != [] {
      assert placed == placed[..|placed| - 1] + [placed[|placed| - 1]];
      StableSortSorts(placed[..|placed| - 1]);
      InsertKeepsSorted(StableSort(placed[..|placed| - 1]), placed[|placed| - 1]);
    }
  }

  lemma {:induction false} InsertKeepsSorted(sorted: seq<Placed>, p: Placed)
    requires SortedByLength(sorted)
    ensures SortedByLength(InsertByLength(sorted, p))
    ensures multiset(InsertByLength(sorted, p)) == multiset(sorted) + multiset{p}
  {
    if sorted == [] || |sorted[|sorted| - 1].home| <= |p.home| {
    } else {
      var init, last := sorted[..|sorted| - 1], sorted[|sorted| - 1];
      assert sorted == init + [last];
      InsertKeepsSorted(init, p);
      var r := InsertByLength(init, p);
      hide InsertByLength;
      forall q | q in r ensures |q.home| <= |last.home| {
        assert q in multiset(r);
        assert q in init || q == p;
      }
    }
  }

  /** `StableSort` keeps the order of routes with the same home length. */
  lemma {:induction false} StableSortIsStable(placed: seq<Placed>, length: nat)
    ensures OfLength(StableSort(placed), length) == OfLength(placed, length)
  {
    if placed != [] {
      StableSortIsStable(placed[..|placed| - 1], length);
      StableSortSorts(placed[..|placed| - 1]);
      InsertIsStable(StableSort(placed[..|placed| - 1]), placed[|placed| - 1], length);
    }
  }

  function OfLength(placed: seq<Placed>, length: nat): seq<Placed> {
    if placed == [] then []
    else
      var rest, last := OfLength(placed[..|placed| - 1], length), placed[|placed| - 1];
      if |last.home| == length then rest + [last] else rest
  }

  lemma {:induction false} InsertIsStable(sorted: seq<Placed>, p: Placed, length: nat)
    requires SortedByLength(sorted)
    ensures OfLength(InsertByLength(sorted, p), length)
         == if |p.home| == length then OfLength(sorted, length) + [p] else OfLength(sorted, length)
  {
    if sorted == [] || |sorted[|sorted| - 1].home| <= |p.home| {
      assert (sorted + [p])[..|sorted|] == sorted;
    } else {
      var init, last := sorted[..|sorted| - 1], sorted[|sorted| - 1];
      InsertIsStable(init, p, length);
      var r := InsertByLength(init, p);
      assert (r + [last])[..|r|] == r;
      if |p.home| == length {
        assert |last.home| != length;
      }
    }
  }

  // ---------------------------------------------------------------- the descent sorts

  /** The exact order of the index: a descent along `path` is a stable sort, by home length, of
      the routes visible on the path. */
  lemma {:induction false} DescentSorts(placed: seq<Placed>, path: string)
    ensures Candidates(placed, path, 0) == StableSort(VisibleIn(placed, path))
  {
    if placed == [] {
      NothingPlaced(path, 0);
    } else {
      var init, last := placed[..|placed| - 1], placed[|placed| - 1];
      DescentSorts(init, path);
      OneMorePlaced(placed, path, 0);
      var seen := VisibleIn(init, path);
      if last.home <= path && Shown(last.route, path) {
        assert (seen + [last])[..|seen|] == seen;
      }
    }
  }

  /** The order of the index when every pattern is kept whole, as without any final "/" but that of "/" itself: a stable
      sort, by pattern length, of the routes that match the path, "/" and regex-only routes counting as length 0. */
  lemma ExactOrder(routes: seq<Route>, path: string)
    requires KeptWhole(routes)
    ensures Candidates(IndexOf(routes).placed, path, 0) == StableSort(VisibleIn(Canonical(routes), path))
  {
    KeptWholeIff(routes);
    DescentSorts(Canonical(routes), path);
  }

  /** A lookup of this path lists the matching routes in that order. */
  ghost predicate ListsExactly(routes: seq<Route>, path: string) {
    RoutesOf(Candidates(IndexOf(routes).placed, path, 0)) == RoutesOf(StableSort(VisibleIn(Canonical(routes), path)))
  }

  /** No exact pattern but "/" ends in "/". */
  ghost predicate NoExactSlash(routes: seq<Route>) {
    forall r | r in routes && r.rule.pathExact != "" :: !EndsWithSlash(Spelled(r.rule.pathExact))
  }

  lemma {:induction false} VisibleCount(placed: seq<Placed>, whole: seq<Placed>, path: string)
    requires |placed| == |whole| && forall k | 0 <= k < |placed| :: placed[k].route == whole[k].route
    requires forall k | 0 <= k < |placed| && whole[k].home <= path :: placed[k].home <= path
    ensures |VisibleIn(whole, path)| <= |VisibleIn(placed, path)|
    ensures forall k | 0 <= k < |placed| && placed[k].home <= path && !(whole[k].home <= path) && Shown(placed[k].route, path) ::
              |VisibleIn(whole, path)| < |VisibleIn(placed, path)|
  {
    if placed != [] {
      VisibleCount(placed[..|placed| - 1], whole[..|whole| - 1], path);
    }
  }

  lemma SortKeepsSize(placed: seq<Placed>)
    ensures |StableSort(placed)| == |placed|
  {
    StableSortSorts(placed);
    assert |multiset(StableSort(placed))| == |multiset(placed)|;
  }

  /** What a dropped "/" breaks: a lookup of the rest lists the prefix route, which does not match it. */
  lemma DroppedSlashIsListed(routes: seq<Route>, i: nat)
    requires i < |routes| && routes[i].rule.pathExact == "" && !KeptAt(routes, i)
    ensures var s := Spelled(Pattern(routes[i]));
            var rest := s[..|s| - 1];
            && !(s <= rest) && Placed(routes[i], rest) in Candidates(IndexOf(routes).placed, rest, 0)
            && !ListsExactly(routes, rest)
  {
    var s, placed, whole := Spelled(Pattern(routes[i])), IndexOf(routes).placed, Canonical(routes);
    var rest := s[..|s| - 1];
    HomeAt(routes, i);
    assert placed[i] == Placed(routes[i], rest) && whole[i].home == s && Shown(routes[i], rest);
    HomesAreShorter(routes);
    hide *;
    DescentSorts(placed, rest);
    VisibleIsListed(placed, rest, i);
    ListsMore(placed, whole, rest, i);
  }

  lemma HomesAreShorter(routes: seq<Route>)
    ensures var placed, whole := IndexOf(routes).placed, Canonical(routes);
            && |placed| == |whole| == |routes|
            && forall k | 0 <= k < |routes| :: placed[k].route == whole[k].route && placed[k].home <= whole[k].home
  {
    IndexPlacesAll(routes);
    var placed := IndexOf(routes).placed;
    hide IndexOf;
    forall k | 0 <= k < |routes|
      ensures placed[k].route == routes[k] && placed[k].home <= Spelled(Pattern(routes[k]))
    {
      assert placed[k] in placed && WellPlaced(placed[k]);
    }
  }

  /** The i-th route is listed although its pattern is not on the path, and every other one is listed as before. */
  lemma ListsMore(placed: seq<Placed>, whole: seq<Placed>, path: string, i: nat)
    requires i < |placed| == |whole|
    requires forall k | 0 <= k < |placed| :: placed[k].route == whole[k].route && placed[k].home <= whole[k].home
    requires placed[i].home <= path && !(whole[i].home <= path) && Shown(placed[i].route, path)
    ensures RoutesOf(StableSort(VisibleIn(placed, path))) != RoutesOf(StableSort(VisibleIn(whole, path)))
  {
    VisibleCount(placed, whole, path);
    SortKeepsSize(VisibleIn(placed, path));
    SortKeepsSize(VisibleIn(whole, path));
  }

  lemma VisibleIsListed(placed: seq<Placed>, path: string, i: nat)
    requires i < |placed| && placed[i].home <= path && Shown(placed[i].route, path)
    ensures placed[i] in StableSort(VisibleIn(placed, path))
  {
    VisibleInHolds(placed, path);
    StableSortSorts(VisibleIn(placed, path));
    assert placed[i] in multiset(VisibleIn(placed, path));
  }

  /** Without exact patterns that end in "/", every lookup lists exactly the matching routes, in the exact order, if and
      only if every pattern was kept whole. */
  lemma ExactOrderIff(routes: seq<Route>)
    requires NoExactSlash(routes)
    ensures KeptWhole(routes) <==> forall path :: ListsExactly(routes, path)
  {
    if KeptWhole(routes) {
      forall path
        ensures ListsExactly(routes, path)
      {
        ExactOrder(routes, path);
      }
    } else {
      var i: nat :| i < |routes| && !KeptAt(routes, i);
      assert routes[i] in routes;
      DroppedSlashIsListed(routes, i);
    }
  }

  /** Which routes those are: an exact pattern equal to the path, a prefix pattern of it, "/" and no pattern. */
  lemma CanonicalVisible(route: Route, path: string)
    requires Rooted(route)
    ensures var s := Spelled(Pattern(route));
            s <= path && Shown(route, path)
            <==> if route.rule.pathExact != "" then path == route.rule.pathExact
                 else route.rule.pathPrefix == "/" || route.rule.pathPrefix <= path
  {
  }

  lemma {:induction false} NothingPlaced(path: string, from: nat)
    ensures Candidates([], path, from) == []
    decreases |path| + 1 - from
  {
    if from <= |path| {
      NothingPlaced(path, from + 1);
    }
  }

  /** Placing one more route inserts it into the collected ones, if it is seen from `from` on. */
  lemma {:induction false} OneMorePlaced(placed: seq<Placed>, path: string, from: nat)
    requires placed != []
    ensures var init, last := placed[..|placed| - 1], placed[|placed| - 1];
            Candidates(placed, path, from)
            == if last.home <= path && Shown(last.route, path) && from <= |last.home|
               then InsertByLength(Candidates(init, path, from), last)
               else Candidates(init, path, from)
    decreases |path| + 1 - from
  {
    if from <= |path| {
      var init, last := placed[..|placed| - 1], placed[|placed| - 1];
      var key := path[..from];
      OneMorePlaced(placed, path, from + 1);
      OneMoreHere(placed, path, key);
      VisibleAtHome(init, key, path);
      CandidatesAreDeep(init, path, from + 1);
      HomeIsPrefix(last.home, path, from);
      InsertBetween(VisibleIn(AtHome(init, key), path), Candidates(init, path, from + 1), last, from);
      hide InsertByLength;
      hide AtHome;
      hide VisibleIn;
    }
  }

  lemma HomeIsPrefix(home: string, path: string, from: nat)
    requires from <= |path|
    ensures home <= path ==> (home == path[..from] <==> |home| == from)
  {
  }

  lemma InsertBetween(here: seq<Placed>, rest: seq<Placed>, p: Placed, from: nat)
    requires (forall q | q in here :: |q.home| == from) && (forall q | q in rest :: from < |q.home|)
    ensures |p.home| == from ==> here + [p] + rest == InsertByLength(here + rest, p)
    ensures |p.home| > from ==> InsertByLength(here + rest, p) == here + InsertByLength(rest, p)
  {
    if |p.home| == from {
      InsertInFront(rest, p);
      InsertBehind(here, rest, p);
      assert here + [p] + rest == here + ([p] + rest);
    } else if |p.home| > from {
      InsertBehind(here, rest, p);
    }
  }

  lemma OneMoreHere(placed: seq<Placed>, path: string, key: string)
    requires placed != []
    ensures var init, last := placed[..|placed| - 1], placed[|placed| - 1];
            VisibleIn(AtHome(placed, key), path)
            == if last.home == key && last.home <= path && Shown(last.route, path)
               then VisibleIn(AtHome(init, key), path) + [last]
               else VisibleIn(AtHome(init, key), path)
  {
    var held, last := AtHome(placed[..|placed| - 1], key), placed[|placed| - 1];
    assert (held + [last])[..|held|] == held;
  }

  lemma {:induction false} VisibleAtHome(placed: seq<Placed>, key: string, path: string)
    ensures forall p | p in VisibleIn(AtHome(placed, key), path) :: p.home == key
  {
    AtHomeHolds(placed, key);
    VisibleInHolds(AtHome(placed, key), path);
  }

  ghost predicate NoneAt(placed: seq<Placed>, key: string) {
    forall p | p in placed :: p.home != key
  }

  lemma {:induction false} AtHomeHolds(placed: seq<Placed>, key: string)
    ensures forall p | p in AtHome(placed, key) :: p in placed && p.home == key
    ensures forall p | p in placed && p.home == key :: p in AtHome(placed, key)
    ensures NoneAt(placed, key) ==> AtHome(placed, key) == []
  {
    if placed != [] {
      AtHomeHolds(placed[..|placed| - 1], key);
    }
  }

  /** What of a node's list is shown to a path. */
  function ShownOf(routes: seq<Route>, path: string): seq<Route> {
    if routes == [] then []
    else
      var rest, last := ShownOf(routes[..|routes| - 1], path), routes[|routes| - 1];
      if Shown(last, path) then rest + [last] else rest
  }

  lemma {:induction false} ShownOnTheWay(placed: seq<Placed>, path: string)
    requires forall p | p in placed :: p.home <= path
    ensures ShownOf(RoutesOf(placed), path) == RoutesOf(VisibleIn(placed, path))
  {
    if placed != [] {
      var init, last := placed[..|placed| - 1], placed[|placed| - 1];
      assert last in placed;
      ShownOnTheWay(init, path);
      assert RoutesOf(placed)[..|init|] == RoutesOf(init);
      var seen := VisibleIn(init, path);
      assert (seen + [last])[..|seen|] == seen;
    }
  }

  lemma {:induction false} RoutesOfConcat(a: seq<Placed>, b: seq<Placed>)
    ensures RoutesOf(a + b) == RoutesOf(a) + RoutesOf(b)
  {
  }

  /** No route is placed where there is no node yet. */
  lemma NothingAtNew(placed: seq<Placed>, keys: set<string>, key: string)
    requires HomesIn(placed, keys) && key !in keys
    ensures RoutesOf(AtHome(placed, key)) == []
  {
    AtHomeHolds(placed, key);
  }

  lemma RoutesAtHome(placed: seq<Placed>, p: Placed, key: string)
    ensures RoutesOf(AtHome(placed + [p], key))
         == RoutesOf(AtHome(placed, key)) + (if p.home == key then [p.route] else [])
  {
    assert (placed + [p])[..|placed|] == placed;
    var here := AtHome(placed, key);
    assert (here + [p])[..|here|] == here;
    assert RoutesOf(here) + [] == RoutesOf(here);
  }

  lemma {:induction false} VisibleInHolds(placed: seq<Placed>, path: string)
    ensures forall p | p in VisibleIn(placed, path) :: p in placed && p.home <= path && Shown(p.route, path)
    ensures forall p | p in placed && p.home <= path && Shown(p.route, path) :: p in VisibleIn(placed, path)
  {
    if placed != [] {
      VisibleInHolds(placed[..|placed| - 1], path);
    }
  }

  lemma {:induction false} CandidatesAreDeep(placed: seq<Placed>, path: string, from: nat)
    ensures forall p | p in Candidates(placed, path, from) :: from <= |p.home|
    decreases |path| + 1 - from
  {
    if from <= |path| {
      CandidatesAreDeep(placed, path, from + 1);
      VisibleAtHome(placed, path[..from], path);
    }
  }

  lemma {:induction false} InsertInFront(longer: seq<Placed>, p: Placed)
    requires forall q | q in longer :: |p.home| < |q.home|
    ensures InsertByLength(longer, p) == [p] + longer
  {
    if longer != [] {
      var init, last := longer[..|longer| - 1], longer[|longer| - 1];
      assert last in longer && forall q | q in init :: q in longer;
      InsertInFront(init, p);
      assert longer == init + [last];
      assert [p] + init + [last] == [p] + (init + [last]);
    }
  }

  lemma {:induction false} InsertBehind(shorter: seq<Placed>, rest: seq<Placed>, p: Placed)
    requires forall q | q in shorter :: |q.home| <= |p.home|
    ensures InsertByLength(shorter + rest, p) == shorter + InsertByLength(rest, p)
  {
    if rest == [] {
      assert shorter + rest == shorter;
      assert shorter != [] ==> shorter[|shorter| - 1] in shorter;
    } else {
      var init, last := rest[..|rest| - 1], rest[|rest| - 1];
      assert (shorter + rest)[..|shorter + rest| - 1] == shorter + init;
      if |last.home| <= |p.home| {
        assert shorter + rest + [p] == shorter + (rest + [p]);
      } else {
        InsertBehind(shorter, init, p);
      }
    }
  }

  /** Nothing is collected from stretches of the path that no home ends in. */
  lemma {:induction false} CandidatesSkip(placed: seq<Placed>, path: string, from: nat, to: nat)
    requires from <= to <= |path| + 1
    requires forall k | from <= k < to :: NoneAt(placed, path[..k])
    ensures Candidates(placed, path, from) == Candidates(placed, path, to)
    decreases |path| + 1 - from
  {
    if from < to {
      hide NoneAt;
      AtHomeHolds(placed, path[..from]);
      CandidatesSkip(placed, path, from + 1, to);
    }
  }

  // ---------------------------------------------------------------- everything below some keys

  ghost predicate LedTo(keys: seq<string>, home: string) {
    exists k | k in keys :: k <= home
  }

  ghost function RouteBag(placed: seq<Placed>): multiset<Route> {
    multiset(RoutesOf(placed))
  }

  /** What is placed at or below one of the keys, in order of insertion. */
  ghost function Under(placed: seq<Placed>, keys: seq<string>): seq<Placed> {
    if placed == [] then []
    else
      var rest, last := Under(placed[..|placed| - 1], keys), placed[|placed| - 1];
      if LedTo(keys, last.home) then rest + [last] else rest
  }

  lemma {:induction false} UnderRoot(placed: seq<Placed>)
    ensures Under(placed, [""]) == placed
  {
    if placed != [] {
      UnderRoot(placed[..|placed| - 1]);
      assert "" in [""] && "" <= placed[|placed| - 1].home;
    }
  }

  lemma {:induction false} UnderNothing(placed: seq<Placed>)
    ensures Under(placed, []) == []
  {
    if placed != [] {
      UnderNothing(placed[..|placed| - 1]);
    }
  }

  /** Below `k` is what is placed at `k` and what is placed below its children. */
  lemma {:induction false} UnderSplits(placed: seq<Placed>, k: string, kids: seq<string>)
    requires forall c | c in kids :: k < c
    requires forall p | p in placed && k <= p.home :: p.home == k || LedTo(kids, p.home)
    ensures RouteBag(Under(placed, [k])) == RouteBag(AtHome(placed, k)) + RouteBag(Under(placed, kids))
  {
    if placed != [] {
      hide *;
      var init, last := placed[..|placed| - 1], placed[|placed| - 1];
      assert last in placed && forall p | p in init :: p in placed;
      UnderSplits(init, k, kids);
      UnderStep(placed, [k]);
      UnderStep(placed, kids);
      AtHomeStep(placed, k);
      LedBelow(k, kids, last.home);
      AddUp(RouteBag(Under(init, [k])), RouteBag(AtHome(init, k)), RouteBag(Under(init, kids)), last.route);
    }
  }

  lemma AddUp(all: multiset<Route>, here: multiset<Route>, below: multiset<Route>, r: Route)
    requires all == here + below
    ensures all + multiset{r} == here + multiset{r} + below == here + (below + multiset{r})
    ensures forall bag: multiset<Route> :: bag + multiset{} == bag
  {
  }

  lemma AtHomeStep(placed: seq<Placed>, k: string)
    requires placed != []
    ensures var init, last := placed[..|placed| - 1], placed[|placed| - 1];
            RouteBag(AtHome(placed, k))
            == RouteBag(AtHome(init, k)) + (if last.home == k then multiset{last.route} else multiset{})
  {
    RoutesOfSnoc(AtHome(placed[..|placed| - 1], k), placed[|placed| - 1]);
  }

  lemma LedBelow(k: string, kids: seq<string>, home: string)
    requires forall c | c in kids :: k < c
    requires k <= home ==> home == k || LedTo(kids, home)
    ensures LedTo([k], home) <==> home == k || LedTo(kids, home)
    ensures !(home == k && LedTo(kids, home))
  {
    assert k in [k];
  }

  /** Below one more key that is not comparable with the others. */
  lemma {:induction false} UnderOneMore(placed: seq<Placed>, keys: seq<string>, c: string)
    requires forall k | k in keys :: !(k <= c) && !(c <= k)
    ensures RouteBag(Under(placed, keys + [c]))
         == RouteBag(Under(placed, keys)) + RouteBag(Under(placed, [c]))
  {
    if placed != [] {
      hide RouteBag;
      hide Under;
      UnderOneMore(placed[..|placed| - 1], keys, c);
      UnderStep(placed, keys + [c]);
      UnderStep(placed, keys);
      UnderStep(placed, [c]);
      LedToOneMore(keys, c, placed[|placed| - 1].home);
    }
  }

  lemma LedToOneMore(keys: seq<string>, c: string, home: string)
    requires forall k | k in keys :: !(k <= c) && !(c <= k)
    ensures LedTo(keys + [c], home) <==> LedTo(keys, home) || LedTo([c], home)
    ensures !(LedTo(keys, home) && LedTo([c], home))
  {
    assert c in [c] && c in keys + [c];
    assert forall k | k in keys :: k in keys + [c];
    forall k | k in keys && k <= home ensures !(c <= home) {
      if c <= home {
        PrefixesCompare(k, c, home);
      }
    }
  }

  lemma UnderStep(placed: seq<Placed>, keys: seq<string>)
    requires placed != []
    ensures var init, last := placed[..|placed| - 1], placed[|placed| - 1];
            RouteBag(Under(placed, keys))
            == RouteBag(Under(init, keys)) + (if LedTo(keys, last.home) then multiset{last.route} else multiset{})
  {
    RoutesOfSnoc(Under(placed[..|placed| - 1], keys), placed[|placed| - 1]);
  }

  lemma RoutesOfSnoc(placed: seq<Placed>, p: Placed)
    ensures RoutesOf(placed + [p]) == RoutesOf(placed) + [p.route]
  {
  }

  // ---------------------------------------------------------------- choosing a route

  /** The last element that passes, as a walk from the back finds it. */
  function LastPassing(placed: seq<Placed>, req: Request, regex: RegexOracle): Option<Placed> {
    if placed == [] then None
    else if Passes(req, placed[|placed| - 1].route, regex) then Some(placed[|placed| - 1])
    else LastPassing(placed[..|placed| - 1], req, regex)
  }

  /** What a scan over all routes would accept. */
  predicate Accepts(req: Request, route: Route, regex: RegexOracle) {
    Passes(req, route, regex) && Rooted(route)
  }

  predicate Eligible(p: Placed, req: Request, regex: RegexOracle) {
    Accepts(req, p.route, regex)
  }

  /** One linear scan over the routes: the deepest eligible home wins, then the latest insertion. */
  function Best(placed: seq<Placed>, req: Request, regex: RegexOracle): Option<Placed> {
    if placed == [] then None
    else
      var best, last := Best(placed[..|placed| - 1], req, regex), placed[|placed| - 1];
      if Eligible(last, req, regex) && (best.None? || |best.value.home| <= |last.home|) then Some(last)
      else best
  }

  /** `placed[i]` is eligible, nothing eligible is deeper, and later ones are less deep. */
  ghost predicate IsDeepestThenLatest(placed: seq<Placed>, i: nat, req: Request, regex: RegexOracle) {
    && i < |placed|
    && Eligible(placed[i], req, regex)
    && (forall j | 0 <= j < |placed| && Eligible(placed[j], req, regex) ::
          if j <= i then |placed[j].home| <= |placed[i].home| else |placed[j].home| < |placed[i].home|)
  }

  /** What the scan means. */
  lemma {:induction false} BestIsDeepestThenLatest(placed: seq<Placed>, req: Request,
      regex: RegexOracle) returns (i: nat)
    ensures Best(placed, req, regex).None? <==> forall p | p in placed :: !Eligible(p, req, regex)
    ensures Best(placed, req, regex).Some? ==>
              IsDeepestThenLatest(placed, i, req, regex) && Best(placed, req, regex).value == placed[i]
  {
    i := 0;
    if placed != [] {
      var init, n := placed[..|placed| - 1], |placed| - 1;
      i := BestIsDeepestThenLatest(init, req, regex);
      assert placed == init + [placed[n]];
      var before := Best(init, req, regex);
      if Eligible(placed[n], req, regex) && (before.None? || |before.value.home| <= |placed[n].home|) {
        i := n;
      }
    }
  }

  /** The index refines a linear scan: it finds a route exactly when some rooted route passes; that
      route passes, and no passing route's pattern is longer by more than one byte. */
  lemma IndexRefinesScan(routes: seq<Route>, req: Request, regex: RegexOracle)
    ensures var best := Best(IndexOf(routes).placed, req, regex);
            if best.None? then
              forall r | r in routes :: !Accepts(req, r, regex)
            else
              && best.value.route in routes && Accepts(req, best.value.route, regex)
              && (forall r | r in routes && Accepts(req, r, regex) :: |Pattern(r)| <= |Pattern(best.value.route)| + 1)
  {
    hide IndexOf;
    hide RoutesOf;
    hide Accepts;
    hide Best;
    var placed := IndexOf(routes).placed;
    IndexPlacesAll(routes);
    SameRoutes(placed);
    ScanMeaning(placed, req, regex);
  }

  lemma ScanMeaning(placed: seq<Placed>, req: Request, regex: RegexOracle)
    requires AllWellPlaced(placed)
    ensures var best := Best(placed, req, regex);
            if best.None? then
              forall p | p in placed :: !Accepts(req, p.route, regex)
            else
              && best.value in placed && Accepts(req, best.value.route, regex)
              && (forall p | p in placed && Accepts(req, p.route,
                  regex) :: |Pattern(p.route)| <= |Pattern(best.value.route)| + 1)
  {
    var n := BestIsDeepestThenLatest(placed, req, regex);
    var best := Best(placed, req, regex);
    if best.Some? {
      assert placed[n] in placed;
      HomeLength(placed[n]);
      forall p | p in placed && Accepts(req, p.route,
          regex) ensures |Pattern(p.route)| <= |Pattern(best.value.route)| + 1 {
        assert Eligible(p, req, regex);
        HomeLength(p);
      }
    }
  }

  lemma SameRoutes(placed: seq<Placed>)
    ensures forall r | r in RoutesOf(placed) :: exists i :: 0 <= i < |placed| && placed[i].route == r
    ensures forall p | p in placed :: p.route in RoutesOf(placed)
  {
    var routes := RoutesOf(placed);
    forall r | r in routes ensures exists i :: 0 <= i < |placed| && placed[i].route == r {
      var i :| 0 <= i < |routes| && routes[i] == r;
      assert placed[i].route == r;
    }
    forall p | p in placed ensures p.route in routes {
      var i :| 0 <= i < |placed| && placed[i] == p;
      assert routes[i] == p.route;
    }
  }

  lemma HomeLength(p: Placed)
    requires WellPlaced(p) && Rooted(p.route)
    ensures |p.home| <= |Pattern(p.route)| <= |p.home| + 1
  {
  }

  /** When every pattern is kept whole the longest passing pattern wins, the latest insertion among equals. */
  lemma IndexIsLongestThenLatest(routes: seq<Route>, req: Request, regex: RegexOracle)
    requires KeptWhole(routes)
    ensures Best(IndexOf(routes).placed, req, regex) == Best(Canonical(routes), req, regex)
  {
    KeptWholeIff(routes);
  }

  ghost predicate HasPrefixOnly(route: Route, prefix: string) {
    route.rule == MatchRule(prefix, "", "", [], map[])
  }

  /** With a final "/" the longest passing pattern can lose to a later one: "/a/" shares the node of "/a". */
  lemma FinalSlashCanLose(a: Route, b: Route, c: Route, regex: RegexOracle)
    requires HasPrefixOnly(a, "/a") && HasPrefixOnly(b, "/a/") && HasPrefixOnly(c, "/a")
    ensures var req := Request("GET", "/a/x", map[]);
            && Accepts(req, b, regex)
            && Best(IndexOf([a, b, c]).placed, req, regex) == Some(Placed(c, "/a"))
  {
    var req, init := Request("GET", "/a/x", map[]), [Placed(a, "/a"), Placed(b, "/a")];
    SharesTheNode(a, b, c);
    assert "/a" <= req.path && "/a/" <= req.path;
    assert Eligible(Placed(c, "/a"), req, regex);
    var i := BestIsDeepestThenLatest(init, req, regex);
    assert (init + [Placed(c, "/a")])[..2] == init;
  }

  lemma SharesTheNode(a: Route, b: Route, c: Route)
    requires HasPrefixOnly(a, "/a") && HasPrefixOnly(b, "/a/") && HasPrefixOnly(c, "/a")
    ensures IndexOf([a, b, c]).placed == [Placed(a, "/a"), Placed(b, "/a")] + [Placed(c, "/a")]
  {
    hide Fork;
    assert [a, b, c][..2] == [a, b] && [a, b][..1] == [a] && [a][..0] == [];
    assert "/a/"[..2] == "/a";
    assert IndexOf([]) == Index({""}, []);
    assert IndexOf([a]).placed == [Placed(a, "/a")] && "/a" in IndexOf([a]).keys;
    assert IndexOf([a, b]).placed == [Placed(a, "/a")] + [Placed(b, "/a")];
  }

  // When the longest passing pattern wins, for routes that test nothing but a prefix.

  ghost predicate IsPrefixRoute(route: Route) {
    HasPrefixOnly(route, route.rule.pathPrefix) && route.rule.pathPrefix != "" && route.rule.pathPrefix[0] == '/'
  }

  ghost predicate PrefixRoutes(routes: seq<Route>) {
    forall r | r in routes :: IsPrefixRoute(r)
  }

  ghost predicate LongestWins(routes: seq<Route>, req: Request, regex: RegexOracle) {
    var best := Best(IndexOf(routes).placed, req, regex);
    best.Some? ==> forall r | r in routes && Passes(req, r, regex) :: |Pattern(r)| <= |Pattern(best.value.route)|
  }

  /** Route i lost its final "/" to the node of route j, which was inserted later and is the pattern without it. */
  ghost predicate Overtakes(placed: seq<Placed>, j: nat, i: nat) {
    && i < j < |placed|
    && placed[i].home == placed[j].home == Spelled(Pattern(placed[j].route))
    && Spelled(Pattern(placed[i].route)) == placed[j].home + "/"
  }

  /** Some route has the pattern `s` and was kept whole, or was inserted after route j. */
  ghost predicate Rescued(placed: seq<Placed>, j: nat, s: string) {
    exists m | 0 <= m < |placed| :: Spelled(Pattern(placed[m].route)) == s && (placed[m].home == s || j < m)
  }

  ghost predicate NothingLost(placed: seq<Placed>) {
    forall i: nat, j: nat | Overtakes(placed, j, i) :: Rescued(placed, j, placed[j].home + "/")
  }

  /** What is placed passes exactly when what it spells is a prefix of the path, for paths that begin with "/". */
  lemma PrefixPasses(placed: seq<Placed>, k: nat, req: Request, regex: RegexOracle)
    requires PrefixRoutes(RoutesOf(placed)) && AllWellPlaced(placed) && k < |placed|
    ensures var s := Spelled(Pattern(placed[k].route));
            && IsPrefixRoute(placed[k].route) && WellPlaced(placed[k])
            && (Eligible(placed[k], req, regex) <==> Passes(req, placed[k].route, regex))
            && (Eligible(placed[k], req, regex) ==> s <= req.path)
            && (s <= req.path && "/" <= req.path ==> Eligible(placed[k], req, regex))
            && |Pattern(placed[k].route)| == (if s == "" then 1 else |s|) && (s != "" ==> |s| >= 2)
            && |s| - 1 <= |placed[k].home| <= |s| && (s != "" ==> "/" <= s)
  {
    assert placed[k] in placed;
    var routes := RoutesOf(placed);
    assert routes[k] in routes;
  }

  /** If nothing is lost the longest passing pattern wins. */
  lemma RescuedWins(routes: seq<Route>, req: Request, regex: RegexOracle, k: nat)
    requires PrefixRoutes(routes) && NothingLost(IndexOf(routes).placed)
    requires k < |routes| && Passes(req, routes[k], regex)
    ensures var best := Best(IndexOf(routes).placed, req, regex);
            best.Some? && |Pattern(routes[k])| <= |Pattern(best.value.route)|
  {
    var placed := IndexOf(routes).placed;
    IndexPlacesAll(routes);
    var i := BestIsDeepestThenLatest(placed, req, regex);
    PrefixPasses(placed, k, req, regex);
    hide IndexOf;
    hide Best;
    hide Passes;
    assert placed[k] in placed && placed[k].route == routes[k];
    RescueBeats(placed, k, i, req, regex);
  }

  lemma RescueBeats(placed: seq<Placed>, k: nat, i: nat, req: Request, regex: RegexOracle)
    requires PrefixRoutes(RoutesOf(placed)) && AllWellPlaced(placed) && NothingLost(placed)
    requires k < |placed| && Eligible(placed[k], req, regex)
    requires IsDeepestThenLatest(placed, i, req, regex)
    ensures |Pattern(placed[k].route)| <= |Pattern(placed[i].route)|
  {
    PrefixPasses(placed, k, req, regex);
    PrefixPasses(placed, i, req, regex);
    if |Pattern(placed[k].route)| > |Pattern(placed[i].route)| {
      DeepestBlocks(placed, k, i, req, regex);
      DeeperLoses(placed, k, i, req.path);
      hide *;
      var m: nat := Rescuer(placed, i, k);
      PrefixPasses(placed, m, req, regex);
      DeepestBlocks(placed, m, i, req, regex);
    }
  }

  lemma DeepestBlocks(placed: seq<Placed>, m: nat, i: nat, req: Request, regex: RegexOracle)
    requires IsDeepestThenLatest(placed, i, req, regex) && m < |placed| && Eligible(placed[m], req, regex)
    ensures |placed[m].home| <= |placed[i].home| && (i < m ==> |placed[m].home| < |placed[i].home|)
  {
  }

  /** The same pattern, kept whole or inserted later. */
  lemma Rescuer(placed: seq<Placed>, j: nat, i: nat) returns (m: nat)
    requires NothingLost(placed) && i < |placed| && j < |placed| && i != j
    requires i > j ==> |placed[i].home| < |placed[j].home|
    requires placed[i].home == placed[j].home == Spelled(Pattern(placed[j].route))
    requires Spelled(Pattern(placed[i].route)) == placed[j].home + "/"
    ensures m < |placed| && Spelled(Pattern(placed[m].route)) == Spelled(Pattern(placed[i].route))
    ensures |placed[m].home| > |placed[j].home| || j < m
  {
    assert Overtakes(placed, j, i);
    m :| m < |placed| && Spelled(Pattern(placed[m].route)) == placed[j].home + "/"
         && (placed[m].home == placed[j].home + "/" || j < m);
  }

  /** A longer pattern that is not deeper lost its final "/" to the other's node. */
  lemma DeeperLoses(placed: seq<Placed>, k: nat, i: nat, path: string)
    requires k < |placed| && i < |placed| && WellPlaced(placed[k]) && WellPlaced(placed[i])
    requires IsPrefixRoute(placed[k].route) && IsPrefixRoute(placed[i].route)
    requires Spelled(Pattern(placed[k].route)) <= path && Spelled(Pattern(placed[i].route)) <= path
    requires |Pattern(placed[k].route)| > |Pattern(placed[i].route)| && |placed[k].home| <= |placed[i].home|
    ensures placed[k].home == placed[i].home == Spelled(Pattern(placed[i].route))
    ensures Spelled(Pattern(placed[k].route)) == placed[i].home + "/"
  {
    var s, t := Spelled(Pattern(placed[k].route)), Spelled(Pattern(placed[i].route));
    assert |s| > |t|;
    assert |placed[k].home| == |s| - 1 == |t| == |placed[i].home|;
    assert s[..|s| - 1] == path[..|t|] == t;
  }

  /** When a dropped "/" is not made good, a request for that pattern gets a shorter one. */
  lemma LostLoses(routes: seq<Route>, regex: RegexOracle, i: nat, j: nat)
    requires PrefixRoutes(routes) && Overtakes(IndexOf(routes).placed, j, i)
    requires !Rescued(IndexOf(routes).placed, j, IndexOf(routes).placed[j].home + "/")
    ensures !LongestWins(routes, Request("GET", IndexOf(routes).placed[j].home + "/", map[]), regex)
  {
    var placed := IndexOf(routes).placed;
    var req := Request("GET", placed[j].home + "/", map[]);
    IndexPlacesAll(routes);
    var n := BestIsDeepestThenLatest(placed, req, regex);
    PrefixPasses(placed, i, req, regex);
    PrefixPasses(placed, j, req, regex);
    hide IndexOf;
    hide Best;
    assert placed[i] in placed && routes[i] in routes && placed[i].route == routes[i];
    ShorterWins(placed, i, j, n, req, regex);
  }

  lemma ShorterWins(placed: seq<Placed>, i: nat, j: nat, n: nat, req: Request, regex: RegexOracle)
    requires PrefixRoutes(RoutesOf(placed)) && AllWellPlaced(placed) && Overtakes(placed, j, i)
    requires req.path == placed[j].home + "/" && !Rescued(placed, j, req.path)
    requires IsDeepestThenLatest(placed, n, req, regex)
    ensures |Pattern(placed[n].route)| < |Pattern(placed[i].route)|
  {
    hide *;
    DeepestIsEligible(placed, n, req, regex);
    OvertakenSpells(placed, j, i);
    PrefixPasses(placed, i, req, regex);
    PrefixPasses(placed, j, req, regex);
    PrefixPasses(placed, n, req, regex);
    NotRescued(placed, j, n, req.path);
    DeepestBlocks(placed, j, n, req, regex);
    WholePrefix(Spelled(Pattern(placed[n].route)), req.path);
  }

  lemma DeepestIsEligible(placed: seq<Placed>, n: nat, req: Request, regex: RegexOracle)
    requires IsDeepestThenLatest(placed, n, req, regex)
    ensures n < |placed| && Eligible(placed[n], req, regex)
  {
  }

  lemma OvertakenSpells(placed: seq<Placed>, j: nat, i: nat)
    requires Overtakes(placed, j, i)
    ensures i < j < |placed|
    ensures var s, t := Spelled(Pattern(placed[i].route)), Spelled(Pattern(placed[j].route));
            t == placed[j].home && s == t + "/" && s != "" && t <= s && |s| == |t| + 1
  {
  }

  lemma WholePrefix(s: string, path: string)
    ensures s <= path ==> |s| <= |path| && (|s| == |path| ==> s == path)
  {
  }

  lemma NotRescued(placed: seq<Placed>, j: nat, m: nat, s: string)
    requires !Rescued(placed, j, s) && m < |placed| && WellPlaced(placed[m])
    ensures Spelled(Pattern(placed[m].route)) == s ==> |placed[m].home| == |s| - 1 && m <= j
  {
    hide Spelled;
    hide Pattern;
  }

  /** The longest passing pattern wins for every request if and only if each pattern that lost its final "/", and was
      followed by the pattern without it, was also kept whole once or inserted once more after that. */
  lemma LongestWinsIff(routes: seq<Route>, regex: RegexOracle)
    requires PrefixRoutes(routes)
    ensures NothingLost(IndexOf(routes).placed) <==> forall req :: LongestWins(routes, req, regex)
  {
    hide IndexOf;
    hide Best;
    if NothingLost(IndexOf(routes).placed) {
      forall req, r | r in routes && Passes(req, r, regex)
        ensures Best(IndexOf(routes).placed, req, regex).Some?
        ensures |Pattern(r)| <= |Pattern(Best(IndexOf(routes).placed, req, regex).value.route)|
      {
        var k: nat :| k < |routes| && routes[k] == r;
        RescuedWins(routes, req, regex, k);
      }
    } else {
      var i: nat, j: nat :| Overtakes(IndexOf(routes).placed, j, i)
                            && !Rescued(IndexOf(routes).placed, j, IndexOf(routes).placed[j].home + "/");
      LostLoses(routes, regex, i, j);
    }
  }

  // ---------------------------------------------------------------- patterns without a leading "/"

  /** A list of one passing route finds it exactly when its pattern is rooted. */
  lemma FoundExactlyWhenRooted(route: Route, req: Request, regex: RegexOracle)
    requires Passes(req, route, regex)
    ensures LastPassing(Candidates(IndexOf([route]).placed, req.path, 0), req, regex).Some? <==> Rooted(route)
  {
    var placed := IndexOf([route]).placed;
    IndexPlacesAll([route]);
    WalkIsLinearScan(placed, req, regex);
    var i := BestIsDeepestThenLatest(placed, req, regex);
    hide IndexOf;
    hide Best;
    hide LastPassing;
    assert placed[0] in placed && placed[0].route == route;
  }

  /** A route whose pattern has no leading "/" passes and yet is not found. */
  lemma UnrootedIsLost(route: Route, regex: RegexOracle)
    requires HasPrefixOnly(route, "api")
    ensures var req := Request("GET", "api/x", map[]);
            && Passes(req, route, regex)
            && LastPassing(Candidates(IndexOf([route]).placed, req.path, 0), req, regex) == None
  {
    var req := Request("GET", "api/x", map[]);
    assert "api" <= req.path;
    FoundExactlyWhenRooted(route, req, regex);
  }

  /** A passing route is visible on the request's path exactly when its pattern is rooted. */
  lemma PassingIsVisible(p: Placed, req: Request, regex: RegexOracle)
    requires WellPlaced(p) && Passes(req, p.route, regex)
    ensures Rooted(p.route) <==> p.home <= req.path
    ensures Shown(p.route, req.path)
  {
    var pattern := Pattern(p.route);
    var s := Spelled(pattern);
    assert pattern <= req.path;
    if Rooted(p.route) {
      assert s <= pattern;
    } else {
      assert s[0] == '/' && |s| >= 2;
      assert p.home[0] == '/' != req.path[0];
    }
  }

  lemma {:induction false} LastPassingOfInsert(sorted: seq<Placed>, p: Placed, req: Request, regex: RegexOracle)
    requires SortedByLength(sorted)
    ensures var best := LastPassing(sorted, req, regex);
            LastPassing(InsertByLength(sorted, p), req, regex)
            == if Passes(req, p.route, regex) && (best.None? || |best.value.home| <= |p.home|) then Some(p) else best
  {
    LastPassingIsMember(sorted, req, regex);
    if sorted == [] || |sorted[|sorted| - 1].home| <= |p.home| {
      assert (sorted + [p])[..|sorted|] == sorted;
    } else {
      var init, last := sorted[..|sorted| - 1], sorted[|sorted| - 1];
      LastPassingOfInsert(init, p, req, regex);
      var r := InsertByLength(init, p);
      assert (r + [last])[..|r|] == r;
    }
  }

  lemma {:induction false} LastPassingIsMember(placed: seq<Placed>, req: Request, regex: RegexOracle)
    ensures LastPassing(placed, req, regex).Some? ==> LastPassing(placed, req, regex).value in placed
  {
    if placed != [] {
      LastPassingIsMember(placed[..|placed| - 1], req, regex);
    }
  }

  /** The walk from the back of the index's answer is the linear scan over all placed routes. */
  lemma {:induction false} WalkIsLinearScan(placed: seq<Placed>, req: Request, regex: RegexOracle)
    requires AllWellPlaced(placed)
    ensures LastPassing(Candidates(placed, req.path, 0), req, regex) == Best(placed, req, regex)
  {
    DescentSorts(placed, req.path);
    SortedWalk(placed, req, regex);
  }

  lemma {:induction false} SortedWalk(placed: seq<Placed>, req: Request, regex: RegexOracle)
    requires AllWellPlaced(placed)
    ensures LastPassing(StableSort(VisibleIn(placed, req.path)), req, regex) == Best(placed, req, regex)
  {
    if placed != [] {
      var init, last := placed[..|placed| - 1], placed[|placed| - 1];
      assert last in placed && WellPlaced(last);
      assert forall p | p in init :: p in placed;
      SortedWalk(init, req, regex);
      OneMoreVisible(placed, req.path);
      OneMoreScanned(placed, req, regex);
      StableSortSorts(VisibleIn(init, req.path));
      LastPassingOfInsert(StableSort(VisibleIn(init, req.path)), last, req, regex);
      if Passes(req, last.route, regex) {
        PassingIsVisible(last, req, regex);
      }
      hide Best;
      hide StableSort;
      hide VisibleIn;
      hide LastPassing;
      hide InsertByLength;
      hide Passes;
      hide WellPlaced;
      hide Rooted;
    }
  }

  lemma OneMoreVisible(placed: seq<Placed>, path: string)
    requires placed != []
    ensures var init, last := placed[..|placed| - 1], placed[|placed| - 1];
            StableSort(VisibleIn(placed, path))
            == if last.home <= path && Shown(last.route, path)
               then InsertByLength(StableSort(VisibleIn(init, path)), last)
               else StableSort(VisibleIn(init, path))
  {
    var seen, last := VisibleIn(placed[..|placed| - 1], path), placed[|placed| - 1];
    assert (seen + [last])[..|seen|] == seen;
  }

  lemma OneMoreScanned(placed: seq<Placed>, req: Request, regex: RegexOracle)
    requires placed != []
    ensures var best, last := Best(placed[..|placed| - 1], req, regex), placed[|placed| - 1];
            Best(placed, req, regex)
            == if Eligible(last, req, regex) && (best.None? || |best.value.home| <= |last.home|) then Some(last) else best
  {
  }
}
