/** The router of internal/router/router.go: a list of routes, and a trie that is rebuilt from it when dirty. */
module RouteTable {
  import opened Wrappers
  import opened Routes
  import opened RouteOrder
  import opened RadixIndex

  predicate HasId(routes: seq<Route>, id: string) {
    exists i | 0 <= i < |routes| :: routes[i].id == id
  }

  function FirstWithId(routes: seq<Route>, id: string): (r: Route)
    requires HasId(routes, id)
    ensures r in routes && r.id == id
  {
    if routes[0].id == id then routes[0] else FirstWithId(routes[1..], id)
  }

  /** The list without its first route with the id. */
  function Without(routes: seq<Route>, id: string): seq<Route> {
    if routes == [] then []
    else if routes[0].id == id then routes[1..]
    else [routes[0]] + Without(routes[1..], id)
  }

  lemma {:induction false} FirstIs(routes: seq<Route>, i: nat, id: string)
    requires i < |routes| && routes[i].id == id && forall j | 0 <= j < i :: routes[j].id != id
    ensures HasId(routes, id) && FirstWithId(routes, id) == routes[i]
    ensures Without(routes, id) == routes[..i] + routes[i + 1..]
  {
    if i > 0 {
      FirstIs(routes[1..], i - 1, id);
      assert routes[..i] == [routes[0]] + routes[1..][..i - 1];
    }
  }

  lemma {:induction false} NoneIs(routes: seq<Route>, id: string)
    requires !HasId(routes, id)
    ensures Without(routes, id) == routes
  {
    if routes != [] {
      assert routes[0].id != id;
      assert forall i | 0 <= i < |routes[1..]| :: routes[1..][i] == routes[i + 1];
      NoneIs(routes[1..], id);
    }
  }

  /** The pattern of the route starts with "/", or there is none. */
  ghost predicate CanBeFound(route: Route) {
    var pattern := if route.rule.pathExact != "" then route.rule.pathExact else route.rule.pathPrefix;
    pattern == "" || pattern[0] == '/'
  }

  /** What the caller is promised of an answer: none only if the request meets no route that can be found; otherwise one
      of the routes, which it meets, and no other such route has a pattern longer by more than one byte. */
  ghost predicate Answers(req: Request, routes: seq<Route>, regex: RegexOracle, answer: Route?) {
    if answer == null then forall r | r in routes && CanBeFound(r) :: !Meets(req, r, regex)
    else
      && answer in routes && Meets(req, answer, regex) && CanBeFound(answer)
      && forall r | r in routes && CanBeFound(r) && Meets(req, r, regex) :: |Pattern(r)| <= |Pattern(answer)| + 1
  }

  lemma AcceptsIff(req: Request, route: Route, regex: RegexOracle)
    ensures Accepts(req, route, regex) <==> CanBeFound(route) && Meets(req, route, regex)
  {
    PassesIff(req, route, regex);
    hide Meets;
    hide Passes;
  }

  lemma AnswersOfBest(routes: seq<Route>, req: Request, regex: RegexOracle)
    ensures var best := Best(IndexOf(routes).placed, req, regex);
            Answers(req, routes, regex, if best.None? then null else best.value.route)
  {
    hide IndexOf;
    hide Best;
    hide Accepts;
    hide Meets;
    hide CanBeFound;
    IndexRefinesScan(routes, req, regex);
    forall r: Route
      ensures Accepts(req, r, regex) <==> CanBeFound(r) && Meets(req, r, regex)
    {
      AcceptsIff(req, r, regex);
    }
  }

  class Router {
    var routes: seq<Route>
    var tree: RadixTree
    var dirty: bool
    var selectors: map<string, object>   // a selector for each strategy; all routes share it
    const regex: RegexOracle
    ghost var built: seq<Route>   // what the tree was last built from

    ghost predicate Valid()
      reads this, tree, tree.model.repr
    {
      tree.Valid() && tree.Contents() == IndexOf(built)
    }

    /** The routes the next request is matched against. */
    ghost function Indexed(): seq<Route>
      reads this
    {
      if dirty then routes else built
    }

    /** The index answers for the current list. */
    ghost predicate InSync()
      reads this
    {
      Indexed() == routes
    }

    constructor (regex: RegexOracle, selectors: map<string, object>)
      ensures Valid() && InSync() && routes == [] && fresh(tree) && fresh(tree.model.repr)
      ensures this.regex == regex && this.selectors == selectors
    {
      this.routes, this.built, this.dirty, this.regex, this.selectors := [], [], true, regex, selectors;
      hide RadixTree.Valid;
      hide RadixTree.Contents;
      hide IndexOf;
      this.tree := new RadixTree();
    }

    method AddRoute(route: Route)
      requires Valid()
      modifies this`routes, this`dirty
      ensures Valid() && InSync() && routes == old(routes) + [route]
    {
      hide RadixTree.Valid;
      hide IndexOf;
      routes := routes + [route];
      dirty := true;
    }

    /** Removes the first route with the id; the index is not told. */
    method RemoveRoute(id: string)
      requires Valid()
      modifies this`routes
      ensures Valid()
      ensures routes == Without(old(routes), id)
      ensures Indexed() == if old(dirty) then routes else old(Indexed())
      ensures old(InSync()) ==> (InSync() <==> old(dirty) || !HasId(old(routes), id))
    {
      hide RadixTree.Valid;
      hide IndexOf;
      for i := 0 to |routes|
        invariant routes == old(routes) && dirty == old(dirty) && built == old(built)
        invariant forall j | 0 <= j < i :: routes[j].id != id
      {
        if routes[i].id == id {
          FirstIs(routes, i, id);
          routes := routes[..i] + routes[i + 1..];
          return;
        }
      }
      NoneIs(routes, id);
    }

    /** Takes over the other router's routes, and its selectors where it has some. */
    method SwapRoutes(newRouter: Router)
      requires Valid()
      modifies this`routes, this`selectors, this`dirty
      ensures Valid() && InSync() && routes == old(newRouter.routes)
      ensures selectors == old(selectors) + old(newRouter.selectors)
    {
      hide RadixTree.Valid;
      hide IndexOf;
      routes := newRouter.routes;
      var others := newRouter.selectors;
      var todo := others.Keys;
      while todo != {}
        invariant routes == old(newRouter.routes) && todo <= others.Keys
        invariant selectors.Keys == old(selectors).Keys + (others.Keys - todo)
        invariant forall k | k in selectors :: selectors[k] == if k in others && k !in todo then others[k] else old(selectors)[k]
        decreases todo
      {
        var k :| k in todo;
        selectors := selectors[k := others[k]];
        todo := todo - {k};
      }
      assert selectors == old(selectors) + others;
      dirty := true;
    }

    method RebuildTree()
      requires Valid()
      modifies this`tree, this`dirty, this`built
      ensures Valid() && !dirty && built == old(Indexed())
      ensures old(dirty) ==> fresh(tree) && fresh(tree.model.repr)
      ensures !old(dirty) ==> tree == old(tree)
    {
      hide RadixTree.Valid;
      hide IndexOf;
      if !dirty {
        return;
      }
      var t := new RadixTree();
      for i := 0 to |routes|
        invariant fresh(t) && fresh(t.model.repr) && t.Valid() && t.Contents() == IndexOf(routes[..i])
        invariant routes == old(routes)
      {
        t.Insert(routes[i]);
        IndexOfNext(routes, i);
        assert routes[..i + 1][..i] == routes[..i];
      }
      assert routes[..|routes|] == routes;
      tree, dirty, built := t, false, routes;
    }

    /** Marks every backend with the address, whichever routes share it. */
    method UpdateBackendHealth(address: string, healthy: bool)
      requires Valid()
      modifies (set r, b | r in routes && b in r.backends :: b)`healthy
      ensures Valid() && Indexed() == old(Indexed())
      ensures forall r, b | r in routes && b in r.backends ::
                b.healthy == if b.address == address then healthy else old(b.healthy)
    {
      hide RadixTree.Valid;
      hide IndexOf;
      ghost var all := set r, b | r in routes && b in r.backends :: b;
      ghost var done: set<Backend> := {};
      for i := 0 to |routes|
        invariant forall b | b in all :: b.healthy == if b in done
            && b.address == address then healthy else old(b.healthy)
        invariant forall j, b | 0 <= j < i && b in routes[j].backends :: b in done
      {
        var backends := routes[i].backends;
        for n := 0 to |backends|
          invariant forall b | b in all :: b.healthy == if b in done
              && b.address == address then healthy else old(b.healthy)
          invariant forall j, b | 0 <= j < i && b in routes[j].backends :: b in done
          invariant forall j | 0 <= j < n :: backends[j] in done
        {
          var b := backends[n];
          assert routes[i] in routes && b in routes[i].backends;
          assert b in all;
          if b.address == address {
            b.healthy := healthy;
          }
          done := done + {b};
        }
      }
    }

    /** Gives the first route with the id other backends. */
    method UpdateBackends(routeID: string, backends: seq<Backend>)
      requires Valid()
      modifies set r | r in routes :: r`backends
      ensures Valid() && Indexed() == old(Indexed())
      ensures forall r | r in routes ::
                r.backends == if HasId(routes, routeID)
                    && r == FirstWithId(routes, routeID) then backends else old(r.backends)
    {
      hide RadixTree.Valid;
      hide IndexOf;
      for i := 0 to |routes|
        invariant forall r | r in routes :: r.backends == old(r.backends)
        invariant forall j | 0 <= j < i :: routes[j].id != routeID
      {
        if routes[i].id == routeID {
          FirstIs(routes, i, routeID);
          routes[i].backends := backends;
          return;
        }
      }
    }

    /** Walks the candidates from the back and takes the first that passes. */
    method LastThatPasses(candidates: seq<Route>, req: Request, ghost order: seq<Placed>) returns (route: Route?)
      requires candidates == RoutesOf(order)
      ensures var last := LastPassing(order, req, regex);
              if last.None? then route == null else route == last.value.route
    {
      var i := |candidates| - 1;
      assert order[..|candidates|] == order;
      while i >= 0
        invariant -1 <= i < |candidates|
        invariant LastPassing(order, req, regex) == LastPassing(order[..i + 1], req, regex)
      {
        route := candidates[i];
        assert order[..i + 1][..i] == order[..i];
        if MatchRulePath(req, route.rule, regex) {
          if MatchMethod(req, route.rule.methods) {
            if !(|route.rule.headers| > 0 && !MatchHeaders(req, route.rule.headers)) {
              return;
            }
          }
        }
        i := i - 1;
      }
      return null;
    }

    method Match(req: Request) returns (route: Route?)
      requires Valid()
      modifies this`tree, this`dirty, this`built
      ensures Valid() && Indexed() == old(Indexed()) && (InSync() <==> old(InSync()))
      ensures var best := Best(IndexOf(Indexed()).placed, req, regex);
              if best.None? then route == null else route == best.value.route
      ensures InSync() ==> Answers(req, routes, regex, route)
    {
      hide RadixTree.Valid;
      hide IndexOf;
      hide Best;
      hide LastPassing;
      hide StableSort;
      hide VisibleIn;
      hide Answers;
      RebuildTree();
      var candidates := tree.Lookup(req.path);
      ghost var placed := tree.placed;
      IndexPlacesAll(built);
      DescentSorts(placed, req.path);
      WalkIsLinearScan(placed, req, regex);
      route := LastThatPasses(candidates, req, StableSort(VisibleIn(placed, req.path)));
      AnswersOfBest(built, req, regex);
    }
  }
}
