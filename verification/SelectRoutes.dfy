/** Which fields get a select, by the route from a root, and how many there may be. */
module SelectRoutes {
  import opened GraphSyntax
  import opened FieldForest
  import opened SelectWorklist

  /**
   A route leads from a root to a field over composite fields, none of them a keyword, of which each but the last is
   compiled as a table or passed through.
   */
  ghost predicate Route(f: seq<Field>, verdict: int -> Verdict, route: seq<int>) {
    && route != [] && (forall k {:trigger route[k]} :: 0 <= k < |route| ==> 0 <= route[k] < |f| && f[route[k]].ftype != Keyword)
    && f[route[0]].parent == -1
    && forall k {:trigger route[k]} :: 0 < k < |route| ==>
         && f[route[k]].parent == route[k - 1] && f[route[k]].children != []
         && verdict(route[k - 1]) in {Table, Passthrough}
  }

  ghost predicate RoutedTo(f: seq<Field>, verdict: int -> Verdict, i: int) {
    exists route {:trigger Route(f, verdict, route)} :: Route(f, verdict, route) && route[|route| - 1] == i
  }

  /** A field is reached exactly if a route leads to it. */
  lemma {:induction false} ReachedByRoute(f: seq<Field>, verdict: int -> Verdict, i: int)
    requires Ordered(f) && 0 <= i < |f|
    ensures Reached(f, verdict, i) <==> RoutedTo(f, verdict, i)
    decreases i
  {
    var p := f[i].parent;
    if p >= 0 {
      ReachedByRoute(f, verdict, p);
    }
    if Reached(f, verdict, i) {
      if p == -1 {
        assert Route(f, verdict, [i]);
      } else {
        var route :| Route(f, verdict, route) && route[|route| - 1] == p;
        RouteGrows(f, verdict, route, i);
      }
    }
    if route :| Route(f, verdict, route) && route[|route| - 1] == i && |route| > 1 {
      RouteShrinks(f, verdict, route);
    }
  }

  lemma RouteGrows(f: seq<Field>, verdict: int -> Verdict, route: seq<int>, i: int)
    requires Route(f, verdict, route) && 0 <= i < |f| && f[i].ftype != Keyword
    requires f[i].parent == route[|route| - 1] && f[i].children != [] && verdict(f[i].parent) in {Table, Passthrough}
    ensures RoutedTo(f, verdict, i)
  {
    var r := route + [i];
    forall k {:trigger r[k]} | 0 <= k < |r| ensures r[k] == if k < |route| then route[k] else i {
    }
    assert Route(f, verdict, r);
  }

  lemma RouteShrinks(f: seq<Field>, verdict: int -> Verdict, route: seq<int>)
    requires Route(f, verdict, route) && |route| > 1
    ensures RoutedTo(f, verdict, route[|route| - 2])
    ensures f[route[|route| - 1]].parent == route[|route| - 2] && f[route[|route| - 1]].children != []
    ensures verdict(route[|route| - 2]) in {Table, Passthrough}
  {
    var n := |route| - 1;
    assert f[route[n]].parent == route[n - 1] && f[route[n]].children != [] && verdict(route[n - 1]) in {Table, Passthrough};
    var r := route[..n];
    assert r[n - 1] == route[n - 1];
    assert Route(f, verdict, r);
  }

  /** The selects fit if there are fewer than 100 of them, or 100 and the first root is no keyword; there must be one. */
  lemma RoutesFit(f: seq<Field>, verdict: int -> Verdict)
    requires Ordered(f) && f != []
    ensures var n := |set i | 0 <= i < |f| && RoutedTo(f, verdict, i)|;
      Fits(f, verdict) <==> 0 < n && n <= (if f[0].ftype == Keyword then 99 else 100)
  {
    forall i | 0 <= i < |f| ensures Reached(f, verdict, i) <==> RoutedTo(f, verdict, i) {
      ReachedByRoute(f, verdict, i);
    }
    assert ReachedSet(f, verdict) == set i | 0 <= i < |f| && RoutedTo(f, verdict, i);
  }

  /** Nothing is refused if no field with a route to it is. */
  lemma RoutesAccepted(f: seq<Field>, verdict: int -> Verdict)
    requires Ordered(f)
    ensures NoneRejected(f, verdict) <==> forall i {:trigger verdict(i)} :: 0 <= i < |f| && RoutedTo(f, verdict, i) ==> verdict(i) != Rejected
  {
    forall i | 0 <= i < |f| ensures Reached(f, verdict, i) <==> RoutedTo(f, verdict, i) {
      ReachedByRoute(f, verdict, i);
    }
  }
}
