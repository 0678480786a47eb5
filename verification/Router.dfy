/**
  Request routing: exact routes in a map, prefix routes in a list kept sorted by descending length.
 */
module Routers {
  import opened Lex
  import opened Decimal

  type Verb = string

  /** A handler is named by a number; None is an empty `std::function`. */
  type Handler = Option<nat>

  datatype Entry = Entry(verb: Verb, prefix: string, handler: Handler)

  /** What dispatching does: run a handler with a path suffix, answer "not found", or raise because an
      exact route has an empty handler. */
  datatype Action = Call(handler: nat, suffix: string) | NotFound | EmptyPrefixHandler | BadCall

  ghost predicate LongestFirst(routes: seq<Entry>) {
    forall i, j :: 0 <= i < j < |routes| ==> |routes[i].prefix| >= |routes[j].prefix|
  }

  predicate Matches(e: Entry, verb: Verb, path: string) {
    e.verb == verb && e.prefix <= path
  }

  class Router {
    var exact: map<(Verb, string), Handler>
    var prefixes: seq<Entry>

    ghost predicate Valid()
      reads this
    {
      LongestFirst(prefixes)
    }

    constructor ()
      ensures Valid() && exact == map[] && prefixes == []
    {
      exact, prefixes := map[], [];
    }

    method AddRoute(verb: Verb, path: string, handler: Handler)
      requires Valid()
      modifies this`exact
      ensures Valid() && exact == old(exact)[(verb, path) := handler]
    {
      exact := exact[(verb, path) := handler];
    }

    /** Appends the entry and sorts the list again; among equal lengths any order may result. */
    method AddPrefix(verb: Verb, prefix: string, handler: Handler)
      requires Valid()
      modifies this`prefixes
      ensures Valid()
      ensures multiset(prefixes) == multiset(old(prefixes)) + multiset{Entry(verb, prefix, handler)}
    {
      var routes := prefixes + [Entry(verb, prefix, handler)];
      prefixes := SortByLength(routes);
    }

    method Dispatch(verb: Verb, path: string) returns (a: Action)
      requires Valid()
      ensures IsDispatch(exact, multiset(prefixes), verb, path, a)
    {
      if (verb, path) in exact {
        var h := exact[(verb, path)];
        return if h.Some? then Call(h.value, "") else BadCall;
      }
      var i := 0;
      while i < |prefixes|
        invariant 0 <= i <= |prefixes|
        invariant forall j :: 0 <= j < i ==> !Matches(prefixes[j], verb, path)
      {
        var route := prefixes[i];
        if route.verb == verb && route.prefix <= path {
          assert route in multiset(prefixes);
          assert Best(multiset(prefixes), verb, path, route);
          return if route.handler.Some? then Call(route.handler.value, path[|route.prefix|..]) else EmptyPrefixHandler;
        }
        i := i + 1;
      }
      forall e | e in multiset(prefixes) ensures !Matches(e, verb, path) { assert e in prefixes; }
      return NotFound;
    }
  }

  /** `std::sort` by descending prefix length: an insertion sort that places the later of two equally
      long entries on either side. */
  method SortByLength(s: seq<Entry>) returns (r: seq<Entry>)
    ensures LongestFirst(r) && multiset(r) == multiset(s)
  {
    r := [];
    for k := 0 to |s|
      invariant LongestFirst(r) && multiset(r) == multiset(s[..k])
    {
      assert s[..k + 1] == s[..k] + [s[k]];
      r := Insert(r, s[k]);
    }
    assert s[..|s|] == s;
  }

  method Insert(s: seq<Entry>, x: Entry) returns (r: seq<Entry>)
    requires LongestFirst(s)
    ensures LongestFirst(r) && multiset(r) == multiset(s) + multiset{x}
  {
    var p := |s|;
    while p > 0 && |s[p - 1].prefix| <= |x.prefix|
      invariant 0 <= p <= |s|
      invariant forall q :: p <= q < |s| ==> |s[q].prefix| <= |x.prefix|
    {
      if |s[p - 1].prefix| == |x.prefix| {
        if * { break; }
      }
      p := p - 1;
    }
    r := s[..p] + [x] + s[p..];
    Inserted(s, p, x);
  }

  lemma Inserted(s: seq<Entry>, p: nat, x: Entry)
    requires p <= |s| && LongestFirst(s)
    requires (p > 0 ==> |s[p - 1].prefix| >= |x.prefix|) && (p < |s| ==> |s[p].prefix| <= |x.prefix|)
    ensures LongestFirst(s[..p] + [x] + s[p..])
    ensures multiset(s[..p] + [x] + s[p..]) == multiset(s) + multiset{x}
  {
    var r := s[..p] + [x] + s[p..];
    forall i, j | 0 <= i < j < |r| ensures |r[i].prefix| >= |r[j].prefix| {
      assert r[i] == if i < p then s[i] else if i == p then x else s[i - 1];
      assert r[j] == if j < p then s[j] else if j == p then x else s[j - 1];
    }
    InsertedOnce(s, p, x);
  }

  // ----- the specification -----

  /** `e` is a registered entry that matches, and no registered match is longer. */
  ghost predicate Best(routes: multiset<Entry>, verb: Verb, path: string, e: Entry) {
    && e in routes && Matches(e, verb, path)
    && forall o :: o in routes && Matches(o, verb, path) ==> |o.prefix| <= |e.prefix|
  }

  function PrefixAction(e: Entry, path: string): Action
    requires e.prefix <= path
  {
    if e.handler.Some? then Call(e.handler.value, path[|e.prefix|..]) else EmptyPrefixHandler
  }

  /** The exact route if there is one, else a longest matching prefix with the rest of the path as
      suffix, else nothing: stated on what was registered, not on how it is arranged. */
  ghost predicate IsDispatch(exact: map<(Verb, string), Handler>, routes: multiset<Entry>, verb: Verb, path: string,
                             a: Action) {
    if (verb, path) in exact then
      a == (if exact[(verb, path)].Some? then Call(exact[(verb, path)].value, "") else BadCall)
    else if exists e :: e in routes && Matches(e, verb, path) then
      exists e :: Best(routes, verb, path, e) && a == PrefixAction(e, path)
    else a == NotFound
  }

  /** No verb and prefix are registered twice. */
  ghost predicate DistinctRoutes(routes: multiset<Entry>) {
    forall e, o :: e in routes && o in routes && e.verb == o.verb && e.prefix == o.prefix ==> e == o
  }

  /** For distinct registrations the specification leaves one answer, so the order of registration and
      the order of equally long entries do not matter. */
  lemma DispatchUnique(exact: map<(Verb, string), Handler>, routes: multiset<Entry>, verb: Verb, path: string,
                       a: Action, b: Action)
    requires DistinctRoutes(routes)
    requires IsDispatch(exact, routes, verb, path, a) && IsDispatch(exact, routes, verb, path, b)
    ensures a == b
  {
    if (verb, path) !in exact && exists e :: e in routes && Matches(e, verb, path) {
      hide PrefixAction;
      var e :| Best(routes, verb, path, e) && a == PrefixAction(e, path);
      var o :| Best(routes, verb, path, o) && b == PrefixAction(o, path);
      BestUnique(routes, verb, path, e, o);
    }
  }

  lemma BestUnique(routes: multiset<Entry>, verb: Verb, path: string, e: Entry, o: Entry)
    requires DistinctRoutes(routes) && Best(routes, verb, path, e) && Best(routes, verb, path, o)
    ensures e == o
  {
    assert |e.prefix| == |o.prefix|;
    assert e.prefix == path[..|e.prefix|] == o.prefix;
  }

  /** Registrations in some order. */
  datatype Registration = Route(verb: Verb, path: string, handler: Handler) | Prefix(entry: Entry)

  function ExactAfter(regs: seq<Registration>): map<(Verb, string), Handler> {
    if regs == [] then map[] else
      var before := ExactAfter(regs[..|regs| - 1]);
      match regs[|regs| - 1]
      case Route(verb, path, handler) => before[(verb, path) := handler]
      case Prefix(_) => before
  }

  function PrefixesAfter(regs: seq<Registration>): multiset<Entry> {
    if regs == [] then multiset{} else
      var before := PrefixesAfter(regs[..|regs| - 1]);
      match regs[|regs| - 1]
      case Route(_, _, _) => before
      case Prefix(e) => before + multiset{e}
  }

  /** Serving a request after any sequence of registrations. */
  method Serve(regs: seq<Registration>, verb: Verb, path: string) returns (a: Action)
    ensures IsDispatch(ExactAfter(regs), PrefixesAfter(regs), verb, path, a)
  {
    var router := new Router();
    for i := 0 to |regs|
      invariant router.Valid() && fresh(router)
      invariant router.exact == ExactAfter(regs[..i]) && multiset(router.prefixes) == PrefixesAfter(regs[..i])
    {
      assert regs[..i + 1][..i] == regs[..i];
      match regs[i] {
        case Route(v, p, h) => router.AddRoute(v, p, h);
        case Prefix(e) => router.AddPrefix(e.verb, e.prefix, e.handler);
      }
    }
    assert regs[..|regs|] == regs;
    a := router.Dispatch(verb, path);
  }

  /** No exact route and no prefix is registered twice. */
  ghost predicate DistinctRegistrations(regs: seq<Registration>) {
    forall i, j :: 0 <= i < j < |regs| ==> !SameRoute(regs[i], regs[j])
  }

  predicate SameRoute(a: Registration, b: Registration) {
    || (a.Route? && b.Route? && a.verb == b.verb && a.path == b.path)
    || (a.Prefix? && b.Prefix? && a.entry.verb == b.entry.verb && a.entry.prefix == b.entry.prefix)
  }

  lemma LastIsNew(regs: seq<Registration>, r: Registration)
    requires DistinctRegistrations(regs) && regs != [] && r in regs[..|regs| - 1]
    ensures !SameRoute(r, regs[|regs| - 1])
  {
    hide SameRoute;
    var i :| 0 <= i < |regs| - 1 && regs[i] == r;
  }

  lemma {:induction false} ExactMember(regs: seq<Registration>, k: (Verb, string))
    ensures k in ExactAfter(regs) ==> Route(k.0, k.1, ExactAfter(regs)[k]) in regs
    ensures forall h :: Route(k.0, k.1, h) in regs ==> k in ExactAfter(regs)
    ensures DistinctRegistrations(regs) ==> forall h :: Route(k.0, k.1, h) in regs ==> ExactAfter(regs)[k] == h
    decreases |regs|
  {
    if regs != [] {
      var init, last := regs[..|regs| - 1], regs[|regs| - 1];
      assert forall r :: r in regs <==> r in init || r == last;
      assert DistinctRegistrations(regs) ==> DistinctRegistrations(init);
      ExactMember(init, k);
      if DistinctRegistrations(regs) {
        forall h | Route(k.0, k.1, h) in init ensures !SameRoute(Route(k.0, k.1, h), last) {
          LastIsNew(regs, Route(k.0, k.1, h));
        }
      }
    }
  }

  /** Of two registrations of one exact route the later one counts. */
  lemma {:induction false} LastRouteCounts(regs: seq<Registration>, i: nat)
    requires i < |regs| && regs[i].Route?
    requires forall j ::
               i < j < |regs| && regs[j].Route? ==> regs[j].verb != regs[i].verb || regs[j].path != regs[i].path
    ensures (regs[i].verb, regs[i].path) in ExactAfter(regs)
    ensures ExactAfter(regs)[(regs[i].verb, regs[i].path)] == regs[i].handler
    decreases |regs|
  {
    if i < |regs| - 1 { LastRouteCounts(regs[..|regs| - 1], i); }
  }

  lemma {:induction false} PrefixMember(regs: seq<Registration>, e: Entry)
    ensures e in PrefixesAfter(regs) <==> Prefix(e) in regs
    decreases |regs|
  {
    if regs != [] {
      var init, last := regs[..|regs| - 1], regs[|regs| - 1];
      assert forall r :: r in regs <==> r in init || r == last;
      PrefixMember(init, e);
    }
  }

  /** The main result: distinct registrations in two different orders answer every request alike. */
  lemma OrderIrrelevant(regs: seq<Registration>, other: seq<Registration>, verb: Verb, path: string,
                        a: Action, b: Action)
    requires DistinctRegistrations(regs) && DistinctRegistrations(other) && multiset(regs) == multiset(other)
    requires IsDispatch(ExactAfter(regs), PrefixesAfter(regs), verb, path, a)
    requires IsDispatch(ExactAfter(other), PrefixesAfter(other), verb, path, b)
    ensures a == b
  {
    hide IsDispatch;
    forall r ensures r in regs <==> r in other {
      assert r in regs <==> r in multiset(regs);
      assert r in other <==> r in multiset(other);
    }
    SameExact(regs, other);
    assert DistinctRoutes(PrefixesAfter(regs)) by { RoutesDistinct(regs); }
    SameDispatch(ExactAfter(regs), PrefixesAfter(regs), PrefixesAfter(other), regs, other, verb, path, b);
    DispatchUnique(ExactAfter(regs), PrefixesAfter(regs), verb, path, a, b);
  }

  lemma SameExact(regs: seq<Registration>, other: seq<Registration>)
    requires DistinctRegistrations(regs) && DistinctRegistrations(other)
    requires forall r :: r in regs <==> r in other
    ensures ExactAfter(regs) == ExactAfter(other)
  {
    hide ExactAfter, DistinctRegistrations;
    forall k ensures k in ExactAfter(regs) <==> k in ExactAfter(other) {
      ExactMember(regs, k);
      ExactMember(other, k);
    }
    forall k | k in ExactAfter(regs) ensures ExactAfter(regs)[k] == ExactAfter(other)[k] {
      ExactMember(regs, k);
      ExactMember(other, k);
    }
  }

  lemma RoutesDistinct(regs: seq<Registration>)
    requires DistinctRegistrations(regs)
    ensures DistinctRoutes(PrefixesAfter(regs))
  {
    hide PrefixesAfter;
    forall e, o | e in PrefixesAfter(regs) && o in PrefixesAfter(regs) && e.verb == o.verb && e.prefix == o.prefix
      ensures e == o
    {
      PrefixMember(regs, e);
      PrefixMember(regs, o);
      var i :| 0 <= i < |regs| && regs[i] == Prefix(e);
      var j :| 0 <= j < |regs| && regs[j] == Prefix(o);
      assert SameRoute(regs[i], regs[j]) && SameRoute(regs[j], regs[i]);
    }
  }

  lemma SameDispatch(exact: map<(Verb, string), Handler>, routes: multiset<Entry>, others: multiset<Entry>,
                     regs: seq<Registration>, other: seq<Registration>, verb: Verb, path: string, a: Action)
    requires forall r :: r in regs <==> r in other
    requires routes == PrefixesAfter(regs) && others == PrefixesAfter(other)
    requires IsDispatch(exact, others, verb, path, a)
    ensures IsDispatch(exact, routes, verb, path, a)
  {
    hide PrefixesAfter;
    forall e ensures e in routes <==> e in others {
      PrefixMember(regs, e);
      PrefixMember(other, e);
    }
    if (verb, path) !in exact && exists e :: e in others && Matches(e, verb, path) {
      var e :| Best(others, verb, path, e) && a == PrefixAction(e, path);
      assert Best(routes, verb, path, e);
    }
  }
}
