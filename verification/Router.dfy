/** Dispatching a request: the rate limit, the CORS preflight, and the choice of a route. Handlers
    are known by name; the order in which the route table is walked is the hash table's. */
module RouterObject {
  import opened Sequences
  import opened HttpText
  import opened HttpMachine
  import opened UrlCoding
  import opened RateLimit

  type Handler = string
  type Routes = map<string, Handler>

  datatype Outcome = TooMany | Preflight | Handled(handler: Handler) | NotFound

  function MethodToString(verb: HttpMethod): string {
    match verb
    case GET => "GET"
    case POST => "POST"
    case PUT => "PUT"
    case DELETE => "DELETE"
    case HEAD => "HEAD"
    case OPTIONS => "OPTIONS"
    case UNKNOWN => "UNKNOWN"
  }

  predicate IsWildcard(route: string) {
    route != "" && route[|route| - 1] == '*'
  }

  function PrefixOf(route: string): string
    requires IsWildcard(route)
  {
    route[..|route| - 1]
  }

  /** A wildcard route matches every key that starts like it. */
  predicate Matches(route: string, key: string) {
    IsWildcard(route) && PrefixOf(route) <= key
  }

  /** The first matching wildcard in the order of the walk. */
  function FirstMatch(order: seq<string>, key: string): Option<string> {
    if order == [] then None
    else if Matches(order[0], key) then Some(order[0])
    else FirstMatch(order[1..], key)
  }

  /** Exact match, else the first matching wildcard, else the fallback, if there is one. */
  function Choose(routes: Routes, order: seq<string>, fallback: Option<Handler>, key: string): Option<Handler> {
    if key in routes then Some(routes[key])
    else
      match FirstMatch(order, key)
      case Some(route) => if route in routes then Some(routes[route]) else fallback
      case None => fallback
  }

  class Router {
    var routes: Routes
    var fallback: Option<Handler>
    const limiter: Limiter

    constructor (limit: int)
      ensures routes == map[] && fallback == None && fresh(limiter) && limiter.limits == map[] && limiter.limit == limit
    {
      routes, fallback := map[], None;
      limiter := new Limiter(limit);
    }

    method Register(verb: HttpMethod, path: string, handler: Handler)
      modifies `routes
      ensures routes == old(routes)[MethodToString(verb) + ":" + path := handler]
    {
      routes := routes[MethodToString(verb) + ":" + path := handler];
    }

    method RegisterFallback(handler: Handler)
      modifies `fallback
      ensures fallback == Some(handler)
    {
      fallback := Some(handler);
    }

    /** The walk over the table, for a key without a route of its own. */
    method Walk(order: seq<string>, key: string) returns (route: Option<string>)
      ensures route == FirstMatch(order, key)
    {
      for i := 0 to |order|
        invariant FirstMatch(order, key) == FirstMatch(order[i..], key)
      {
        var routeKey := order[i];
        if routeKey != "" && routeKey[|routeKey| - 1] == '*' {
          var prefix := routeKey[..|routeKey| - 1];
          if |key| >= |prefix| && key[..|prefix|] == prefix {
            return Some(routeKey);
          }
        }
      }
      return None;
    }

    method Dispatch(clientIp: string, verb: HttpMethod, url: string, now: int, order: seq<string>) returns (o: Outcome)
      requires Lists(order, routes)
      modifies limiter
      ensures limiter.limits == old(limiter.limits)[clientIp := AfterHit(WindowOf(old(limiter.limits), clientIp), now)]
      ensures o ==
        if !LetsThrough(WindowOf(old(limiter.limits), clientIp), now, limiter.limit) then TooMany
        else if verb == OPTIONS then Preflight
        else
          match Choose(routes, order, fallback, MethodToString(verb) + ":" + Decoded(url))
          case Some(handler) => Handled(handler)
          case None => NotFound
    {
      var ok := limiter.Check(clientIp, now);
      if !ok {
        return TooMany;
      }
      if verb == OPTIONS {
        return Preflight;
      }
      var path := UrlDecode(url);
      var key := MethodToString(verb) + ":" + path;
      if key in routes {
        return Handled(routes[key]);
      }
      var route := Walk(order, key);
      if route.Some? {
        MatchIsListed(order, key);
        return Handled(routes[route.value]);
      }
      if fallback.Some? {
        return Handled(fallback.value);
      }
      return NotFound;
    }
  }

  lemma {:induction false} MatchIsListed(order: seq<string>, key: string)
    ensures match FirstMatch(order, key)
            case Some(route) => route in order && Matches(route, key)
            case None => forall r :: r in order ==> !Matches(r, key)
  {
    if order != [] && !Matches(order[0], key) {
      MatchIsListed(order[1..], key);
    }
  }

  // ---- the order of the walk -----------------------------------------------------------------------

  /** All wildcards that match `key` name the same handler. */
  ghost predicate OneAnswer(routes: Routes, key: string) {
    forall r, s :: r in routes && s in routes && Matches(r, key) && Matches(s, key) ==> routes[r] == routes[s]
  }

  ghost predicate OrderFree(routes: Routes, fallback: Option<Handler>, key: string) {
    forall a, b :: Lists(a, routes) && Lists(b, routes) ==>
        Choose(routes, a, fallback, key) == Choose(routes, b, fallback, key)
  }

  /** `keys` with `k` first. */
  function First(keys: seq<string>, k: string): seq<string> {
    [k] + Others(keys, k)
  }

  function Others(keys: seq<string>, k: string): seq<string> {
    if keys == [] then [] else (if keys[0] == k then [] else [keys[0]]) + Others(keys[1..], k)
  }

  lemma {:induction false} OthersDistinct(keys: seq<string>, k: string)
    requires Distinct(keys)
    ensures Distinct(Others(keys, k))
    ensures forall x :: x in Others(keys, k) <==> x in keys && x != k
  {
    if keys != [] {
      OthersDistinct(keys[1..], k);
      assert keys == [keys[0]] + keys[1..];
      assert keys[0] !in keys[1..];
      if keys[0] != k {
        DistinctCons(keys[0], Others(keys[1..], k));
      }
    }
  }

  lemma FirstIsListing(keys: seq<string>, routes: Routes, k: string)
    requires Lists(keys, routes) && k in routes
    ensures Lists(First(keys, k), routes)
  {
    OthersDistinct(keys, k);
    DistinctCons(k, Others(keys, k));
  }

  /** The choice depends on the order of the walk exactly when a key without a route of its own
      matches wildcards with different handlers. */
  lemma OrderFreeExactly(routes: Routes, fallback: Option<Handler>, key: string)
    ensures OrderFree(routes, fallback, key) <==> key in routes || OneAnswer(routes, key)
  {
    if key !in routes {
      if OneAnswer(routes, key) {
        forall a, b | Lists(a, routes) && Lists(b, routes)
          ensures Choose(routes, a, fallback, key) == Choose(routes, b, fallback, key)
        {
          MatchIsListed(a, key);
          MatchIsListed(b, key);
        }
      } else {
        var r, s :| r in routes && s in routes && Matches(r, key) && Matches(s, key) && routes[r] != routes[s];
        var keys := Listing(routes);
        FirstIsListing(keys, routes, r);
        FirstIsListing(keys, routes, s);
        assert Choose(routes, First(keys, r), fallback, key) != Choose(routes, First(keys, s), fallback, key);
      }
    }
  }

  /** No wildcard starts like another one. */
  ghost predicate PrefixFree(routes: Routes) {
    forall r, s :: r in routes && s in routes && IsWildcard(r) && IsWildcard(s) && r != s ==>
        !(PrefixOf(r) <= PrefixOf(s))
  }

  /** Then the choice is the exact match, else the one wildcard that matches, else the fallback, for
      every key and in whatever order the table is walked. */
  lemma PrefixFreeChoice(routes: Routes, order: seq<string>, fallback: Option<Handler>, key: string)
    requires PrefixFree(routes) && Lists(order, routes)
    ensures OrderFree(routes, fallback, key)
    ensures key in routes ==> Choose(routes, order, fallback, key) == Some(routes[key])
    ensures forall r :: key !in routes && r in routes && Matches(r, key) ==>
      Choose(routes, order, fallback, key) == Some(routes[r])
    ensures key !in routes && (forall r :: r in routes ==> !Matches(r, key)) ==>
      Choose(routes, order, fallback, key) == fallback
  {
    forall r, s | r in routes && s in routes && Matches(r, key) && Matches(s, key) ensures r == s {
      if |PrefixOf(r)| <= |PrefixOf(s)| {
        assert PrefixOf(r) <= PrefixOf(s);
      } else {
        assert PrefixOf(s) <= PrefixOf(r);
      }
    }
    OrderFreeExactly(routes, fallback, key);
    MatchIsListed(order, key);
  }

  /** A method is read from the very word a route is registered under, and every other word is unknown. */
  lemma MethodsAreNamed(text: string, v: HttpMethod)
    requires v != UNKNOWN
    ensures MethodOf(text) == v <==> text == MethodToString(v)
  {
    NamesDiffer(v, MethodOf(text));
    assert MethodOf(text) != UNKNOWN ==> text == MethodToString(MethodOf(text));
    assert MethodOf(MethodToString(v)) == v;
  }

  lemma NoColon(verb: HttpMethod)
    ensures forall i :: 0 <= i < |MethodToString(verb)| ==> MethodToString(verb)[i] != ':'
  {
  }

  lemma NamesDiffer(v: HttpMethod, w: HttpMethod)
    ensures MethodToString(v) == MethodToString(w) ==> v == w
  {
    if v != w {
      assert |MethodToString(v)| != |MethodToString(w)| || MethodToString(v)[0] != MethodToString(w)[0];
    }
  }

  /** Methods have different names, and none is the beginning of a key of another: a route serves
      requests of its own method only, with its own path or one that starts like it. */
  lemma RouteServesItsMethod(v: HttpMethod, path: string, w: HttpMethod, url: string)
    ensures var route, key := MethodToString(v) + ":" + path, MethodToString(w) + ":" + url;
            && (route == key ==> v == w && path == url)
            && (Matches(route, key) ==> v == w && path != "" && path[..|path| - 1] <= url)
  {
    var a, b := MethodToString(v), MethodToString(w);
    var route, key := a + ":" + path, b + ":" + url;
    NoColon(v);
    NoColon(w);
    NamesDiffer(v, w);
    hide MethodToString;
    if route == key || Matches(route, key) {
      assert path == "" ==> !IsWildcard(route);
      var n := if |a| < |b| then |a| else |b|;
      assert route[n] == key[n] && route[|a|] == ':' && key[|b|] == ':';
      assert |a| == |b|;
      assert a == route[..|a|] == key[..|b|] == b;
      assert path == route[|a| + 1..] && url == key[|b| + 1..];
    }
    if Matches(route, key) {
      assert path[..|path| - 1] == PrefixOf(route)[|a| + 1..];
    }
  }

  /** Two wildcards, one the beginning of the other, with handlers of their own. */
  function Overlapping(): Routes {
    map["GET:/a*" := "short", "GET:/ab*" := "long"]
  }

  /** The key GET:/abc is handled by either, as the order of the table will have it. */
  lemma OverlapDependsOnOrder(fallback: Option<Handler>)
    ensures !OrderFree(Overlapping(), fallback, "GET:/abc")
  {
    var r, s, key := "GET:/a*", "GET:/ab*", "GET:/abc";
    assert PrefixOf(r) == key[..6] && PrefixOf(s) == key[..7];
    assert Matches(r, key) && Matches(s, key);
    assert |r| == 7 && |s| == 8 && |key| == 8 && key[7] == 'c' && s[7] == '*';
    OrderFreeExactly(Overlapping(), fallback, key);
  }
}
