/** The Router: a table from keys to lists of compiled routes, filled by
    Add and read by Get. A template without placeholders is stored under its
    own text; one with placeholders under the URL hash of the template. Get
    tries the request URL as a key first and otherwise scans the bucket of its
    URL hash in registration order; the first anchored match wins. */
module Routing {
  import opened Wrappers
  import opened RegexTypes
  import opened Matching
  import opened Templates
  import Hashing

  /** Python's Route namedtuple. methods is the frozenset of accepted
      method names, empty when none were given (any method is accepted). */
  datatype Route<H> = Route(handler: H, methods: set<string>, pattern: seq<PatternToken>, parameters: seq<Parameter>)

  /** self.routes: a defaultdict(list) from key to routes in the order they
      were added. */
  type Table<H> = map<string, seq<Route<H>>>

  /** The two fields of the request object that Get reads. */
  datatype Request = Request(url: string, verb: string)  // request.url, request.method

  /** The exceptions Get raises: the two the router raises on purpose, and
      the three Python raises from inside it. */
  datatype Error =
    | NotFound(url: string)                                  // no route for the URL
    | InvalidUsage(verb: string, url: string, status: int)  // method not allowed, status 405
    | IndexError(url: string)      // the URL is a key whose list is empty
    | AttributeError(url: string)  // the URL is a key whose first route does not match it
    | ValueError(text: string)     // int() or float() rejected a captured value

  /** What Get returns: the handler, no positional arguments, and the
      keyword arguments. */
  datatype Resolved<H> = Resolved(handler: H, args: seq<Value>, kwargs: map<string, Value>)

  /** What the first half of Get settles on before the method check. */
  datatype Selection<H> = NoRoute | EmptyBucket | Chosen(route: Route<H>, m: Option<seq<string>>)

  /** frozenset(methods) when methods is non-empty; an empty list stays
      empty, and both read as "any method". */
  function MethodSet(methods: seq<string>): (r: set<string>)
    ensures forall x :: x in r <==> x in methods
    ensures r == {} <==> methods == []
  {
    assert methods != [] ==> methods[0] in set x | x in methods;
    set x | x in methods
  }

  /** The compiled route add builds for a template: the handler, the method
      set, and one parameter and one capture group per placeholder. */
  function NewRoute<H>(uri: string, methods: seq<string>, handler: H): (r: Route<H>)
    ensures r.handler == handler && r.methods == MethodSet(methods)
    ensures |r.parameters| == |Placeholders(Scan(uri, 0))| == GroupCount(r.pattern)
  {
    var ps := Scan(uri, 0);
    OneParameterPerPlaceholder(ps);
    Route(handler, MethodSet(methods), PatternOf(ps), ParametersOf(ps))
  }

  /** The key add stores a template under: its own text when it has no
      placeholders, otherwise its URL hash. */
  function StorageKey(uri: string): (key: string)
    ensures Placeholders(Scan(uri, 0)) == [] ==> key == uri
    ensures Placeholders(Scan(uri, 0)) != [] ==> key == Hashing.UrlHash(uri)
  {
    OneParameterPerPlaceholder(Scan(uri, 0));
    if ParametersOf(Scan(uri, 0)) != [] then Hashing.UrlHash(uri) else uri
  }

  /** self.routes[key] as a read that does not insert. */
  function Bucket<H>(table: Table<H>, key: string): seq<Route<H>> {
    if key in table then table[key] else []
  }

  /** self.routes[key].append(route): only that one list grows, at its end. */
  function Append<H>(table: Table<H>, key: string, route: Route<H>): (t: Table<H>)
    ensures t.Keys == table.Keys + {key}
    ensures forall k :: k in table && k != key ==> t[k] == table[k]
    ensures |t[key]| == |Bucket(table, key)| + 1
    ensures t[key][..|Bucket(table, key)|] == Bucket(table, key) && t[key][|Bucket(table, key)|] == route
  {
    var before := Bucket(table, key);
    assert (before + [route])[..|before|] == before;
    table[key := before + [route]]
  }

  /** Router.get's bucket: what is stored under the URL's hash after the
      read, which inserts an empty list when the key was missing. */
  function AfterLookup<H>(table: Table<H>, url: string): (t: Table<H>)
    ensures t.Keys == if url in table then table.Keys else table.Keys + {Hashing.UrlHash(url)}
    ensures forall k :: k in table ==> t[k] == table[k]
    ensures forall k :: k in t && k !in table ==> t[k] == []
  {
    var key := Hashing.UrlHash(url);
    if url in table || key in table then table else table[key := []]
  }

  predicate Matches<H>(route: Route<H>, url: string, engine: CustomEngine) {
    FullMatch(route.pattern, url, engine).Some?
  }

  /** The for/break/else scan: the index of the first route of the bucket
      whose anchored pattern matches the URL. */
  function FirstMatch<H>(bucket: seq<Route<H>>, url: string, engine: CustomEngine): (r: Option<nat>)
    ensures r.Some? ==> r.value < |bucket| && Matches(bucket[r.value], url, engine)
    ensures r.Some? ==> forall j :: 0 <= j < r.value ==> !Matches(bucket[j], url, engine)
    ensures r.None? <==> forall j :: 0 <= j < |bucket| ==> !Matches(bucket[j], url, engine)
  {
    if bucket == [] then None
    else if Matches(bucket[0], url, engine) then Some(0)
    else
      var rest := FirstMatch(bucket[1..], url, engine);
      assert forall j :: 1 <= j < |bucket| ==> bucket[j] == bucket[1..][j - 1];
      if rest.None? then None else Some(rest.value + 1)
  }

  /** The route Get settles on, and the match it computed for it. */
  function Select<H>(table: Table<H>, url: string, engine: CustomEngine): Selection<H> {
    if url in table then
      if table[url] == [] then EmptyBucket
      else Chosen(table[url][0], FullMatch(table[url][0].pattern, url, engine))
    else
      var bucket := Bucket(table, Hashing.UrlHash(url));
      match FirstMatch(bucket, url, engine)
      case None => NoRoute
      case Some(k) => Chosen(bucket[k], FullMatch(bucket[k].pattern, url, engine))
  }

  /** A route accepts a method when it names none or names that one. */
  predicate Allows<H>(route: Route<H>, verb: string) {
    route.methods == {} || verb in route.methods
  }

  function ZipLength(caps: seq<string>, params: seq<Parameter>): nat {
    if |caps| < |params| then |caps| else |params|
  }

  /** {p.name: p.cast(value) for value, p in zip(groups, parameters)}: casts
      run left to right, the first failing cast raises, and a later name
      overwrites an earlier one. */
  function Kwargs(caps: seq<string>, params: seq<Parameter>, acc: map<string, Value>)
    : (r: Result<map<string, Value>, Error>)
    ensures r.Failure? ==> r.error.ValueError?
    ensures r.Success? ==> acc.Keys <= r.value.Keys
    decreases |params|
  {
    if caps == [] || params == [] then Success(acc)
    else
      match ApplyCast(params[0].cast, caps[0])
      case None => Failure(ValueError(caps[0]))
      case Some(v) => Kwargs(caps[1..], params[1..], acc[params[0].name := v])
  }

  /** The rest of Get once a route is chosen: the method check, then the
      keyword arguments from the match. */
  function Finish<H>(route: Route<H>, m: Option<seq<string>>, request: Request): Result<Resolved<H>, Error> {
    if !Allows(route, request.verb) then Failure(InvalidUsage(request.verb, request.url, 405))
    else if m.None? then Failure(AttributeError(request.url))
    else
      match Kwargs(m.value, route.parameters, map[])
      case Failure(e) => Failure(e)
      case Success(kw) => Success(Resolved(route.handler, [], kw))
  }

  /** Router.get without its cache. A success has no positional arguments;
      IndexError comes from an empty list under the URL itself, NotFound
      only for a URL that is not a key, and a refused method is a 405. */
  function Lookup<H>(table: Table<H>, request: Request, engine: CustomEngine): (r: Result<Resolved<H>, Error>)
    ensures r.Success? ==> r.value.args == []
    ensures (r.Failure? && r.error.IndexError?) <==> request.url in table && table[request.url] == []
    ensures r.Failure? && r.error.NotFound? ==> request.url !in table
    ensures r.Failure? && r.error.InvalidUsage? ==> r.error == InvalidUsage(request.verb, request.url, 405)
  {
    match Select(table, request.url, engine)
    case NoRoute => Failure(NotFound(request.url))
    case EmptyBucket => Failure(IndexError(request.url))
    case Chosen(route, m) => Finish(route, m, request)
  }

  /** A route has one parameter per capture group, so zip pairs every
      captured value with its parameter. */
  predicate WellFormed<H>(route: Route<H>) {
    GroupCount(route.pattern) == |route.parameters|
  }

  predicate WellFormedTable<H>(table: Table<H>) {
    forall key, j :: key in table && 0 <= j < |table[key]| ==> WellFormed(table[key][j])
  }

  class Router<H> {
    var routes: Table<H>

    ghost predicate Valid()
      reads this
    {
      WellFormedTable(routes)
    }

    constructor ()
      ensures Valid() && routes == map[]
    {
      routes := map[];
    }

    /** Compiles the template and appends the route to the one list its
        key names. */
    method Add(uri: string, methods: seq<string>, handler: H)
      requires Valid()
      modifies this
      ensures Valid()
      ensures routes == Append(old(routes), StorageKey(uri), NewRoute(uri, methods, handler))
    {
      var pattern, parameters := Compile(uri);
      var route := Route(handler, MethodSet(methods), pattern, parameters);
      assert route == NewRoute(uri, methods, handler) && WellFormed(route);
      var key := uri;
      if parameters != [] {
        key := Hashing.UrlHash(uri);
      }
      var bucket := if key in routes then routes[key] else [];
      routes := routes[key := bucket + [route]];
    }

    /** Resolves a request: the URL as a key first, else the first matching
        route of its hash bucket; then the method check and the casts. A
        miss may leave an empty list under the URL's hash. */
    method Get(request: Request, engine: CustomEngine) returns (r: Result<Resolved<H>, Error>)
      requires Valid()
      modifies this
      ensures Valid()
      ensures r == Lookup(old(routes), request, engine)
      ensures routes == AfterLookup(old(routes), request.url)
    {
      var url := request.url;
      var route: Route<H>;
      var m: Option<seq<string>>;
      if url in routes {
        if routes[url] == [] {
          return Failure(IndexError(url));
        }
        route := routes[url][0];
        m := FullMatch(route.pattern, url, engine);
      } else {
        var key := Hashing.UrlHash(url);
        if key !in routes {
          routes := routes[key := []];
        }
        var bucket := routes[key];
        assert bucket == Bucket(old(routes), key);
        var k := 0;
        m := None;
        while k < |bucket|
          invariant 0 <= k <= |bucket|
          invariant forall j :: 0 <= j < k ==> !Matches(bucket[j], url, engine)
          invariant m.None?
        {
          m := FullMatch(bucket[k].pattern, url, engine);
          if m.Some? {
            break;
          }
          k := k + 1;
        }
        if k == |bucket| {
          return Failure(NotFound(url));
        }
        route := bucket[k];
        assert FirstMatch(bucket, url, engine) == Some(k);
      }
      if route.methods != {} && request.verb !in route.methods {
        return Failure(InvalidUsage(request.verb, url, 405));
      }
      if m.None? {
        return Failure(AttributeError(url));
      }
      var kwargs := Kwargs(m.value, route.parameters, map[]);
      if kwargs.Failure? {
        return Failure(kwargs.error);
      }
      r := Success(Resolved(route.handler, [], kwargs.value));
    }
  }
}
