/** What the router promises, stated over the uncached lookup (Lookup) and
    the table operations Add and Get perform (Append, AfterLookup). */
module RoutingProperties {
  import opened Wrappers
  import opened RegexTypes
  import opened Matching
  import opened Templates
  import opened Routing
  import Hashing

  /** A registered static path resolves to its handler with no keyword
      arguments, for every method it allows. */
  lemma StaticRouteResolves<H>(table: Table<H>, uri: string, methods: seq<string>, handler: H,
                               verb: string, engine: CustomEngine)
    requires Placeholders(Scan(uri, 0)) == []
    requires uri in table && table[uri] != [] && table[uri][0] == NewRoute(uri, methods, handler)
    requires methods == [] || verb in methods
    ensures Lookup(table, Request(uri, verb), engine) == Success(Resolved(handler, [], map[]))
  {
    var ps := Scan(uri, 0);
    StaticPattern(ps);
    ScanRender(uri, 0);
    assert uri[0..] == uri;
    StaticFullMatch(uri, uri, engine);
  }

  /** Registering a path twice: the first registration keeps answering. */
  lemma DuplicateStaticFirstWins<H>(table: Table<H>, uri: string, m1: seq<string>, h1: H,
                                    m2: seq<string>, h2: H, verb: string, engine: CustomEngine)
    requires Placeholders(Scan(uri, 0)) == [] && Bucket(table, uri) == []
    requires m1 == [] || verb in m1
    ensures
      var t1 := Append(table, StorageKey(uri), NewRoute(uri, m1, h1));
      var t2 := Append(t1, StorageKey(uri), NewRoute(uri, m2, h2));
      Lookup(t2, Request(uri, verb), engine) == Success(Resolved(h1, [], map[]))
  {
    var t1 := Append(table, uri, NewRoute(uri, m1, h1));
    var t2 := Append(t1, uri, NewRoute(uri, m2, h2));
    assert t1[uri] == [NewRoute(uri, m1, h1)];
    assert t2[uri][0] == NewRoute(uri, m1, h1);
    StaticRouteResolves(t2, uri, m1, h1, verb, engine);
  }

  /** Appending routes after a bucket's first match leaves the first match
      where it was. */
  lemma {:induction false} FirstMatchPrefix<H>(b: seq<Route<H>>, b': seq<Route<H>>, url: string, engine: CustomEngine)
    requires |b| <= |b'| && b'[..|b|] == b
    requires FirstMatch(b, url, engine).Some?
    ensures FirstMatch(b', url, engine) == FirstMatch(b, url, engine)
  {
    assert b'[0] == b[0];
    if !Matches(b[0], url, engine) {
      assert b'[1..][..|b| - 1] == b[1..];
      FirstMatchPrefix(b[1..], b'[1..], url, engine);
    }
  }

  /** Registration order is precedence: once a URL resolves to a route (or
      to an error other than NotFound), registering more routes under any
      other key does not change the outcome. */
  lemma AddKeepsResolution<H>(table: Table<H>, key: string, route: Route<H>, request: Request, engine: CustomEngine)
    requires key != request.url
    requires Lookup(table, request, engine) != Failure(NotFound(request.url))
    ensures Lookup(Append(table, key, route), request, engine) == Lookup(table, request, engine)
  {
    var t := Append(table, key, route);
    var url := request.url;
    if url !in table {
      var h := Hashing.UrlHash(url);
      var b, b' := Bucket(table, h), Bucket(t, h);
      assert |b| <= |b'| && b'[..|b|] == b;
      FirstMatchPrefix(b, b', url, engine);
    }
  }

  /** NotFound is raised exactly when the URL is not a key and no route of
      its hash bucket matches it; in particular an empty or missing bucket
      gives NotFound. */
  lemma NotFoundExactly<H>(table: Table<H>, request: Request, engine: CustomEngine)
    ensures (Lookup(table, request, engine).Failure? && Lookup(table, request, engine).error.NotFound?) <==>
      && request.url !in table
      && forall j :: 0 <= j < |Bucket(table, Hashing.UrlHash(request.url))| ==>
           !Matches(Bucket(table, Hashing.UrlHash(request.url))[j], request.url, engine)
  {
    match Select(table, request.url, engine)
    case NoRoute =>
    case EmptyBucket =>
    case Chosen(route, m) =>
      if m.Some? {
        KwargsFailure(m.value, route.parameters, map[]);
      }
  }

  /** The method check runs only once a route is chosen: InvalidUsage with
      status 405 exactly when the chosen route names methods and not this
      one, and the method never decides between a route and NotFound. */
  lemma MethodCheck<H>(table: Table<H>, url: string, v1: string, v2: string, engine: CustomEngine)
    ensures
      var r := Lookup(table, Request(url, v1), engine);
      var sel := Select(table, url, engine);
      (r.Failure? && r.error.InvalidUsage?) <==> sel.Chosen? && sel.route.methods != {} && v1 !in sel.route.methods
    ensures
      var r := Lookup(table, Request(url, v1), engine);
      r.Failure? && r.error.InvalidUsage? ==> r.error == InvalidUsage(v1, url, 405)
    ensures Lookup(table, Request(url, v1), engine) == Failure(NotFound(url)) <==>
            Lookup(table, Request(url, v2), engine) == Failure(NotFound(url))
    ensures Select(table, url, engine).Chosen? && Select(table, url, engine).route.methods == {} ==>
            Lookup(table, Request(url, v1), engine) == Lookup(table, Request(url, v2), engine)
  {
    match Select(table, url, engine)
    case NoRoute =>
    case EmptyBucket =>
    case Chosen(route, m) =>
      if m.Some? {
        KwargsFailure(m.value, route.parameters, map[]);
      }
  }

  /** A cast that fails makes the whole dictionary fail, with the value of
      the first failing pair. */
  lemma {:induction false} KwargsFailure(caps: seq<string>, params: seq<Parameter>, acc: map<string, Value>)
    ensures Kwargs(caps, params, acc).Failure? <==>
      exists k :: 0 <= k < ZipLength(caps, params) && ApplyCast(params[k].cast, caps[k]).None?
    ensures Kwargs(caps, params, acc).Failure? ==> Kwargs(caps, params, acc).error.ValueError?
    decreases |params|
  {
    if caps != [] && params != [] {
      match ApplyCast(params[0].cast, caps[0])
      case None =>
      case Some(v) =>
        var acc' := acc[params[0].name := v];
        KwargsFailure(caps[1..], params[1..], acc');
        if exists k :: 0 <= k < ZipLength(caps[1..], params[1..]) && ApplyCast(params[1..][k].cast, caps[1..][k]).None? {
          var k :| 0 <= k < ZipLength(caps[1..], params[1..]) && ApplyCast(params[1..][k].cast, caps[1..][k]).None?;
          assert ApplyCast(params[k + 1].cast, caps[k + 1]).None?;
        }
        if exists k :: 0 <= k < ZipLength(caps, params) && ApplyCast(params[k].cast, caps[k]).None? {
          var k :| 0 <= k < ZipLength(caps, params) && ApplyCast(params[k].cast, caps[k]).None?;
          assert k > 0;
          assert ApplyCast(params[1..][k - 1].cast, caps[1..][k - 1]).None?;
        }
    }
  }

  /** No later pair of the zip has the same name as pair k. */
  ghost predicate LastOfName(params: seq<Parameter>, n: nat, k: nat)
    requires n <= |params|
  {
    forall j :: k < j < n ==> params[j].name != params[k].name
  }

  /** When every cast succeeds, the dictionary holds exactly the zipped
      names, each bound to the cast of the value paired with its last
      occurrence. */
  lemma KwargsSuccess(caps: seq<string>, params: seq<Parameter>, acc: map<string, Value>, m: map<string, Value>)
    requires Kwargs(caps, params, acc) == Success(m)
    ensures forall x :: x in m <==> x in acc || exists k :: 0 <= k < ZipLength(caps, params) && params[k].name == x
    ensures forall k :: 0 <= k < ZipLength(caps, params) && LastOfName(params, ZipLength(caps, params), k) ==>
      params[k].name in m && ApplyCast(params[k].cast, caps[k]) == Some(m[params[k].name])
    ensures forall x :: x in acc && (forall k :: 0 <= k < ZipLength(caps, params) ==> params[k].name != x) ==>
      x in m && m[x] == acc[x]
  {
    KwargsKeys(caps, params, acc, m);
    KwargsValues(caps, params, acc, m);
    KwargsKept(caps, params, acc, m);
  }

  /** One step of the comprehension: the first pair's cast succeeded and the
      rest of the zip produced the same dictionary. */
  lemma KwargsStep(caps: seq<string>, params: seq<Parameter>, acc: map<string, Value>, m: map<string, Value>)
    requires Kwargs(caps, params, acc) == Success(m)
    requires caps != [] && params != []
    ensures ApplyCast(params[0].cast, caps[0]).Some?
    ensures Kwargs(caps[1..], params[1..], acc[params[0].name := ApplyCast(params[0].cast, caps[0]).value]) == Success(m)
    ensures ZipLength(caps[1..], params[1..]) == ZipLength(caps, params) - 1
    ensures forall k :: 1 <= k < ZipLength(caps, params) ==> params[1..][k - 1] == params[k] && caps[1..][k - 1] == caps[k]
  {
  }

  /** The keys of the dictionary: the starting keys and the zipped names. */
  lemma {:induction false} KwargsKeys(caps: seq<string>, params: seq<Parameter>, acc: map<string, Value>, m: map<string, Value>)
    requires Kwargs(caps, params, acc) == Success(m)
    ensures forall x :: x in m <==> x in acc || exists k :: 0 <= k < ZipLength(caps, params) && params[k].name == x
    decreases |params|
  {
    if caps != [] && params != [] {
      KwargsStep(caps, params, acc, m);
      var acc' := acc[params[0].name := ApplyCast(params[0].cast, caps[0]).value];
      var n := ZipLength(caps, params);
      KwargsKeys(caps[1..], params[1..], acc', m);
      forall x | x in m
        ensures x in acc || exists k :: 0 <= k < n && params[k].name == x
      {
        if x !in acc && x != params[0].name {
          var k :| 0 <= k < n - 1 && params[1..][k].name == x;
          assert params[k + 1].name == x;
        }
      }
      forall x | x in acc || exists k :: 0 <= k < n && params[k].name == x
        ensures x in m
      {
        if x !in acc' {
          var k :| 0 <= k < n && params[k].name == x;
          assert k > 0 && params[1..][k - 1].name == x;
        }
      }
    }
  }

  /** A starting key that no zipped name overwrites keeps its value. */
  lemma {:induction false} KwargsKept(caps: seq<string>, params: seq<Parameter>, acc: map<string, Value>, m: map<string, Value>)
    requires Kwargs(caps, params, acc) == Success(m)
    ensures forall x :: x in acc && (forall k :: 0 <= k < ZipLength(caps, params) ==> params[k].name != x) ==>
      x in m && m[x] == acc[x]
    decreases |params|
  {
    if caps != [] && params != [] {
      KwargsStep(caps, params, acc, m);
      var acc' := acc[params[0].name := ApplyCast(params[0].cast, caps[0]).value];
      var n := ZipLength(caps, params);
      KwargsKept(caps[1..], params[1..], acc', m);
      forall x | x in acc && (forall k :: 0 <= k < n ==> params[k].name != x)
        ensures x in m && m[x] == acc[x]
      {
        assert forall k :: 0 <= k < n - 1 ==> params[1..][k].name != x by {
          forall k | 0 <= k < n - 1 ensures params[1..][k].name != x {
            assert params[1..][k] == params[k + 1];
          }
        }
      }
    }
  }

  /** The last occurrence of each zipped name holds the cast of its value. */
  lemma {:induction false} KwargsValues(caps: seq<string>, params: seq<Parameter>, acc: map<string, Value>, m: map<string, Value>)
    requires Kwargs(caps, params, acc) == Success(m)
    ensures forall k :: 0 <= k < ZipLength(caps, params) && LastOfName(params, ZipLength(caps, params), k) ==>
      params[k].name in m && ApplyCast(params[k].cast, caps[k]) == Some(m[params[k].name])
    decreases |params|
  {
    if caps != [] && params != [] {
      KwargsStep(caps, params, acc, m);
      var acc' := acc[params[0].name := ApplyCast(params[0].cast, caps[0]).value];
      var n := ZipLength(caps, params);
      KwargsValues(caps[1..], params[1..], acc', m);
      forall k | 0 <= k < n && LastOfName(params, n, k)
        ensures params[k].name in m && ApplyCast(params[k].cast, caps[k]) == Some(m[params[k].name])
      {
        if k == 0 {
          FirstIsLast(caps, params, acc', m);
        } else {
          LastOfNameTail(params, n, k);
        }
      }
    }
  }

  /** When the first name does not come back, the rest of the zip leaves its
      value alone. */
  lemma FirstIsLast(caps: seq<string>, params: seq<Parameter>, acc': map<string, Value>, m: map<string, Value>)
    requires caps != [] && params != []
    requires Kwargs(caps[1..], params[1..], acc') == Success(m)
    requires params[0].name in acc'
    requires LastOfName(params, ZipLength(caps, params), 0)
    ensures params[0].name in m && m[params[0].name] == acc'[params[0].name]
  {
    var n := ZipLength(caps, params);
    KwargsKept(caps[1..], params[1..], acc', m);
    forall j | 0 <= j < n - 1 ensures params[1..][j].name != params[0].name {
      assert params[1..][j] == params[j + 1];
    }
  }

  lemma LastOfNameTail(params: seq<Parameter>, n: nat, k: nat)
    requires 0 < k < n <= |params| && LastOfName(params, n, k)
    ensures LastOfName(params[1..], n - 1, k - 1) && params[1..][k - 1] == params[k]
  {
    forall j | k - 1 < j < n - 1 ensures params[1..][j].name != params[1..][k - 1].name {
      assert params[1..][j] == params[j + 1];
    }
  }

  /** Routes of a well-formed table capture one value per parameter. */
  lemma CapturesPerParameter<H>(route: Route<H>, url: string, engine: CustomEngine)
    requires WellFormed(route) && Matches(route, url, engine)
    ensures |FullMatch(route.pattern, url, engine).value| == |route.parameters|
  {
    MatchSound(route.pattern, url, 0, engine);
    ParsesGroupCount(route.pattern, url, 0, FullMatch(route.pattern, url, engine).value, engine);
  }

  /** A successful lookup returns the chosen route's handler, no positional
      arguments, and one keyword argument per parameter name, bound to the
      parameter's cast of the captured value at the same position (the last
      one when a name repeats). */
  lemma LookupSuccess<H>(table: Table<H>, request: Request, engine: CustomEngine, res: Resolved<H>)
    requires WellFormedTable(table)
    requires Lookup(table, request, engine) == Success(res)
    ensures Select(table, request.url, engine).Chosen?
    ensures
      var route := Select(table, request.url, engine).route;
      var caps := FullMatch(route.pattern, request.url, engine);
      && res.handler == route.handler && res.args == [] && Allows(route, request.verb)
      && caps.Some? && |caps.value| == |route.parameters|
      && (forall x :: x in res.kwargs <==> exists k :: 0 <= k < |route.parameters| && route.parameters[k].name == x)
      && forall k :: 0 <= k < |route.parameters| && LastOfName(route.parameters, |route.parameters|, k) ==>
           ApplyCast(route.parameters[k].cast, caps.value[k]) == Some(res.kwargs[route.parameters[k].name])
  {
    var sel := Select(table, request.url, engine);
    var route := sel.route;
    var url := request.url;
    if url in table {
      assert route == table[url][0];
    } else {
      var b := Bucket(table, Hashing.UrlHash(url));
      var k := FirstMatch(b, url, engine).value;
      assert route == b[k];
    }
    assert WellFormed(route);
    CapturesPerParameter(route, url, engine);
    var caps := sel.m.value;
    KwargsSuccess(caps, route.parameters, map[], res.kwargs);
  }

  /** The bucket scheme misses no route it should find: a route whose
      placeholders all have built-in types and hold no '/' is stored under
      the hash of every URL its pattern matches, so such a URL (unless it is
      itself a key) never gets NotFound. */
  lemma NoFalseNotFound<H>(table: Table<H>, uri: string, methods: seq<string>, handler: H,
                           request: Request, engine: CustomEngine)
    requires Placeholders(Scan(uri, 0)) != []
    requires forall b :: b in Placeholders(Scan(uri, 0)) ==> '/' !in b && SplitParameter(b).1 in BuiltinNames
    requires NewRoute(uri, methods, handler) in Bucket(table, StorageKey(uri))
    requires request.url !in table
    requires Matches(NewRoute(uri, methods, handler), request.url, engine)
    ensures Hashing.UrlHash(request.url) == StorageKey(uri)
    ensures Select(table, request.url, engine).Chosen?
  {
    var url := request.url;
    var ps := Scan(uri, 0);
    var p := PatternOf(ps);
    var caps := FullMatch(p, url, engine).value;
    MatchSound(p, url, 0, engine);
    BuiltinPattern(ps);
    ParsesSlashes(p, url, 0, caps, engine);
    assert url[0..] == url;
    PatternSlashes(ps);
    ScanRender(uri, 0);
    assert uri[0..] == uri;
    Hashing.UrlHashSameBucket(url, uri);
    var b := Bucket(table, StorageKey(uri));
    var j :| 0 <= j < |b| && b[j] == NewRoute(uri, methods, handler);
    assert Matches(b[j], url, engine);
  }

  /** A miss that leaves an empty list under the URL's hash changes no
      later lookup, except one whose URL is that hash itself. */
  lemma MissOnlyAddsEmptyBucket<H>(table: Table<H>, url: string, request: Request, engine: CustomEngine)
    requires request.url != Hashing.UrlHash(url)
    ensures Lookup(AfterLookup(table, url), request, engine) == Lookup(table, request, engine)
  {
    var t := AfterLookup(table, url);
    assert Bucket(t, Hashing.UrlHash(request.url)) == Bucket(table, Hashing.UrlHash(request.url));
  }

  /** ... and that one changes from NotFound to the IndexError of reading
      the first route of an empty list. */
  lemma EmptyBucketCrash<H>(table: Table<H>, url: string, verb: string, engine: CustomEngine)
    requires url !in table && Hashing.UrlHash(url) !in table
    ensures
      var key := Hashing.UrlHash(url);
      && Lookup(table, Request(key, verb), engine) == Failure(NotFound(key))
      && Lookup(AfterLookup(table, url), Request(key, verb), engine) == Failure(IndexError(key))
  {
    Hashing.UrlHashIdempotent(url);
  }

  /** A request whose URL is itself a non-empty key reads the first route of
      that list as a static path; when the route allows the method and its
      pattern does not match the URL, get fails on match.groups. */
  lemma KeyMissCrash<H>(table: Table<H>, request: Request, engine: CustomEngine)
    requires request.url in table && table[request.url] != []
    requires Allows(table[request.url][0], request.verb)
    requires FullMatch(table[request.url][0].pattern, request.url, engine).None?
    ensures Lookup(table, request, engine) == Failure(AttributeError(request.url))
  {
  }

  /** `<name:int>` declares an int parameter captured by `\d+`. */
  lemma IntParameter(name: string)
    requires ':' !in name
    ensures AddParameter(name + ":int") == (Parameter(name, IntCast), Group(Repeat(Digit)))
  {
    var body := name + ":int";
    assert body[|name|] == ':';
    assert FirstIndex(body, ':') == |name|;
    assert body[..|name|] == name && body[|name| + 1..] == "int";
  }

  /** add(prefix + '<name:int>', methods, h), prefix free of placeholders,
      builds `prefix(\d+)` with one int parameter and stores it under the
      template's URL hash. */
  lemma IntRouteCompiles<H>(prefix: string, name: string, methods: seq<string>, h: H)
    requires '<' !in prefix
    requires ':' !in name && '\n' !in name && '>' !in name
    ensures NewRoute(prefix + "<" + name + ":int>", methods, h)
         == Route(h, MethodSet(methods), Lits(prefix) + [Group(Repeat(Digit))], [Parameter(name, IntCast)])
    ensures StorageKey(prefix + "<" + name + ":int>") == Hashing.UrlHash(prefix + "<" + name + ":int>")
  {
    var uri := prefix + "<" + name + ":int>";
    assert uri == prefix + "<" + (name + ":int") + ">";
    OnePlaceholderCompiles(prefix, name + ":int");
    IntParameter(name);
  }

  /** prefix + tail shares the template's bucket when tail has no '/'. */
  lemma IntRouteBucket(prefix: string, name: string, tail: string)
    requires '/' !in name && '/' !in tail
    ensures Hashing.UrlHash(prefix + tail) == Hashing.UrlHash(prefix + "<" + name + ":int>")
  {
    var rest := "<" + name + ":int>";
    assert prefix + "<" + name + ":int>" == prefix + rest;
    Hashing.CountConcat(prefix, rest, '/');
    Hashing.CountConcat(prefix, tail, '/');
    assert '/' !in rest;
    Hashing.CountAbsent(rest, '/');
    Hashing.CountAbsent(tail, '/');
  }

  /** In a table holding one route under a hash key, a URL of that bucket
      that is not itself a key is decided by that route's match. */
  lemma SingleRouteLookup<H>(key: string, route: Route<H>, request: Request, engine: CustomEngine)
    requires request.url != key && Hashing.UrlHash(request.url) == key
    ensures Lookup(Append(map[], key, route), request, engine) ==
      match FullMatch(route.pattern, request.url, engine)
      case None => Failure(NotFound(request.url))
      case Some(caps) => Finish(route, Some(caps), request)
  {
    var t := Append(map[], key, route);
    assert t == map[key := [route]];
    assert Bucket(t, key) == [route];
  }

  /** With only that route registered, prefix + digits resolves to h with the
      digits' value under name, for every method the route allows, and is
      refused with 405 for every other. */
  lemma IntRouteResolves<H>(prefix: string, name: string, methods: seq<string>, h: H,
                            digits: string, verb: string, engine: CustomEngine)
    requires '<' !in prefix
    requires ':' !in name && '\n' !in name && '>' !in name && '/' !in name
    requires digits != [] && AllDigits(digits)
    ensures
      var uri := prefix + "<" + name + ":int>";
      var t := Append(map[], StorageKey(uri), NewRoute(uri, methods, h));
      Lookup(t, Request(prefix + digits, verb), engine) ==
        if methods == [] || verb in methods then Success(Resolved(h, [], map[name := Int(DecimalValue(digits))]))
        else Failure(InvalidUsage(verb, prefix + digits, 405))
  {
    var uri := prefix + "<" + name + ":int>";
    var route := NewRoute(uri, methods, h);
    IntRouteMatches(prefix, name, methods, h, digits, engine);
    SingleRouteLookup(Hashing.UrlHash(uri), route, Request(prefix + digits, verb), engine);
    IntKwargs(name, digits);
  }

  /** prefix + digits is in the template's bucket, is not the bucket key, and
      the route's pattern captures exactly the digits. */
  lemma IntRouteMatches<H>(prefix: string, name: string, methods: seq<string>, h: H,
                           digits: string, engine: CustomEngine)
    requires '<' !in prefix
    requires ':' !in name && '\n' !in name && '>' !in name && '/' !in name
    requires digits != [] && AllDigits(digits)
    ensures
      var uri := prefix + "<" + name + ":int>";
      var route := NewRoute(uri, methods, h);
      && StorageKey(uri) == Hashing.UrlHash(uri)
      && route == Route(h, MethodSet(methods), Lits(prefix) + [Group(Repeat(Digit))], [Parameter(name, IntCast)])
      && prefix + digits != Hashing.UrlHash(uri)
      && Hashing.UrlHash(prefix + digits) == Hashing.UrlHash(uri)
      && FullMatch(route.pattern, prefix + digits, engine) == Some([digits])
  {
    var uri := prefix + "<" + name + ":int>";
    IntRouteCompiles(prefix, name, methods, h);
    DigitsNotKey(prefix + digits, digits, Hashing.Count(uri, '/'));
    IntRouteBucket(prefix, name, digits);
    DigitGroupMatch(prefix, digits, engine);
  }

  /** A URL ending in a digit is never a bucket key, which ends in ':'. */
  lemma DigitsNotKey(url: string, digits: string, n: nat)
    requires digits != [] && AllDigits(digits) && |digits| <= |url|
    requires url[|url| - |digits|..] == digits
    ensures url != Hashing.Shape(n) && '/' !in digits
  {
    Hashing.ShapeLast(n);
    assert url[|url| - 1] == digits[|digits| - 1];
  }

  /** The keyword arguments of a single int parameter. */
  lemma IntKwargs(name: string, digits: string)
    requires digits != [] && AllDigits(digits)
    ensures Kwargs([digits], [Parameter(name, IntCast)], map[]) == Success(map[name := Int(DecimalValue(digits))])
  {
    var kw := map[name := Int(DecimalValue(digits))];
    assert Kwargs([], [], kw) == Success(kw);
  }

  /** ... while a URL whose tail is not digits is not found (unless it is
      the bucket key itself, which get reads as a static path). */
  lemma IntRouteRejects<H>(prefix: string, name: string, methods: seq<string>, h: H,
                           tail: string, verb: string, engine: CustomEngine)
    requires '<' !in prefix
    requires ':' !in name && '\n' !in name && '>' !in name
    requires !(tail != [] && AllDigits(tail))
    requires !(|tail| >= 2 && tail[|tail| - 1] == '\n' && AllDigits(tail[..|tail| - 1]))
    requires prefix + tail != Hashing.UrlHash(prefix + "<" + name + ":int>")
    ensures
      var uri := prefix + "<" + name + ":int>";
      var t := Append(map[], StorageKey(uri), NewRoute(uri, methods, h));
      Lookup(t, Request(prefix + tail, verb), engine) == Failure(NotFound(prefix + tail))
  {
    var uri := prefix + "<" + name + ":int>";
    var url := prefix + tail;
    IntRouteCompiles(prefix, name, methods, h);
    DigitGroupMatch(prefix, tail, engine);
    var route := NewRoute(uri, methods, h);
    assert FirstMatch([route], url, engine) == None;
  }

  /** A concrete router, add('/users/<id:int>', ['GET'], h): a GET of
      /users/7 resolves with id bound to 7, ... */
  lemma UsersGet<H>(h: H, engine: CustomEngine)
    ensures
      var uri := "/users/" + "<" + "id" + ":int>";
      var t := Append(map[], StorageKey(uri), NewRoute(uri, ["GET"], h));
      Lookup(t, Request("/users/" + "7", "GET"), engine) == Success(Resolved(h, [], map["id" := Int(7)]))
  {
    UsersDigits();
    IntRouteResolves("/users/", "id", ["GET"], h, "7", "GET", engine);
  }

  /** ... a POST of /users/7 is refused with 405, ... */
  lemma UsersPost<H>(h: H, engine: CustomEngine)
    ensures
      var uri := "/users/" + "<" + "id" + ":int>";
      var t := Append(map[], StorageKey(uri), NewRoute(uri, ["GET"], h));
      Lookup(t, Request("/users/" + "7", "POST"), engine) == Failure(InvalidUsage("POST", "/users/" + "7", 405))
  {
    UsersDigits();
    IntRouteResolves("/users/", "id", ["GET"], h, "7", "POST", engine);
  }

  /** ... and /users/x is not found. */
  lemma UsersMissing<H>(h: H, engine: CustomEngine)
    ensures
      var uri := "/users/" + "<" + "id" + ":int>";
      var t := Append(map[], StorageKey(uri), NewRoute(uri, ["GET"], h));
      Lookup(t, Request("/users/" + "x", "GET"), engine) == Failure(NotFound("/users/" + "x"))
  {
    var uri := "/users/" + "<" + "id" + ":int>";
    assert !AllDigits("x") by {
      assert "x"[0] == 'x' && !IsDigit('x');
    }
    assert "/users/" + "x" != Hashing.UrlHash(uri) by {
      Hashing.ShapeLast(Hashing.Count(uri, '/'));
      assert ("/users/" + "x")[7] == 'x';
    }
    IntRouteRejects("/users/", "id", ["GET"], h, "x", "GET", engine);
  }

  /** ... and a GET of its bucket key (":/:/:") reads that route as a static
      path, whose pattern does not match the key: AttributeError. */
  lemma UsersBucketKey<H>(h: H, engine: CustomEngine)
    ensures
      var uri := "/users/" + "<" + "id" + ":int>";
      var t := Append(map[], StorageKey(uri), NewRoute(uri, ["GET"], h));
      var key := Hashing.UrlHash(uri);
      Lookup(t, Request(key, "GET"), engine) == Failure(AttributeError(key))
  {
    var uri := "/users/" + "<" + "id" + ":int>";
    var key := Hashing.UrlHash(uri);
    IntRouteCompiles("/users/", "id", ["GET"], h);
    UsersKeyMiss(key, Hashing.Count(uri, '/'), engine);
    assert "GET" in MethodSet(["GET"]);
    OneRouteKeyMiss(key, NewRoute(uri, ["GET"], h), "GET", engine);
  }

  /** KeyMissCrash for a table holding one route under the requested key. */
  lemma OneRouteKeyMiss<H>(key: string, route: Route<H>, verb: string, engine: CustomEngine)
    requires Allows(route, verb) && FullMatch(route.pattern, key, engine).None?
    ensures Lookup(Append(map[], key, route), Request(key, verb), engine) == Failure(AttributeError(key))
  {
    var t := Append(map[], key, route);
    assert t == map[key := [route]];
    KeyMissCrash(t, Request(key, verb), engine);
  }

  /** A bucket key starts with ':', not with "/users/", so the route's
      pattern fails on it. */
  lemma UsersKeyMiss(key: string, n: nat, engine: CustomEngine)
    requires key == Hashing.Shape(n)
    ensures FullMatch(Lits("/users/") + [Group(Repeat(Digit))], key, engine).None?
  {
    MatchLitsThen("/users/", [Group(Repeat(Digit))], key, 0, engine);
    assert key[0] == ':';
    assert !TextAt(key, 0, "/users/");
  }

  lemma UsersDigits()
    ensures AllDigits("7") && DecimalValue("7") == 7
  {
  }
}
