# Sanic's router, modelled in Dafny

This project models the routing core of an early Sanic release
(`sanic/router.py`). It covers three things:

- The parameter type table `REGEX_TYPES` and `url_hash`.
- `Router.add`, which compiles a URL template such as `/users/<id:int>`
  into an anchored pattern and a list of parameters. It stores the route
  under the template itself when there are no placeholders, and under the
  URL hash of the template otherwise.
- `Router.get`, without its cache. It looks the request URL up as a key
  of the table first. Otherwise it scans the bucket of the URL's hash in
  registration order. Then it checks the method and casts the captured
  values to keyword arguments.

Modules:

- `Wrappers`: `Option` and `Result`.
- `RegexTypes`: the type table, the character classes of the built-in
  sub-patterns, and the casts. `int` reads decimal digits. A `float` value
  is kept as the text `float()` accepted.
- `Hashing`: `url_hash`, `str.split` and `str.join`.
- `Matching`: the compiled pattern as literal characters and capture
  groups, and an anchored backtracking matcher that stands in for Python's
  `re` on these patterns:
  - a built-in group is greedy and gives back one character at a time;
  - `$` also matches before a final newline;
  - a custom sub-pattern's possible ends come from a `CustomEngine`
    parameter.
- `Templates`: the `re.sub(r'<(.+?)>', add_parameter, uri)` scan, the
  `add_parameter` callback, and `Compile`, the loop that builds the pattern
  and the parameter list.
- `Routing`: the route table, the class `Router` with `Add` and `Get`, and
  the function `Lookup` that specifies `Get`.
- `RoutingProperties`: what the router promises, proved over `Lookup` and
  the table updates.

Behaviours of the code that a reader of the API might not expect, and
that the model keeps:

- `url_hash` replaces every segment of the URL by `:`, so a bucket key
  records only how many `/` the URL has, never its literal text
  (`Hashing.UrlHashSameBucket`).
- When a static path is registered twice, `get` reads the first route of
  its list, so the first registration wins
  (`RoutingProperties.DuplicateStaticFirstWins`).
- A lookup whose hash has no list yet leaves an empty list under it,
  because `self.routes` is a `defaultdict`. A later request for the hash
  string itself then fails with `IndexError` instead of `NotFound`
  (`RoutingProperties.EmptyBucketCrash`). A hash that already holds routes
  is left unchanged.
- A request whose URL is itself a bucket key, such as `:/:`, reads the
  first route of that bucket. When its pattern does not match the key and
  the method is allowed, `get` raises `AttributeError` on `match.groups`
  (a refused method still gives the 405 first). The model returns this
  as an error value (`RoutingProperties.KeyMissCrash`,
  `RoutingProperties.UsersBucketKey`).

## Model

| member | source | states |
|---|---|---|
| RegexTypes.TypeOf | sanic/router.py:10-15 | each of the four built-in type names gives its own cast and class (`string`: str, `[^/]+`; `int`: int, `\d+`; `number`: float, `[0-9\\.]+`; `alpha`: str, `[A-Za-z]+`); `int` is the only int cast and `number` the only float cast; any other token is used verbatim as a regex with the str cast (the default of `REGEX_TYPES.get`, lines 69-71) |
| RegexTypes.ApplyCast | sanic/router.py:112 | str never fails; int succeeds exactly on non-empty decimal digits; float succeeds exactly on a float literal; a failure is the ValueError |
| RegexTypes.DecimalRoundTrip | sanic/router.py:12 | the int cast reads back any number written in decimal |
| RegexTypes.IntCastOfDecimal | sanic/router.py:12 | casting the decimal text of n gives Int(n) |
| RegexTypes.LeadingZero | sanic/router.py:12 | a leading zero does not change the int value |
| RegexTypes.CastOfMatchedText | sanic/router.py:10-15 | a cast never fails on text its own built-in sub-pattern matched, except `number`, which fails exactly on text with a backslash, more than one dot, or only dots |
| Hashing.Split | sanic/router.py:19 | `split('/')` gives one piece more than there are slashes, and no piece holds a slash |
| Hashing.SplitJoin | sanic/router.py:19 | joining the split pieces gives back the URL |
| Hashing.UrlHash | sanic/router.py:18-19 | the key is `:` per segment joined by `/`, a function of the slash count alone, of length 2n+1 |
| Hashing.UrlHashSameBucket | sanic/router.py:18-19 | two URLs share a bucket if and only if they have the same number of slashes |
| Hashing.UrlHashIdempotent | sanic/router.py:18-19 | a key hashes to itself |
| Templates.PlaceholderClose | sanic/router.py:75 | `<(.+?)>` at i closes at the first possible `>` (at least one character, no newline), and fails exactly when no close exists |
| Templates.SplitParameter | sanic/router.py:65-67 | `name.split(':', 1)`: the name holds no `:`, name + `:` + type gives the body back, and the type is `string` when there is no `:` |
| Templates.AddParameter | sanic/router.py:62-73 | a placeholder gives a parameter named before the first `:` and a capture group; with no type it is a str parameter over `[^/]+`; with a type, the cast and the group are those the type table gives for it; the cast is int exactly for type `int` |
| Templates.Scan | sanic/router.py:75 | every placeholder `(.+?)` captures is non-empty, holds no newline, and has no `>` after its first character |
| Templates.Compile | sanic/router.py:60-75 | the loop over the template builds exactly the pattern and parameter list of the left-to-right scan |
| Templates.ScanRender | sanic/router.py:75 | the scan loses nothing: its pieces spell the template again |
| Templates.OneParameterPerPlaceholder | sanic/router.py:72-75 | one parameter and one capture group per placeholder |
| Templates.ParameterAt | sanic/router.py:72-73 | the k-th parameter and the k-th group both come from the k-th placeholder |
| Templates.StaticPattern | sanic/router.py:75-76 | a template without placeholders compiles to its own characters and no parameters |
| Templates.PatternSlashes | sanic/router.py:75 | when no placeholder holds `/`, the template and its pattern have the same literal slashes |
| Templates.BuiltinPattern | sanic/router.py:71-73 | when every placeholder names a built-in type, every group is a built-in class |
| Templates.CompileConcat | sanic/router.py:75 | compiling is compositional over the template's pieces |
| Templates.ScanOnePlaceholder | sanic/router.py:75 | a plain prefix followed by one placeholder scans as the prefix's characters and that placeholder |
| Templates.OnePlaceholderCompiles | sanic/router.py:62-75 | such a template compiles to the prefix's literals and the placeholder's group, with its one parameter |
| Matching.MatchFrom | sanic/router.py:76 | a match from position i captures one value per group of the pattern (with MatchSound and MatchComplete: it succeeds exactly when some split fits) |
| Matching.MatchGroup | sanic/router.py:76 | a match of a pattern that starts with a group captures one value per group |
| Matching.TryEnds | sanic/router.py:76 | trying a group's ends in order yields one capture per group |
| Matching.FullMatch | sanic/router.py:98 | `pattern.match(url)` on `^...$` captures one value per group |
| Matching.RepeatEnds | sanic/router.py:11-14 | a built-in group may end at e exactly when it takes at least one character and all of them are in its class |
| Matching.MatchSound | sanic/router.py:76 | what the matcher returns is a split of the subject that fits the pattern |
| Matching.MatchComplete | sanic/router.py:76 | whenever a split fits the pattern, the matcher finds a match |
| Matching.ParsesGroupCount | sanic/router.py:112-114 | a match has exactly one capture per group |
| Matching.ParsesSlashes | sanic/router.py:100 | a URL matched by a built-in pattern has exactly the pattern's literal slashes |
| Matching.MatchLitsThen | sanic/router.py:76 | a literal prefix must appear verbatim, and matching goes on after it |
| Matching.LitsMatch | sanic/router.py:76 | literals match exactly when the text follows and then the end, or a final newline |
| Matching.StaticFullMatch | sanic/router.py:96-98 | a static pattern matches its own text, and otherwise only that text plus one newline |
| Matching.DigitGroupMatch | sanic/router.py:12 | `prefix(\d+)` matches prefix + tail exactly when the tail is digits, or digits and a final newline, and captures the digits |
| Routing.MethodSet | sanic/router.py:57-58 | the set holds exactly the given methods, and it is empty exactly when none were given |
| Routing.StorageKey | sanic/router.py:82-83 | a template without placeholders is stored under itself, and any other under its URL hash |
| Routing.Append | sanic/router.py:84 | only the key's list changes, and it grows by the route at its end |
| Routing.AfterLookup | sanic/router.py:100 | the bucket read inserts an empty list under a missing hash and changes nothing else |
| Routing.FirstMatch | sanic/router.py:100-105 | the index of the first route of the bucket whose pattern matches, and None exactly when none does |
| Routing.NewRoute | sanic/router.py:78-80 | the route add builds holds the handler and the method set, and has one parameter and one group per placeholder |
| Routing.Kwargs | sanic/router.py:112-114 | the comprehension fails only with a ValueError, and a success keeps every key it started from (with KwargsFailure and KwargsSuccess: which pairs fail and what each name holds) |
| Routing.Lookup | sanic/router.py:94-115 | a success has no positional arguments; IndexError exactly when the URL is a key with an empty list; NotFound only for a URL that is not a key; a refused method is InvalidUsage with status 405 |
| Routing.Router.constructor | sanic/router.py:42-43 | the table starts empty |
| Routing.Router.Add | sanic/router.py:45-84 | compiles the template and appends the route to the list of its storage key; the table stays well formed |
| Routing.Router.Get | sanic/router.py:87-115 | returns what Lookup specifies: static key, then the first match of the hash bucket, the method check, the casts; the only change is the empty list a miss inserts |
| RoutingProperties.StaticRouteResolves | sanic/router.py:96-98 | a registered static path resolves to its handler with no arguments, for every method it allows |
| RoutingProperties.DuplicateStaticFirstWins | sanic/router.py:96-97 | registering a static path twice keeps the first handler |
| RoutingProperties.AddKeepsResolution | sanic/router.py:100-103 | a URL that resolves keeps the same outcome when routes are added under another key |
| RoutingProperties.NotFoundExactly | sanic/router.py:99-105 | NotFound exactly when the URL is not a key and no route of its bucket matches |
| RoutingProperties.MethodCheck | sanic/router.py:107-110 | 405 exactly when the chosen route names methods and not this one; the method never decides NotFound; a route with no methods answers every method alike |
| RoutingProperties.KwargsFailure | sanic/router.py:112-114 | the dictionary fails exactly when some zipped cast fails, with a ValueError |
| RoutingProperties.KwargsSuccess | sanic/router.py:112-114 | the keys are exactly the zipped names; each name holds the cast of the value at its last occurrence |
| RoutingProperties.CapturesPerParameter | sanic/router.py:112-114 | a well-formed route's match captures one value per parameter |
| RoutingProperties.LookupSuccess | sanic/router.py:94-115 | a success returns the chosen route's handler, no positional arguments, and one keyword per parameter name bound to its cast capture |
| RoutingProperties.NoFalseNotFound | sanic/router.py:82-105 | a route whose placeholders are built-in types without `/` is stored in the bucket of every URL it matches, so such a URL is never NotFound |
| RoutingProperties.MissOnlyAddsEmptyBucket | sanic/router.py:100 | the empty list a miss inserts changes no later lookup, except for the hash string itself |
| RoutingProperties.EmptyBucketCrash | sanic/router.py:96-97 | when neither the URL nor its hash is a key, a request for that hash string then fails with IndexError instead of NotFound |
| RoutingProperties.KeyMissCrash | sanic/router.py:96-98 | a URL that is a non-empty key, whose first route allows the method but does not match it, fails with AttributeError |
| RoutingProperties.IntParameter | sanic/router.py:66-72 | `<name:int>` declares an int parameter captured by `\d+` |
| RoutingProperties.IntRouteCompiles | sanic/router.py:75-83 | prefix + `<name:int>` compiles to the prefix's literals and one digit group, and is stored under its URL hash |
| RoutingProperties.SingleRouteLookup | sanic/router.py:100-105 | in a table holding only that route, a URL of its bucket that is not the key itself is NotFound or decided by that route's match |
| RoutingProperties.IntRouteResolves | sanic/router.py:87-115 | in a table holding only the route for prefix + `<name:int>`, prefix + digits resolves to the handler with the digits' value under the name for allowed methods, and 405 otherwise |
| RoutingProperties.IntRouteRejects | sanic/router.py:100-105 | in a table holding only that route, prefix + a tail that is neither digits nor digits and a final newline is not found, unless the URL is the bucket key itself |
| RoutingProperties.UsersGet | sanic/router.py:45-115 | with `/users/<id:int>` for GET, a GET of `/users/7` gives id = 7 |
| RoutingProperties.UsersPost | sanic/router.py:45-115 | a POST of `/users/7` is refused with 405 |
| RoutingProperties.UsersMissing | sanic/router.py:45-115 | `/users/x` is not found |
| RoutingProperties.UsersBucketKey | sanic/router.py:45-115 | a GET of the route's bucket key, the url_hash of the template (`:/:/:`), reads that route as a static path and fails with AttributeError |

## Left out

- The `lru_cache` on `get` is not modelled. `Get` is the uncached lookup,
  which is what the cache returns for a repeated request, except that a
  cached answer does not see routes added later.
- The regex engine is modelled only for the patterns the router builds:
  literal characters, and groups holding a built-in class or a custom
  regex. A metacharacter in the literal text of a template (`.`, `*`, `(`
  and so on) is treated as a literal character, which it is not in Python.
- Custom regexes in `<name:regex>` are not interpreted. Their possible
  match ends come from the `CustomEngine` parameter. An invalid regex,
  which makes `re.compile` raise, and capture groups inside a custom
  regex, which shift `match.groups`, are not modelled.
- `RegexTypes.ApplyCast`: `float()` is not modelled as a number. The value
  is kept as the accepted text. It agrees with `float()` and `int()` only
  on strings over digits, `\` and `.`, the text the built-in classes can
  capture. The int and float casts reject every other string, although `int()` and `float()`
  accept surrounding whitespace, signs, underscores between digits,
  Unicode digits, and (for `float()`) exponents such as `1e5` and the words
  `inf` and `nan`. None of these can be captured by `\d+` or
  `[0-9\.]+`. Non-ASCII digits for `\d` are not modelled either.
- The exception classes `NotFound` and `InvalidUsage` are error values,
  with their message text reduced to the URL and the method. The request
  object is reduced to its URL and method.
- `methods` is a list of names. `None` and a bare string (iterated by
  `frozenset`) are not modelled. An empty list, like `None`, means any
  method.
- Concurrent use of one router is not modelled.
- `Config.ROUTER_CACHE_SIZE` and the `Config` and exceptions modules are not
  part of this model.
