/** The template compiler of Router.add: re.sub(r'<(.+?)>', add_parameter, uri)
    walks the template left to right; each placeholder `<name>` or
    `<name:type>` becomes a Parameter (appended to a list) and a capture
    group, and every other character is copied through as a literal. */
module Templates {
  import opened Wrappers
  import opened RegexTypes
  import opened Matching
  import Hashing

  /** Python's Parameter namedtuple. */
  datatype Parameter = Parameter(name: string, cast: Cast)

  /** The template as re.sub sees it: characters outside any match, and the
      text between the brackets of each match. */
  datatype Piece = Char(c: char) | Placeholder(body: string)

  /** `<(.+?)>` can match at i and close at j: '<' at i, at least one
      character in between, none of them a newline, and '>' at j. */
  predicate IsClose(t: string, i: nat, j: nat) {
    && i + 2 <= j < |t|
    && t[i] == '<' && t[j] == '>'
    && forall k :: i < k < j ==> t[k] != '\n'
  }

  /** Where `<(.+?)>` matches at i: the lazy `+?` stops at the first '>'
      after at least one character, and fails at a newline. */
  function PlaceholderClose(t: string, i: nat): (r: Option<nat>)
    requires i <= |t|
    ensures r.Some? ==> IsClose(t, i, r.value) && forall j :: i <= j < r.value ==> !IsClose(t, i, j)
    ensures r.None? ==> forall j :: !IsClose(t, i, j)
  {
    if i + 1 < |t| && t[i] == '<' && t[i + 1] != '\n' then CloseFrom(t, i, i + 2) else None
  }

  function CloseFrom(t: string, i: nat, k: nat): (r: Option<nat>)
    requires i + 2 <= k <= |t| && t[i] == '<'
    requires forall m :: i < m < k ==> t[m] != '\n'
    requires forall m :: i + 2 <= m < k ==> t[m] != '>'
    ensures r.Some? ==> IsClose(t, i, r.value) && forall j :: i <= j < r.value ==> !IsClose(t, i, j)
    ensures r.None? ==> forall j :: !IsClose(t, i, j)
    decreases |t| - k
  {
    if k == |t| then None
    else if t[k] == '>' then Some(k)
    else if t[k] == '\n' then None
    else CloseFrom(t, i, k + 1)
  }

  /** re.sub's left-to-right scan of t[i..]: after a match, scanning goes on
      just past its '>'. */
  function Scan(t: string, i: nat): (ps: seq<Piece>)
    requires i <= |t|
    ensures forall k :: 0 <= k < |ps| && ps[k].Placeholder? ==> PlaceholderBody(ps[k].body)
    decreases |t| - i
  {
    if i == |t| then []
    else
      match PlaceholderClose(t, i)
      case Some(j) =>
        CloseBody(t, i, j);
        [Placeholder(t[i + 1..j])] + Scan(t, j + 1)
      case None => [Char(t[i])] + Scan(t, i + 1)
  }

  /** What `(.+?)` can capture between the brackets: at least one character,
      no newline, and no '>' after the first character (the lazy match stops
      at the first '>' it may). */
  predicate PlaceholderBody(b: string) {
    b != [] && '\n' !in b && '>' !in b[1..]
  }

  lemma CloseBody(t: string, i: nat, j: nat)
    requires i <= |t| && PlaceholderClose(t, i) == Some(j)
    ensures PlaceholderBody(t[i + 1..j])
  {
    var b := t[i + 1..j];
    forall m | 1 <= m < |b| ensures b[m] != '>' {
      assert !IsClose(t, i, i + 1 + m);
    }
    forall m | 0 <= m < |b| ensures b[m] != '\n' {
      assert t[i + 1 + m] == b[m];
    }
  }

  /** The template text the pieces were read from. */
  function Render(ps: seq<Piece>): string {
    if ps == [] then []
    else
      match ps[0]
      case Char(c) => [c] + Render(ps[1..])
      case Placeholder(b) => "<" + b + ">" + Render(ps[1..])
  }

  /** The position of the first occurrence of c in s. */
  function FirstIndex(s: string, c: char): (k: nat)
    requires c in s
    ensures k < |s| && s[k] == c && c !in s[..k]
  {
    if s[0] == c then 0 else 1 + FirstIndex(s[1..], c)
  }

  /** name.split(':', 1) with 'string' as the type when there is no ':'. */
  function SplitParameter(body: string): (r: (string, string))
    ensures ':' !in r.0
    ensures ':' in body ==> r.0 + ":" + r.1 == body
    ensures ':' !in body ==> r == (body, "string")
  {
    if ':' in body then
      var k := FirstIndex(body, ':');
      assert body == body[..k] + ":" + body[k + 1..];
      (body[..k], body[k + 1..])
    else (body, "string")
  }

  /** The add_parameter callback: the Parameter it appends and the capture
      group it puts in place of the placeholder. */
  function AddParameter(body: string): (r: (Parameter, PatternToken))
    ensures ':' !in r.0.name && r.1.Group?
    ensures ':' !in body ==> r == (Parameter(body, StrCast), Group(Repeat(NotSlash)))
    ensures ':' in body ==> body == r.0.name + ":" + SplitParameter(body).1
    ensures r.0.cast == IntCast <==> ':' in body && SplitParameter(body).1 == "int"
    ensures ':' in body ==> r.0.cast == TypeOf(SplitParameter(body).1).0 && r.1 == Group(TypeOf(SplitParameter(body).1).1)
  {
    var (name, token) := SplitParameter(body);
    var (cast, sub) := TypeOf(token);
    (Parameter(name, cast), Group(sub))
  }

  function CompilePiece(p: Piece): PatternToken {
    match p
    case Char(c) => Lit(c)
    case Placeholder(b) => AddParameter(b).1
  }

  /** The pattern the scan builds (without ^ and $, which MatchFrom
      supplies). */
  function PatternOf(ps: seq<Piece>): seq<PatternToken> {
    if ps == [] then [] else [CompilePiece(ps[0])] + PatternOf(ps[1..])
  }

  /** The bodies of the placeholders, left to right. */
  function Placeholders(ps: seq<Piece>): seq<string> {
    if ps == [] then []
    else (if ps[0].Placeholder? then [ps[0].body] else []) + Placeholders(ps[1..])
  }

  /** The parameters list add_parameter fills, left to right. */
  function ParametersOf(ps: seq<Piece>): seq<Parameter> {
    if ps == [] then []
    else (if ps[0].Placeholder? then [AddParameter(ps[0].body).0] else []) + ParametersOf(ps[1..])
  }

  /** Router.add's compilation step: the loop is re.sub's walk over the
      template, each placeholder appending its Parameter. */
  method Compile(uri: string) returns (pattern: seq<PatternToken>, parameters: seq<Parameter>)
    ensures pattern == PatternOf(Scan(uri, 0))
    ensures parameters == ParametersOf(Scan(uri, 0))
  {
    pattern, parameters := [], [];
    var i := 0;
    while i < |uri|
      invariant 0 <= i <= |uri|
      invariant Compiled(uri, i, pattern, parameters)
      decreases |uri| - i
    {
      var close := PlaceholderClose(uri, i);
      if close.Some? {
        var j := close.value;
        var added := AddParameter(uri[i + 1..j]);
        CompilePlaceholder(uri, i, j, pattern, parameters);
        parameters := parameters + [added.0];
        pattern := pattern + [added.1];
        i := j + 1;
      } else {
        CompileChar(uri, i, pattern, parameters);
        pattern := pattern + [Lit(uri[i])];
        i := i + 1;
      }
    }
  }

  /** The loop invariant of Compile: what is built so far, followed by what
      the rest of the scan builds, is what the whole scan builds. */
  ghost predicate Compiled(uri: string, i: nat, pattern: seq<PatternToken>, parameters: seq<Parameter>)
    requires i <= |uri|
  {
    && pattern + PatternOf(Scan(uri, i)) == PatternOf(Scan(uri, 0))
    && parameters + ParametersOf(Scan(uri, i)) == ParametersOf(Scan(uri, 0))
  }

  lemma CompilePlaceholder(uri: string, i: nat, j: nat, pattern: seq<PatternToken>, parameters: seq<Parameter>)
    requires i < |uri| && PlaceholderClose(uri, i) == Some(j)
    requires Compiled(uri, i, pattern, parameters)
    ensures Compiled(uri, j + 1, pattern + [AddParameter(uri[i + 1..j]).1], parameters + [AddParameter(uri[i + 1..j]).0])
  {
    var added := AddParameter(uri[i + 1..j]);
    PlaceholderStep(uri, i, j);
    Regroup(pattern, added.1, PatternOf(Scan(uri, j + 1)), PatternOf(Scan(uri, i)));
    Regroup(parameters, added.0, ParametersOf(Scan(uri, j + 1)), ParametersOf(Scan(uri, i)));
  }

  lemma CompileChar(uri: string, i: nat, pattern: seq<PatternToken>, parameters: seq<Parameter>)
    requires i < |uri| && PlaceholderClose(uri, i).None?
    requires Compiled(uri, i, pattern, parameters)
    ensures Compiled(uri, i + 1, pattern + [Lit(uri[i])], parameters)
  {
    CharStep(uri, i);
    Regroup(pattern, Lit(uri[i]), PatternOf(Scan(uri, i + 1)), PatternOf(Scan(uri, i)));
  }

  lemma Regroup<T>(a: seq<T>, x: T, b: seq<T>, c: seq<T>)
    requires c == [x] + b
    ensures a + c == (a + [x]) + b
  {
  }

  lemma Reassociate<T>(a: seq<T>, b: seq<T>, c: seq<T>)
    ensures a + (b + c) == (a + b) + c
  {
  }

  /** A step of the scan over a placeholder adds one group and one
      parameter. */
  lemma PlaceholderStep(t: string, i: nat, j: nat)
    requires i < |t| && PlaceholderClose(t, i) == Some(j)
    ensures PatternOf(Scan(t, i)) == [AddParameter(t[i + 1..j]).1] + PatternOf(Scan(t, j + 1))
    ensures ParametersOf(Scan(t, i)) == [AddParameter(t[i + 1..j]).0] + ParametersOf(Scan(t, j + 1))
  {
    ScanPlaceholder(t, i, j);
  }

  /** A step of the scan over a plain character adds that literal and no
      parameter. */
  lemma CharStep(t: string, i: nat)
    requires i < |t| && PlaceholderClose(t, i).None?
    ensures PatternOf(Scan(t, i)) == [Lit(t[i])] + PatternOf(Scan(t, i + 1))
    ensures ParametersOf(Scan(t, i)) == ParametersOf(Scan(t, i + 1))
  {
    ScanChar(t, i);
  }

  /** The scan loses nothing: its pieces spell the template again. */
  lemma {:induction false} ScanRender(t: string, i: nat)
    requires i <= |t|
    ensures Render(Scan(t, i)) == t[i..]
    decreases |t| - i
  {
    if i < |t| {
      match PlaceholderClose(t, i)
      case Some(j) =>
        ScanRender(t, j + 1);
        RenderPlaceholder(t, i, j);
      case None =>
        ScanRender(t, i + 1);
        RenderChar(t, i);
    }
  }

  lemma RenderPlaceholder(t: string, i: nat, j: nat)
    requires i < |t| && PlaceholderClose(t, i) == Some(j)
    ensures Render(Scan(t, i)) == "<" + t[i + 1..j] + ">" + Render(Scan(t, j + 1))
    ensures t[i..] == "<" + t[i + 1..j] + ">" + t[j + 1..]
  {
    ScanPlaceholder(t, i, j);
    SplitAround(t, i, j);
  }

  lemma RenderChar(t: string, i: nat)
    requires i < |t| && PlaceholderClose(t, i).None?
    ensures Render(Scan(t, i)) == [t[i]] + Render(Scan(t, i + 1))
    ensures t[i..] == [t[i]] + t[i + 1..]
  {
    ScanChar(t, i);
    RenderCons(Scan(t, i));
    SliceCons(t, i);
  }

  lemma RenderCons(ps: seq<Piece>)
    requires ps != [] && ps[0].Char?
    ensures Render(ps) == [ps[0].c] + Render(ps[1..])
  {
  }

  lemma SliceCons(t: string, i: nat)
    requires i < |t|
    ensures t[i..] == [t[i]] + t[i + 1..]
  {
    assert t[i..][0] == t[i] && t[i..][1..] == t[i + 1..];
  }

  /** The first piece of the scan at a placeholder, and the rest. */
  lemma ScanPlaceholder(t: string, i: nat, j: nat)
    requires i < |t| && PlaceholderClose(t, i) == Some(j)
    ensures Scan(t, i) != [] && Scan(t, i)[0] == Placeholder(t[i + 1..j]) && Scan(t, i)[1..] == Scan(t, j + 1)
  {
    assert Scan(t, i) == [Placeholder(t[i + 1..j])] + Scan(t, j + 1);
  }

  /** The first piece of the scan at a plain character, and the rest. */
  lemma ScanChar(t: string, i: nat)
    requires i < |t| && PlaceholderClose(t, i).None?
    ensures Scan(t, i) == [Char(t[i])] + Scan(t, i + 1)
    ensures Scan(t, i) != [] && Scan(t, i)[0] == Char(t[i]) && Scan(t, i)[1..] == Scan(t, i + 1)
  {
    assert Scan(t, i) == [Char(t[i])] + Scan(t, i + 1);
  }

  lemma SplitAround(t: string, i: nat, j: nat)
    requires i < j < |t| && t[i] == '<' && t[j] == '>'
    ensures t[i..] == "<" + t[i + 1..j] + ">" + t[j + 1..]
  {
    assert t[i..] == [t[i]] + t[i + 1..j] + [t[j]] + t[j + 1..];
  }

  /** Exactly one Parameter and one capture group per placeholder. */
  lemma {:induction false} OneParameterPerPlaceholder(ps: seq<Piece>)
    ensures |ParametersOf(ps)| == |Placeholders(ps)| == GroupCount(PatternOf(ps))
  {
    if ps != [] {
      OneParameterPerPlaceholder(ps[1..]);
      assert PatternOf(ps)[0] == CompilePiece(ps[0]);
      assert PatternOf(ps)[1..] == PatternOf(ps[1..]);
    }
  }

  /** Left-to-right order: the k-th parameter and the k-th capture group
      both come from the k-th placeholder of the template. */
  lemma ParameterAt(ps: seq<Piece>, k: nat)
    requires k < |Placeholders(ps)|
    ensures k < |ParametersOf(ps)| && k < |Groups(PatternOf(ps))|
    ensures ParametersOf(ps)[k] == AddParameter(Placeholders(ps)[k]).0
    ensures Group(Groups(PatternOf(ps))[k]) == AddParameter(Placeholders(ps)[k]).1
  {
    ParameterIndex(ps, k);
    GroupIndex(ps, k);
  }

  lemma {:induction false} ParameterIndex(ps: seq<Piece>, k: nat)
    requires k < |Placeholders(ps)|
    ensures k < |ParametersOf(ps)| && ParametersOf(ps)[k] == AddParameter(Placeholders(ps)[k]).0
  {
    ParametersStep(ps);
    if ps[0].Placeholder? {
      if k > 0 {
        ParameterIndex(ps[1..], k - 1);
      }
    } else {
      ParameterIndex(ps[1..], k);
    }
  }

  lemma {:induction false} GroupIndex(ps: seq<Piece>, k: nat)
    requires k < |Placeholders(ps)|
    ensures k < |Groups(PatternOf(ps))| && Group(Groups(PatternOf(ps))[k]) == AddParameter(Placeholders(ps)[k]).1
  {
    GroupsStep(ps);
    if ps[0].Placeholder? {
      if k > 0 {
        GroupIndex(ps[1..], k - 1);
      }
    } else {
      GroupIndex(ps[1..], k);
    }
  }

  /** The parameters and placeholders of a template, one piece at a time. */
  lemma ParametersStep(ps: seq<Piece>)
    requires ps != []
    ensures ps[0].Placeholder? ==>
      && ParametersOf(ps) != [] && ParametersOf(ps)[0] == AddParameter(ps[0].body).0 && ParametersOf(ps)[1..] == ParametersOf(ps[1..])
      && Placeholders(ps) != [] && Placeholders(ps)[0] == ps[0].body && Placeholders(ps)[1..] == Placeholders(ps[1..])
    ensures ps[0].Char? ==> ParametersOf(ps) == ParametersOf(ps[1..]) && Placeholders(ps) == Placeholders(ps[1..])
  {
    if ps[0].Placeholder? {
      assert ParametersOf(ps) == [AddParameter(ps[0].body).0] + ParametersOf(ps[1..]);
      assert Placeholders(ps) == [ps[0].body] + Placeholders(ps[1..]);
    }
  }

  /** The groups of a compiled template, one piece at a time. */
  lemma GroupsStep(ps: seq<Piece>)
    requires ps != []
    ensures Groups(PatternOf(ps)) == (if ps[0].Placeholder? then [AddParameter(ps[0].body).1.sub] else []) + Groups(PatternOf(ps[1..]))
  {
    var p := PatternOf(ps);
    assert p[0] == CompilePiece(ps[0]) && p[1..] == PatternOf(ps[1..]);
  }

  /** A template without placeholders compiles to its own characters. */
  lemma {:induction false} StaticPattern(ps: seq<Piece>)
    requires Placeholders(ps) == []
    ensures PatternOf(ps) == Lits(Render(ps)) && ParametersOf(ps) == []
  {
    if ps != [] {
      StaticPattern(ps[1..]);
      assert Render(ps)[0] == ps[0].c && Render(ps)[1..] == Render(ps[1..]);
    }
  }

  /** If no placeholder holds a '/', the template and its pattern have the
      same slashes. */
  lemma {:induction false} PatternSlashes(ps: seq<Piece>)
    requires forall b :: b in Placeholders(ps) ==> '/' !in b
    ensures Hashing.Count(Render(ps), '/') == LitSlashes(PatternOf(ps))
  {
    if ps != [] {
      PatternSlashes(ps[1..]);
      assert PatternOf(ps)[1..] == PatternOf(ps[1..]);
      match ps[0]
      case Char(c) =>
        Hashing.CountConcat([c], Render(ps[1..]), '/');
      case Placeholder(b) =>
        assert b in Placeholders(ps);
        BodySlashes(b);
        Hashing.CountConcat("<" + b + ">", Render(ps[1..]), '/');
        Hashing.CountConcat("<" + b, ">", '/');
        Hashing.CountConcat("<", b, '/');
    }
  }

  lemma {:induction false} BodySlashes(b: string)
    requires '/' !in b
    ensures Hashing.Count(b, '/') == 0
  {
    if b != [] {
      BodySlashes(b[1..]);
    }
  }

  /** When every placeholder names a built-in type, every group of the
      pattern is a built-in class. */
  lemma {:induction false} BuiltinPattern(ps: seq<Piece>)
    requires forall b :: b in Placeholders(ps) ==> SplitParameter(b).1 in BuiltinNames
    ensures BuiltinOnly(PatternOf(ps))
  {
    if ps != [] {
      BuiltinPattern(ps[1..]);
      var p := PatternOf(ps);
      assert p[1..] == PatternOf(ps[1..]);
      if ps[0].Placeholder? {
        assert ps[0].body in Placeholders(ps);
      }
      forall k | 0 <= k < |p| && p[k].Group? ensures p[k].sub.Repeat? {
        if k > 0 {
          assert p[k] == PatternOf(ps[1..])[k - 1];
        }
      }
    }
  }

  /** The pieces of a run of plain characters. */
  function CharPieces(a: string): (ps: seq<Piece>)
    ensures |ps| == |a|
  {
    if a == [] then [] else [Char(a[0])] + CharPieces(a[1..])
  }

  /** A stretch of the template without '<' is copied through character by
      character. */
  lemma {:induction false} ScanChars(t: string, i: nat, j: nat)
    requires i <= j <= |t|
    requires forall k :: i <= k < j ==> t[k] != '<'
    ensures Scan(t, i) == CharPieces(t[i..j]) + Scan(t, j)
    decreases j - i
  {
    if i < j {
      ScanChar(t, i);
      ScanChars(t, i + 1, j);
      CharPiecesStep(t, i, j);
      Reassociate([Char(t[i])], CharPieces(t[i + 1..j]), Scan(t, j));
    }
  }

  lemma CharPiecesStep(t: string, i: nat, j: nat)
    requires i < j <= |t|
    ensures CharPieces(t[i..j]) == [Char(t[i])] + CharPieces(t[i + 1..j])
  {
    assert t[i..j][0] == t[i] && t[i..j][1..] == t[i + 1..j];
  }

  lemma CompileConcat(a: seq<Piece>, b: seq<Piece>)
    ensures PatternOf(a + b) == PatternOf(a) + PatternOf(b)
    ensures ParametersOf(a + b) == ParametersOf(a) + ParametersOf(b)
  {
    PatternConcat(a, b);
    ParametersConcat(a, b);
  }

  lemma {:induction false} PatternConcat(a: seq<Piece>, b: seq<Piece>)
    ensures PatternOf(a + b) == PatternOf(a) + PatternOf(b)
  {
    if a == [] {
      assert a + b == b;
    } else {
      assert (a + b)[0] == a[0] && (a + b)[1..] == a[1..] + b;
      PatternConcat(a[1..], b);
    }
  }

  lemma {:induction false} ParametersConcat(a: seq<Piece>, b: seq<Piece>)
    ensures ParametersOf(a + b) == ParametersOf(a) + ParametersOf(b)
  {
    if a == [] {
      assert a + b == b;
    } else {
      assert (a + b)[0] == a[0] && (a + b)[1..] == a[1..] + b;
      ParametersConcat(a[1..], b);
    }
  }

  lemma {:induction false} CompileChars(a: string)
    ensures PatternOf(CharPieces(a)) == Lits(a) && ParametersOf(CharPieces(a)) == []
  {
    if a != [] {
      CompileChars(a[1..]);
    }
  }

  /** A template made of a literal prefix and one trailing placeholder scans
      to the prefix's characters followed by that placeholder. */
  lemma ScanOnePlaceholder(prefix: string, body: string)
    requires '<' !in prefix
    requires body != [] && '\n' !in body && '>' !in body
    ensures Scan(prefix + "<" + body + ">", 0) == CharPieces(prefix) + [Placeholder(body)]
  {
    var t := prefix + "<" + body + ">";
    var i := |prefix|;
    PrefixChars(prefix, "<" + body + ">");
    assert t == prefix + ("<" + body + ">");
    ScanChars(t, 0, i);
    ClosingBracket(prefix, body);
  }

  /** A template with one placeholder after a plain prefix compiles to the
      prefix's literals and that placeholder's group, with its one
      parameter. */
  lemma OnePlaceholderCompiles(prefix: string, body: string)
    requires '<' !in prefix
    requires body != [] && '\n' !in body && '>' !in body
    ensures PatternOf(Scan(prefix + "<" + body + ">", 0)) == Lits(prefix) + [AddParameter(body).1]
    ensures ParametersOf(Scan(prefix + "<" + body + ">", 0)) == [AddParameter(body).0]
  {
    ScanOnePlaceholder(prefix, body);
    PlaceholderPiece(body);
    CompileConcat(CharPieces(prefix), [Placeholder(body)]);
    CompileChars(prefix);
  }

  lemma PlaceholderPiece(body: string)
    ensures PatternOf([Placeholder(body)]) == [AddParameter(body).1]
    ensures ParametersOf([Placeholder(body)]) == [AddParameter(body).0]
  {
  }

  lemma PrefixChars(prefix: string, rest: string)
    requires '<' !in prefix
    ensures forall k :: 0 <= k < |prefix| ==> (prefix + rest)[k] != '<'
    ensures (prefix + rest)[0..|prefix|] == prefix
  {
  }

  /** The placeholder after the prefix closes at its own '>', and the scan
      stops there. */
  lemma ClosingBracket(prefix: string, body: string)
    requires body != [] && '\n' !in body && '>' !in body
    ensures var t, i := prefix + "<" + body + ">", |prefix|;
      Scan(t, i) == [Placeholder(body)]
  {
    var t := prefix + "<" + body + ">";
    var i, close := |prefix|, |prefix| + |body| + 1;
    assert forall k :: i < k < close ==> t[k] == body[k - i - 1];
    assert IsClose(t, i, close);
    assert PlaceholderClose(t, i) == Some(close);
    assert t[i + 1..close] == body;
    assert Scan(t, close + 1) == [];
  }
}
