/** The compiled route pattern and its anchored match, standing in for
    Python's re on the patterns the router builds: `^` then literal
    characters and capture groups, then `$`. A group holds a built-in class
    repeated with `+` (greedy, giving back one character at a time when what
    follows fails) or a custom regular expression, whose possible matches come
    from a CustomEngine. As in Python, `$` also matches just before a final
    newline. */
module Matching {
  import opened Wrappers
  import opened RegexTypes
  import Hashing

  datatype PatternToken = Lit(c: char) | Group(sub: SubPattern)

  /** What Python's re contributes for a custom sub-pattern: given its text,
      the subject and a start position, the end positions at which it can
      match from there, in the order the backtracking engine tries them. */
  type CustomEngine = (string, string, nat) -> seq<nat>

  /** The length of the longest run of class characters starting at i. */
  function RunLength(cls: CharClass, s: string, i: nat): (n: nat)
    requires i <= |s|
    ensures i + n <= |s|
    ensures forall k :: i <= k < i + n ==> InClass(cls, s[k])
    ensures i + n == |s| || !InClass(cls, s[i + n])
    decreases |s| - i
  {
    if i < |s| && InClass(cls, s[i]) then 1 + RunLength(cls, s, i + 1) else 0
  }

  /** The elements of ends between lo and hi, in their order. */
  function InRange(ends: seq<nat>, lo: nat, hi: nat): (r: seq<nat>)
    ensures forall e :: e in r <==> e in ends && lo <= e <= hi
    ensures forall k :: 0 <= k < |r| ==> lo <= r[k] <= hi
  {
    if ends == [] then []
    else (if lo <= ends[0] <= hi then [ends[0]] else []) + InRange(ends[1..], lo, hi)
  }

  /** The end positions a group starting at i can take, in the order they
      are tried: for a built-in class the longest run first, down to one
      character. The bound is stated by membership and by index, so that
      proofs reasoning either way find it. */
  function Ends(sub: SubPattern, s: string, i: nat, engine: CustomEngine): (ends: seq<nat>)
    requires i <= |s|
    ensures forall e :: e in ends ==> i <= e <= |s|
    ensures forall k :: 0 <= k < |ends| ==> i <= ends[k] <= |s|
  {
    match sub
    case Repeat(cls) =>
      var n := RunLength(cls, s, i);
      seq(n, k requires 0 <= k < n => i + n - k)
    case Custom(rx) => InRange(engine(rx, s, i), i, |s|)
  }

  /** `$`: the end of the subject, or just before its final newline. */
  predicate AtEnd(s: string, i: nat) {
    i == |s| || (i + 1 == |s| && s[i] == '\n')
  }

  /** The captures of the first match of p against s from position i that a
      backtracking engine finds, or None when there is none. */
  function MatchFrom(p: seq<PatternToken>, s: string, i: nat, engine: CustomEngine): (r: Option<seq<string>>)
    requires i <= |s|
    ensures r.Some? ==> |r.value| == GroupCount(p)
    decreases |p|, 2, 0
  {
    if p == [] then
      if AtEnd(s, i) then Some([]) else None
    else
      match p[0]
      case Lit(c) =>
        if i < |s| && s[i] == c then MatchFrom(p[1..], s, i + 1, engine) else None
      case Group(_) => MatchGroup(p, s, i, engine)
  }

  /** The leading group of p, tried at each of the ends it can take. */
  function MatchGroup(p: seq<PatternToken>, s: string, i: nat, engine: CustomEngine): (r: Option<seq<string>>)
    requires p != [] && p[0].Group? && i <= |s|
    ensures r.Some? ==> |r.value| == GroupCount(p)
    decreases |p|, 1, 0
  {
    TryEnds(p, s, i, Ends(p[0].sub, s, i, engine), engine)
  }

  /** Tries the leading group of p at each end in turn; the first end from
      which the rest of p matches wins. */
  function TryEnds(p: seq<PatternToken>, s: string, i: nat, ends: seq<nat>, engine: CustomEngine)
    : (r: Option<seq<string>>)
    requires p != [] && p[0].Group? && i <= |s|
    requires forall k :: 0 <= k < |ends| ==> i <= ends[k] <= |s|
    ensures r.Some? ==> |r.value| == GroupCount(p)
    decreases |p|, 0, |ends|
  {
    if ends == [] then None
    else
      match MatchFrom(p[1..], s, ends[0], engine)
      case Some(rest) => Some([s[i..ends[0]]] + rest)
      case None => TryEnds(p, s, i, ends[1..], engine)
  }

  /** pattern.match(url) for the anchored pattern ^p$. */
  function FullMatch(p: seq<PatternToken>, s: string, engine: CustomEngine): (r: Option<seq<string>>)
    ensures r.Some? ==> |r.value| == GroupCount(p)
  {
    MatchFrom(p, s, 0, engine)
  }

  /** Declarative reading of a match: caps splits s[i..] into the pieces p
      asks for, each group's piece ending where that group may end. */
  ghost predicate Parses(p: seq<PatternToken>, s: string, i: nat, caps: seq<string>, engine: CustomEngine)
    requires i <= |s|
    decreases |p|
  {
    if p == [] then caps == [] && AtEnd(s, i)
    else
      match p[0]
      case Lit(c) => i < |s| && s[i] == c && Parses(p[1..], s, i + 1, caps, engine)
      case Group(sub) =>
        && caps != []
        && i + |caps[0]| in Ends(sub, s, i, engine)
        && s[i..i + |caps[0]|] == caps[0]
        && Parses(p[1..], s, i + |caps[0]|, caps[1..], engine)
  }

  function GroupCount(p: seq<PatternToken>): nat {
    if p == [] then 0 else (if p[0].Group? then 1 else 0) + GroupCount(p[1..])
  }

  /** The sub-patterns of p's groups, left to right. */
  function Groups(p: seq<PatternToken>): (g: seq<SubPattern>)
    ensures |g| == GroupCount(p)
  {
    if p == [] then []
    else (if p[0].Group? then [p[0].sub] else []) + Groups(p[1..])
  }

  predicate BuiltinOnly(p: seq<PatternToken>) {
    forall k :: 0 <= k < |p| && p[k].Group? ==> p[k].sub.Repeat?
  }

  /** The number of literal '/' characters in p. */
  function LitSlashes(p: seq<PatternToken>): nat {
    if p == [] then 0 else (if p[0] == Lit('/') then 1 else 0) + LitSlashes(p[1..])
  }

  /** The pattern of a template with no placeholders: its own characters. */
  function Lits(t: string): (p: seq<PatternToken>)
    ensures |p| == |t| && GroupCount(p) == 0
  {
    if t == [] then [] else [Lit(t[0])] + Lits(t[1..])
  }

  /** A built-in group may end at e exactly when it takes at least one
      character and every character it takes is in its class. */
  lemma RepeatEnds(cls: CharClass, s: string, i: nat, e: nat, engine: CustomEngine)
    requires i <= |s|
    ensures e in Ends(Repeat(cls), s, i, engine) <==>
      i < e <= |s| && forall k :: i <= k < e ==> InClass(cls, s[k])
  {
    var n := RunLength(cls, s, i);
    var ends := Ends(Repeat(cls), s, i, engine);
    if i < e <= |s| && forall k :: i <= k < e ==> InClass(cls, s[k]) {
      assert ends[i + n - e] == e;
    }
  }

  /** What the engine returns is a match. */
  lemma {:induction false} MatchSound(p: seq<PatternToken>, s: string, i: nat, engine: CustomEngine)
    requires i <= |s|
    ensures MatchFrom(p, s, i, engine).Some? ==> Parses(p, s, i, MatchFrom(p, s, i, engine).value, engine)
    decreases |p|, 1, 0
  {
    if p != [] {
      match p[0]
      case Lit(c) =>
        if i < |s| && s[i] == c {
          MatchSound(p[1..], s, i + 1, engine);
        }
      case Group(sub) =>
        TryEndsSound(p, s, i, Ends(sub, s, i, engine), engine);
    }
  }

  lemma {:induction false} TryEndsSound(p: seq<PatternToken>, s: string, i: nat, ends: seq<nat>, engine: CustomEngine)
    requires p != [] && p[0].Group? && i <= |s|
    requires forall k :: 0 <= k < |ends| ==> ends[k] in Ends(p[0].sub, s, i, engine)
    ensures forall k :: 0 <= k < |ends| ==> i <= ends[k] <= |s|
    ensures TryEnds(p, s, i, ends, engine).Some? ==> Parses(p, s, i, TryEnds(p, s, i, ends, engine).value, engine)
    decreases |p|, 0, |ends|
  {
    if ends != [] {
      TryEndsSound(p, s, i, ends[1..], engine);
      if MatchFrom(p[1..], s, ends[0], engine).Some? {
        MatchSound(p[1..], s, ends[0], engine);
        HitParses(p, s, i, ends, engine);
      } else {
        TryEndsMiss(p, s, i, ends, engine);
      }
    }
  }

  lemma HitParses(p: seq<PatternToken>, s: string, i: nat, ends: seq<nat>, engine: CustomEngine)
    requires p != [] && p[0].Group? && i <= |s| && ends != []
    requires forall k :: 0 <= k < |ends| ==> i <= ends[k] <= |s|
    requires ends[0] in Ends(p[0].sub, s, i, engine)
    requires MatchFrom(p[1..], s, ends[0], engine).Some?
    requires Parses(p[1..], s, ends[0], MatchFrom(p[1..], s, ends[0], engine).value, engine)
    ensures TryEnds(p, s, i, ends, engine).Some? && Parses(p, s, i, TryEnds(p, s, i, ends, engine).value, engine)
  {
    TryEndsHit(p, s, i, ends, engine);
    ParsesGroupIntro(p, s, i, ends[0], MatchFrom(p[1..], s, ends[0], engine).value, engine);
  }

  lemma ParsesGroupIntro(p: seq<PatternToken>, s: string, i: nat, e: nat, rest: seq<string>, engine: CustomEngine)
    requires p != [] && p[0].Group? && i <= e <= |s|
    requires e in Ends(p[0].sub, s, i, engine)
    requires Parses(p[1..], s, e, rest, engine)
    ensures Parses(p, s, i, [s[i..e]] + rest, engine)
  {
    var caps := [s[i..e]] + rest;
    assert caps[0] == s[i..e] && caps[1..] == rest;
  }

  lemma TryEndsMiss(p: seq<PatternToken>, s: string, i: nat, ends: seq<nat>, engine: CustomEngine)
    requires p != [] && p[0].Group? && i <= |s| && ends != []
    requires forall k :: 0 <= k < |ends| ==> i <= ends[k] <= |s|
    requires MatchFrom(p[1..], s, ends[0], engine).None?
    ensures TryEnds(p, s, i, ends, engine) == TryEnds(p, s, i, ends[1..], engine)
  {
  }

  /** The first end from which the rest matches gives the first capture. */
  lemma TryEndsHit(p: seq<PatternToken>, s: string, i: nat, ends: seq<nat>, engine: CustomEngine)
    requires p != [] && p[0].Group? && i <= |s| && ends != []
    requires forall k :: 0 <= k < |ends| ==> i <= ends[k] <= |s|
    requires MatchFrom(p[1..], s, ends[0], engine).Some?
    ensures TryEnds(p, s, i, ends, engine) == Some([s[i..ends[0]]] + MatchFrom(p[1..], s, ends[0], engine).value)
    ensures
      var caps := TryEnds(p, s, i, ends, engine).value;
      && caps != [] && caps[0] == s[i..ends[0]] && |caps[0]| == ends[0] - i
      && caps[1..] == MatchFrom(p[1..], s, ends[0], engine).value
  {
    var rest := MatchFrom(p[1..], s, ends[0], engine).value;
    assert TryEnds(p, s, i, ends, engine).value == [s[i..ends[0]]] + rest;
  }

  /** Whenever some split of s fits p, the engine finds a match: a miss means
      that no split exists at all. */
  lemma {:induction false} MatchComplete(p: seq<PatternToken>, s: string, i: nat, caps: seq<string>, engine: CustomEngine)
    requires i <= |s|
    requires Parses(p, s, i, caps, engine)
    ensures MatchFrom(p, s, i, engine).Some?
    decreases |p|, 2, 0
  {
    if p != [] {
      if p[0].Lit? {
        ParsesLit(p, s, i, caps, engine);
        MatchComplete(p[1..], s, i + 1, caps, engine);
      } else {
        GroupComplete(p, s, i, caps, engine);
      }
    }
  }

  lemma {:induction false} GroupComplete(p: seq<PatternToken>, s: string, i: nat, caps: seq<string>, engine: CustomEngine)
    requires i <= |s| && p != [] && p[0].Group? && Parses(p, s, i, caps, engine)
    ensures MatchFrom(p, s, i, engine).Some?
    decreases |p|, 1, 0
  {
    ParsesGroup(p, s, i, caps, engine);
    TryEndsComplete(p, s, i, Ends(p[0].sub, s, i, engine), i + |caps[0]|, caps[1..], engine);
  }

  lemma ParsesLit(p: seq<PatternToken>, s: string, i: nat, caps: seq<string>, engine: CustomEngine)
    requires i <= |s| && p != [] && p[0].Lit? && Parses(p, s, i, caps, engine)
    ensures i < |s| && Parses(p[1..], s, i + 1, caps, engine)
    ensures MatchFrom(p, s, i, engine) == MatchFrom(p[1..], s, i + 1, engine)
  {
  }

  lemma ParsesGroup(p: seq<PatternToken>, s: string, i: nat, caps: seq<string>, engine: CustomEngine)
    requires i <= |s| && p != [] && p[0].Group? && Parses(p, s, i, caps, engine)
    ensures caps != [] && i + |caps[0]| <= |s| && i + |caps[0]| in Ends(p[0].sub, s, i, engine)
    ensures Parses(p[1..], s, i + |caps[0]|, caps[1..], engine)
    ensures MatchFrom(p, s, i, engine) == TryEnds(p, s, i, Ends(p[0].sub, s, i, engine), engine)
  {
  }

  lemma {:induction false} TryEndsComplete(p: seq<PatternToken>, s: string, i: nat, ends: seq<nat>,
                                           e: nat, rest: seq<string>, engine: CustomEngine)
    requires p != [] && p[0].Group? && i <= |s|
    requires forall k :: 0 <= k < |ends| ==> i <= ends[k] <= |s|
    requires e in ends && e <= |s| && Parses(p[1..], s, e, rest, engine)
    ensures TryEnds(p, s, i, ends, engine).Some?
    decreases |p|, 0, |ends|
  {
    if ends[0] == e {
      MatchComplete(p[1..], s, e, rest, engine);
    } else if MatchFrom(p[1..], s, ends[0], engine).None? {
      TryEndsComplete(p, s, i, ends[1..], e, rest, engine);
    }
  }

  /** A match has exactly one capture per group of the pattern. */
  lemma {:induction false} ParsesGroupCount(p: seq<PatternToken>, s: string, i: nat, caps: seq<string>, engine: CustomEngine)
    requires i <= |s|
    requires Parses(p, s, i, caps, engine)
    ensures |caps| == GroupCount(p)
    decreases |p|
  {
    if p != [] {
      match p[0]
      case Lit(c) => ParsesGroupCount(p[1..], s, i + 1, caps, engine);
      case Group(sub) => ParsesGroupCount(p[1..], s, i + |caps[0]|, caps[1..], engine);
    }
  }

  /** A pattern of literal characters matches from i exactly when the
      subject continues with that text and then ends (or has one final
      newline left); it captures nothing. */
  lemma LitsMatch(t: string, s: string, i: nat, engine: CustomEngine)
    requires i <= |s|
    ensures MatchFrom(Lits(t), s, i, engine) ==
      if TextAt(s, i, t) && AtEnd(s, i + |t|) then Some([]) else None
  {
    MatchLitsThen(t, [], s, i, engine);
    assert Lits(t) + [] == Lits(t);
  }

  /** A route pattern without placeholders matches its own text, and
      otherwise only that text followed by a single newline. */
  lemma StaticFullMatch(t: string, s: string, engine: CustomEngine)
    ensures FullMatch(Lits(t), s, engine) ==
      if s == t || s == t + "\n" then Some([]) else None
  {
    LitsMatch(t, s, 0, engine);
    if s == t || s == t + "\n" {
      assert s[0..|t|] == t;
    }
  }

  /** Built-in groups never take a '/', so every slash of a URL matched by a
      built-in pattern is one of the pattern's literal slashes. */
  lemma {:induction false} ParsesSlashes(p: seq<PatternToken>, s: string, i: nat, caps: seq<string>, engine: CustomEngine)
    requires i <= |s| && BuiltinOnly(p)
    requires Parses(p, s, i, caps, engine)
    ensures Hashing.Count(s[i..], '/') == LitSlashes(p)
    decreases |p|
  {
    if p == [] {
      if i < |s| {
        assert s[i..] == "\n";
      }
    } else {
      assert BuiltinOnly(p[1..]) by {
        forall k | 0 <= k < |p[1..]| && p[1..][k].Group? ensures p[1..][k].sub.Repeat? {
          assert p[1..][k] == p[k + 1];
        }
      }
      match p[0]
      case Lit(c) =>
        ParsesSlashes(p[1..], s, i + 1, caps, engine);
        assert s[i..][1..] == s[i + 1..];
      case Group(sub) =>
        assert sub.Repeat? by { assert p[0].Group?; }
        var e := i + |caps[0]|;
        ParsesSlashes(p[1..], s, e, caps[1..], engine);
        RepeatEnds(sub.cls, s, i, e, engine);
        NoSlashInRun(sub.cls, s[i..e]);
        assert s[i..] == s[i..e] + s[e..];
        Hashing.CountConcat(s[i..e], s[e..], '/');
    }
  }

  lemma {:induction false} NoSlashInRun(cls: CharClass, t: string)
    requires forall k :: 0 <= k < |t| ==> InClass(cls, t[k])
    ensures Hashing.Count(t, '/') == 0
  {
    if t != [] {
      assert InClass(cls, t[0]);
      NoSlashInRun(cls, t[1..]);
    }
  }

  /** A literal prefix of a pattern must appear verbatim at i; matching then
      goes on after it. */
  lemma {:induction false} MatchLitsThen(a: string, p: seq<PatternToken>, s: string, i: nat, engine: CustomEngine)
    requires i <= |s|
    ensures MatchFrom(Lits(a) + p, s, i, engine) ==
      if TextAt(s, i, a) then MatchFrom(p, s, i + |a|, engine) else None
    decreases |a|, 1
  {
    if a == [] {
      assert Lits(a) + p == p;
      assert s[i..i] == a;
    } else if i < |s| && s[i] == a[0] {
      LitsThenHit(a, p, s, i, engine);
    } else {
      LitsThenMiss(a, p, s, i, engine);
    }
  }

  lemma {:induction false} LitsThenHit(a: string, p: seq<PatternToken>, s: string, i: nat, engine: CustomEngine)
    requires a != [] && i < |s| && s[i] == a[0]
    ensures MatchFrom(Lits(a) + p, s, i, engine) ==
      if TextAt(s, i, a) then MatchFrom(p, s, i + |a|, engine) else None
    decreases |a|, 0
  {
    LitsStep(a, p, s, i, engine);
    MatchLitsThen(a[1..], p, s, i + 1, engine);
  }

  lemma LitsStep(a: string, p: seq<PatternToken>, s: string, i: nat, engine: CustomEngine)
    requires a != [] && i < |s| && s[i] == a[0]
    ensures MatchFrom(Lits(a) + p, s, i, engine) == MatchFrom(Lits(a[1..]) + p, s, i + 1, engine)
    ensures TextAt(s, i, a) == TextAt(s, i + 1, a[1..]) && i + 1 + |a[1..]| == i + |a|
  {
    LitsCons(a, p);
    MatchLit(a[0], Lits(a[1..]) + p, s, i, engine);
    TextStep(a, s, i);
  }

  lemma LitsThenMiss(a: string, p: seq<PatternToken>, s: string, i: nat, engine: CustomEngine)
    requires a != [] && i <= |s| && !(i < |s| && s[i] == a[0])
    ensures MatchFrom(Lits(a) + p, s, i, engine) == None && !TextAt(s, i, a)
  {
    LitsCons(a, p);
    MatchLit(a[0], Lits(a[1..]) + p, s, i, engine);
    TextStep(a, s, i);
  }

  lemma LitsCons(a: string, p: seq<PatternToken>)
    requires a != []
    ensures Lits(a) + p == [Lit(a[0])] + (Lits(a[1..]) + p)
  {
  }

  /** s continues with a at position i. */
  predicate TextAt(s: string, i: nat, a: string) {
    i + |a| <= |s| && s[i..i + |a|] == a
  }

  /** s continues with a at i exactly when it continues with a's first
      character and then with the rest of a. */
  lemma TextStep(a: string, s: string, i: nat)
    requires a != []
    ensures TextAt(s, i, a) <==> i < |s| && s[i] == a[0] && TextAt(s, i + 1, a[1..])
  {
    if i + |a| <= |s| {
      assert s[i..i + |a|] == [s[i]] + s[i + 1..i + |a|];
      assert a == [a[0]] + a[1..];
    }
  }

  lemma MatchLit(c: char, p: seq<PatternToken>, s: string, i: nat, engine: CustomEngine)
    requires i <= |s|
    ensures MatchFrom([Lit(c)] + p, s, i, engine) ==
      if i < |s| && s[i] == c then MatchFrom(p, s, i + 1, engine) else None
  {
    assert ([Lit(c)] + p)[0] == Lit(c) && ([Lit(c)] + p)[1..] == p;
  }

  /** A trailing group, tried at ends of which only the first can reach `$`,
      matches exactly when the first does. */
  lemma {:induction false} TryEndsLast(p: seq<PatternToken>, s: string, i: nat, ends: seq<nat>, engine: CustomEngine)
    requires |p| == 1 && p[0].Group? && i <= |s|
    requires forall k :: 0 <= k < |ends| ==> i <= ends[k] <= |s|
    requires forall k :: 1 <= k < |ends| ==> !AtEnd(s, ends[k])
    ensures TryEnds(p, s, i, ends, engine) ==
      if ends != [] && AtEnd(s, ends[0]) then Some([s[i..ends[0]]]) else None
    decreases |ends|
  {
    assert p[1..] == [];
    if ends != [] {
      if AtEnd(s, ends[0]) {
        assert MatchFrom(p[1..], s, ends[0], engine) == Some([]);
        assert [s[i..ends[0]]] + [] == [s[i..ends[0]]];
      } else {
        TryEndsLast(p, s, i, ends[1..], engine);
      }
    }
  }

  /** `^prefix(\d+)$` against prefix + tail: it matches exactly when tail is
      a non-empty run of digits, optionally followed by one final newline, and
      it captures the digits. */
  lemma DigitGroupMatch(prefix: string, tail: string, engine: CustomEngine)
    ensures FullMatch(Lits(prefix) + [Group(Repeat(Digit))], prefix + tail, engine) ==
      if tail != [] && AllDigits(tail) then Some([tail])
      else if |tail| >= 2 && tail[|tail| - 1] == '\n' && AllDigits(tail[..|tail| - 1])
      then Some([tail[..|tail| - 1]])
      else None
  {
    var s, i := prefix + tail, |prefix|;
    MatchLitsThen(prefix, [Group(Repeat(Digit))], s, 0, engine);
    PrefixAt(prefix, tail);
    DigitsAfter(prefix, tail, engine);
    DigitTail(tail);
    assert tail[..|tail|] == tail;
  }

  lemma DigitsAfter(prefix: string, tail: string, engine: CustomEngine)
    ensures var n := RunLength(Digit, tail, 0);
      MatchFrom([Group(Repeat(Digit))], prefix + tail, |prefix|, engine) ==
        if n > 0 && AtEnd(tail, n) then Some([tail[..n]]) else None
  {
    DigitRunMatch(prefix + tail, |prefix|, engine);
    ShiftedRun(prefix, tail);
  }

  lemma ShiftedRun(prefix: string, tail: string)
    ensures var n := RunLength(Digit, tail, 0);
      && RunLength(Digit, prefix + tail, |prefix|) == n
      && (prefix + tail)[|prefix|..|prefix| + n] == tail[..n]
      && AtEnd(prefix + tail, |prefix| + n) == AtEnd(tail, n)
  {
    RunShift(Digit, prefix, tail, 0);
    Shifted(prefix, tail, RunLength(Digit, tail, 0));
  }

  lemma PrefixAt(prefix: string, tail: string)
    ensures TextAt(prefix + tail, 0, prefix)
  {
    assert (prefix + tail)[0..|prefix|] == prefix;
  }

  /** Position k of b is position |a| + k of a + b. */
  lemma Shifted(a: string, b: string, k: nat)
    requires k <= |b|
    ensures (a + b)[|a|..|a| + k] == b[..k]
    ensures AtEnd(a + b, |a| + k) == AtEnd(b, k)
  {
  }

  lemma {:induction false} RunShift(cls: CharClass, a: string, b: string, k: nat)
    requires k <= |b|
    ensures RunLength(cls, a + b, |a| + k) == RunLength(cls, b, k)
    decreases |b| - k
  {
    if k < |b| {
      assert (a + b)[|a| + k] == b[k];
      RunShift(cls, a, b, k + 1);
    }
  }

  /** `(\d+)$` from i: only the longest run of digits can reach the end,
      since every shorter run stops before a digit. */
  lemma DigitRunMatch(s: string, i: nat, engine: CustomEngine)
    requires i <= |s|
    ensures var n := RunLength(Digit, s, i);
      MatchFrom([Group(Repeat(Digit))], s, i, engine) ==
        if n > 0 && AtEnd(s, i + n) then Some([s[i..i + n]]) else None
  {
    var g := [Group(Repeat(Digit))];
    var ends := Ends(Repeat(Digit), s, i, engine);
    assert MatchFrom(g, s, i, engine) == TryEnds(g, s, i, ends, engine);
    DigitEnds(s, i, engine);
    TryEndsLast(g, s, i, ends, engine);
  }

  lemma DigitEnds(s: string, i: nat, engine: CustomEngine)
    requires i <= |s|
    ensures var n, ends := RunLength(Digit, s, i), Ends(Repeat(Digit), s, i, engine);
      && (ends != [] <==> n > 0)
      && (n > 0 ==> ends[0] == i + n)
      && forall k :: 1 <= k < |ends| ==> !AtEnd(s, ends[k])
  {
    var n, ends := RunLength(Digit, s, i), Ends(Repeat(Digit), s, i, engine);
    assert forall k :: 1 <= k < |ends| ==> ends[k] < i + n && IsDigit(s[ends[k]]);
  }

  /** The leading run of digits of a tail reaches its end, or its final
      newline, exactly in the two shapes the tail may take. */
  lemma DigitTail(tail: string)
    ensures var n := RunLength(Digit, tail, 0);
      && ((n > 0 && AtEnd(tail, n)) <==>
           (tail != [] && AllDigits(tail)) ||
           (|tail| >= 2 && tail[|tail| - 1] == '\n' && AllDigits(tail[..|tail| - 1])))
      && (tail != [] && AllDigits(tail) ==> n == |tail|)
      && (!AllDigits(tail) && |tail| >= 2 && tail[|tail| - 1] == '\n' && AllDigits(tail[..|tail| - 1]) ==>
           n == |tail| - 1)
  {
    var n := RunLength(Digit, tail, 0);
    if tail != [] && AllDigits(tail) {
      assert n == |tail|;
    } else if |tail| >= 2 && tail[|tail| - 1] == '\n' && AllDigits(tail[..|tail| - 1]) {
      assert forall k :: 0 <= k < |tail| - 1 ==> IsDigit(tail[k]);
      assert n == |tail| - 1;
    }
  }
}
