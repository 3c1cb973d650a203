/** url_hash: the bucket key of a URL. The URL is split on '/' and every
    segment is replaced by ':', so the key keeps only how many segments there
    are; no literal text of the URL survives. */
module Hashing {

  /** The number of occurrences of c in s. */
  function Count(s: string, c: char): nat {
    if s == [] then 0 else (if s[0] == c then 1 else 0) + Count(s[1..], c)
  }

  /** str.split(sep) with an explicit separator: the pieces between
      separators, empty ones included, so there is always one piece more than
      there are separators, and no piece holds a separator. */
  function Split(s: string, sep: char): (parts: seq<string>)
    ensures |parts| == Count(s, sep) + 1
    ensures forall k :: 0 <= k < |parts| ==> sep !in parts[k]
  {
    if s == [] then [""]
    else
      var rest := Split(s[1..], sep);
      if s[0] == sep then [""] + rest
      else [[s[0]] + rest[0]] + rest[1..]
  }

  /** sep.join(parts). */
  function Join(parts: seq<string>, sep: char): string
    requires |parts| >= 1
  {
    if |parts| == 1 then parts[0] else parts[0] + [sep] + Join(parts[1..], sep)
  }

  function Colons(n: nat): seq<string> {
    seq(n, _ => ":")
  }

  /** The key of a URL with n slashes: n + 1 colons separated by slashes. */
  function Shape(n: nat): string {
    if n == 0 then ":" else ":/" + Shape(n - 1)
  }

  /** '/'.join(':' for s in url.split('/')). The key is one ':' per segment,
      so it depends on nothing but the number of '/' in the URL. */
  function UrlHash(url: string): (key: string)
    ensures key == Shape(Count(url, '/'))
    ensures |key| == 2 * Count(url, '/') + 1
  {
    var n := Count(url, '/');
    JoinColons(n);
    ShapeLength(n);
    Join(Colons(|Split(url, '/')|), '/')
  }

  lemma {:induction false} JoinColons(n: nat)
    ensures Join(Colons(n + 1), '/') == Shape(n)
  {
    if n > 0 {
      assert Colons(n + 1)[1..] == Colons(n);
      JoinColons(n - 1);
    }
  }

  lemma {:induction false} ShapeLength(n: nat)
    ensures |Shape(n)| == 2 * n + 1
  {
    if n > 0 {
      ShapeLength(n - 1);
    }
  }

  lemma {:induction false} CountConcat(a: string, b: string, c: char)
    ensures Count(a + b, c) == Count(a, c) + Count(b, c)
  {
    if a == [] {
      assert a + b == b;
    } else {
      assert (a + b)[1..] == a[1..] + b;
      CountConcat(a[1..], b, c);
    }
  }

  lemma {:induction false} CountShape(n: nat)
    ensures Count(Shape(n), '/') == n
  {
    if n > 0 {
      CountShape(n - 1);
      CountConcat(":/", Shape(n - 1), '/');
    }
  }

  /** Splitting and joining again gives back the URL: the split loses
      nothing, so the key really is a function of the segment count. */
  lemma {:induction false} SplitJoin(s: string, sep: char)
    ensures Join(Split(s, sep), sep) == s
  {
    if s != [] {
      var rest := Split(s[1..], sep);
      SplitJoin(s[1..], sep);
      if s[0] == sep {
        assert ([""] + rest)[1..] == rest;
      } else {
        var parts := [[s[0]] + rest[0]] + rest[1..];
        if |rest| > 1 {
          assert parts[1..] == rest[1..];
        }
      }
    }
  }

  /** Two URLs share a bucket exactly when they have the same number of
      slashes, whatever their literal text. */
  lemma UrlHashSameBucket(u: string, v: string)
    ensures UrlHash(u) == UrlHash(v) <==> Count(u, '/') == Count(v, '/')
  {
    if UrlHash(u) == UrlHash(v) {
      CountShape(Count(u, '/'));
      CountShape(Count(v, '/'));
    }
  }

  /** A key is its own key: hashing is idempotent. */
  lemma UrlHashIdempotent(u: string)
    ensures UrlHash(UrlHash(u)) == UrlHash(u)
  {
    CountShape(Count(u, '/'));
  }

  lemma {:induction false} CountAbsent(s: string, c: char)
    requires c !in s
    ensures Count(s, c) == 0
  {
    if s != [] {
      CountAbsent(s[1..], c);
    }
  }

  /** A key ends in ':', so a URL ending in anything else is never a key. */
  lemma {:induction false} ShapeLast(n: nat)
    ensures Shape(n)[|Shape(n)| - 1] == ':'
  {
    if n > 0 {
      ShapeLast(n - 1);
      ShapeLength(n - 1);
    }
  }
}
