/**
  The Kotlin string and collection operations the chat commands are built from:
  `split` on a one-character delimiter, `joinToString`, `trim` and `toSet`.
  Strings are sequences of characters; each character is a Unicode scalar value
  (see `Subscriptions.Utf16` for the JVM's code units).
*/
module Text {

  /** `s.split(sep.toString())`: the pieces between delimiters, empty pieces included. */
  function Split(s: string, sep: char): (parts: seq<string>)
    ensures |parts| >= 1
  {
    if s == [] then [""]
    else
      var init, c := Split(s[..|s| - 1], sep), s[|s| - 1];
      if c == sep then init + [""]
      else init[..|init| - 1] + [init[|init| - 1] + [c]]
  }

  /** `parts.joinToString(sep)` */
  function Join(parts: seq<string>, sep: string): string {
    if parts == [] then ""
    else if |parts| == 1 then parts[0]
    else Join(parts[..|parts| - 1], sep) + sep + parts[|parts| - 1]
  }

  /** One more character either starts a new piece or extends the last one. */
  lemma SplitSnoc(s: string, c: char, sep: char)
    ensures var p := Split(s, sep);
      Split(s + [c], sep) == if c == sep then p + [""] else p[..|p| - 1] + [p[|p| - 1] + [c]]
  {
    assert (s + [c])[..|s|] == s;
  }

  lemma JoinSnoc(parts: seq<string>, x: string, sep: string)
    ensures Join(parts + [x], sep) == if parts == [] then x else Join(parts, sep) + sep + x
  {
    assert (parts + [x])[..|parts|] == parts;
  }

  /** Joining the pieces of a split with the delimiter gives back the string. */
  lemma {:induction false} JoinSplit(s: string, sep: char)
    ensures Join(Split(s, sep), [sep]) == s
  {
    if s != [] {
      var s', c := s[..|s| - 1], s[|s| - 1];
      assert s == s' + [c];
      var p := Split(s', sep);
      JoinSplit(s', sep);
      SplitSnoc(s', c, sep);
      if c == sep {
        JoinSnoc(p, "", [sep]);
      } else {
        var q, x := p[..|p| - 1], p[|p| - 1];
        assert p == q + [x];
        JoinSnoc(q, x + [c], [sep]);
        JoinSnoc(q, x, [sep]);
      }
    }
  }

  /** A string without the delimiter is a single piece. */
  lemma {:induction false} SplitNone(s: string, sep: char)
    requires sep !in s
    ensures Split(s, sep) == [s]
  {
    if s != [] {
      SplitNone(s[..|s| - 1], sep);
      SplitSnoc(s[..|s| - 1], s[|s| - 1], sep);
      assert s == s[..|s| - 1] + [s[|s| - 1]];
    }
  }

  lemma SplitAtStep(pa: seq<string>, x: string, b: string, c: char, sep: char)
    requires Split(x, sep) == pa + Split(b, sep)
    ensures Split(x + [c], sep) == pa + Split(b + [c], sep)
  {
    var pb := Split(b, sep);
    SplitSnoc(x, c, sep);
    SplitSnoc(b, c, sep);
    if c == sep {
      Snoc(pa, pb, "");
    } else {
      ReplaceLast(pa, pb, pb[|pb| - 1] + [c]);
    }
  }

  lemma Snoc<T>(xs: seq<T>, ys: seq<T>, y: T)
    ensures (xs + ys) + [y] == xs + (ys + [y])
  {
  }

  lemma ReplaceLast<T>(xs: seq<T>, ys: seq<T>, y: T)
    requires ys != []
    ensures (xs + ys)[|xs + ys| - 1] == ys[|ys| - 1]
    ensures (xs + ys)[..|xs + ys| - 1] + [y] == xs + (ys[..|ys| - 1] + [y])
  {
  }

  /** Splitting at a delimiter splits the two sides independently. */
  lemma {:induction false} SplitAt(a: string, b: string, sep: char)
    ensures Split(a + [sep] + b, sep) == Split(a, sep) + Split(b, sep)
  {
    if b == [] {
      assert a + [sep] + b == a + [sep];
      SplitSnoc(a, sep, sep);
      assert Split(b, sep) == [""];
    } else {
      var b', c := b[..|b| - 1], b[|b| - 1];
      assert b == b' + [c];
      SplitAt(a, b', sep);
      assert a + [sep] + b == (a + [sep] + b') + [c];
      SplitAtStep(Split(a, sep), a + [sep] + b', b', c, sep);
    }
  }

  /** Splitting the join of delimiter-free pieces gives back the pieces. */
  lemma {:induction false} SplitJoin(parts: seq<string>, sep: char)
    requires |parts| >= 1
    requires forall k :: 0 <= k < |parts| ==> sep !in parts[k]
    ensures Split(Join(parts, [sep]), sep) == parts
  {
    var last := parts[|parts| - 1];
    if |parts| == 1 {
      SplitNone(last, sep);
    } else {
      var init := parts[..|parts| - 1];
      SplitJoin(init, sep);
      SplitNone(last, sep);
      SplitAt(Join(init, [sep]), last, sep);
    }
  }

  /** The number of pieces is one more than the number of delimiters: a string splits into one piece iff it has none. */
  lemma {:induction false} SplitSingle(s: string, sep: char)
    ensures |Split(s, sep)| == 1 <==> sep !in s
  {
    if sep in s {
      var k :| 0 <= k < |s| && s[k] == sep;
      assert s == s[..k] + [sep] + s[k + 1..];
      SplitAt(s[..k], s[k + 1..], sep);
    } else {
      SplitNone(s, sep);
    }
  }

  lemma JoinTwo(a: string, b: string, sep: string)
    ensures Join([a, b], sep) == a + sep + b
  {
    JoinSnoc([a], b, sep);
    assert [a, b] == [a] + [b];
  }

  lemma JoinThree(a: string, b: string, c: string, sep: string)
    ensures Join([a, b, c], sep) == a + sep + b + sep + c
  {
    JoinTwo(a, b, sep);
    JoinSnoc([a, b], c, sep);
    assert [a, b, c] == [a, b] + [c];
  }

  /** Joining two non-empty lists puts one separator between their joins. */
  lemma {:induction false} JoinConcat(xs: seq<string>, ys: seq<string>, sep: string)
    requires xs != [] && ys != []
    ensures Join(xs + ys, sep) == Join(xs, sep) + sep + Join(ys, sep)
  {
    var ys', y := ys[..|ys| - 1], ys[|ys| - 1];
    assert ys == ys' + [y];
    assert xs + ys == (xs + ys') + [y];
    JoinSnoc(xs + ys', y, sep);
    JoinSnoc(ys', y, sep);
    if ys' != [] {
      JoinConcat(xs, ys', sep);
    } else {
      assert xs + ys' == xs;
    }
  }

  /** A character found in neither the pieces nor the separator is not in their join. */
  lemma {:induction false} JoinAvoids(parts: seq<string>, sep: string, c: char)
    requires c !in sep && forall k :: 0 <= k < |parts| ==> c !in parts[k]
    ensures c !in Join(parts, sep)
  {
    if |parts| > 1 {
      JoinAvoids(parts[..|parts| - 1], sep, c);
    }
  }

  // ---------------------------------------------------------------------------
  // trim

  /** Kotlin's `Char.isWhitespace()` on the JVM: Java's `isWhitespace` or `isSpaceChar`. */
  predicate IsWhitespace(c: char) {
    || ('\U{0009}' <= c <= '\U{000D}') || ('\U{001C}' <= c <= '\U{0020}')
    || c == '\U{00A0}' || c == '\U{1680}' || ('\U{2000}' <= c <= '\U{200A}')
    || c == '\U{2028}' || c == '\U{2029}' || c == '\U{202F}' || c == '\U{205F}' || c == '\U{3000}'
  }

  /** `s.trimStart()`: the suffix left once the leading whitespace is gone. */
  function TrimStart(s: string): (r: string)
    ensures |r| <= |s| && r == s[|s| - |r|..]
    ensures forall k :: 0 <= k < |s| - |r| ==> IsWhitespace(s[k])
    ensures r != [] ==> !IsWhitespace(r[0])
  {
    if s == [] || !IsWhitespace(s[0]) then s else TrimStart(s[1..])
  }

  /** `s.trimEnd()`: the prefix left once the trailing whitespace is gone. */
  function TrimEnd(s: string): (r: string)
    ensures |r| <= |s| && r == s[..|r|]
    ensures forall k :: |r| <= k < |s| ==> IsWhitespace(s[k])
    ensures r != [] ==> !IsWhitespace(r[|r| - 1])
  {
    if s == [] || !IsWhitespace(s[|s| - 1]) then s else TrimEnd(s[..|s| - 1])
  }

  /** `s.trim()` */
  function Trim(s: string): string {
    TrimEnd(TrimStart(s))
  }

  /** The length of the leading whitespace of `s`. */
  function Lead(s: string): nat {
    |s| - |TrimStart(s)|
  }

  /**
    `trim` keeps the stretch of `s` between its leading and its trailing whitespace: what it
    drops is whitespace, and what it keeps neither starts nor ends with whitespace.
  */
  lemma TrimSpec(s: string)
    ensures Lead(s) + |Trim(s)| <= |s|
    ensures Trim(s) == s[Lead(s)..Lead(s) + |Trim(s)|]
    ensures forall k :: 0 <= k < Lead(s) ==> IsWhitespace(s[k])
    ensures forall k :: Lead(s) + |Trim(s)| <= k < |s| ==> IsWhitespace(s[k])
    ensures Trim(s) != [] ==> !IsWhitespace(Trim(s)[0]) && !IsWhitespace(Trim(s)[|Trim(s)| - 1])
  {
    var t := TrimStart(s);
    var r := TrimEnd(t);
    var i := |s| - |t|;
    assert forall k :: i + |r| <= k < |s| ==> s[k] == t[k - i];
  }

  /** Trimming twice trims nothing more. */
  lemma TrimIdempotent(s: string)
    ensures Trim(Trim(s)) == Trim(s)
  {
    var r := Trim(s);
    assert r != [] ==> !IsWhitespace(r[0]) by { TrimSpec(s); }
    assert TrimStart(r) == r;
    assert TrimEnd(r) == r;
  }

  // ---------------------------------------------------------------------------
  // toSet

  predicate Distinct(xs: seq<string>) {
    forall i, j :: 0 <= i < j < |xs| ==> xs[i] != xs[j]
  }

  /** The position of the first occurrence of `x` in `xs`. */
  function FirstIndex(xs: seq<string>, x: string): (k: nat)
    requires x in xs
    ensures k < |xs| && xs[k] == x && x !in xs[..k]
  {
    if xs[0] == x then 0 else 1 + FirstIndex(xs[1..], x)
  }

  /** A value met in a prefix has its first occurrence there. */
  lemma FirstIndexPrefix(xs: seq<string>, n: nat, x: string)
    requires n <= |xs| && x in xs[..n]
    ensures FirstIndex(xs, x) == FirstIndex(xs[..n], x)
  {
  }

  /**
    `xs.toSet()`, a `LinkedHashSet`: each value once, in the order of its first occurrence
    in `xs`.
  */
  function Dedup(xs: seq<string>): (r: seq<string>)
    ensures forall x :: x in r <==> x in xs
    ensures Distinct(r)
    ensures forall i, j :: 0 <= i < j < |r| ==> FirstIndex(xs, r[i]) < FirstIndex(xs, r[j])
  {
    if xs == [] then []
    else
      var n := |xs| - 1;
      var init, last := Dedup(xs[..n]), xs[n];
      assert forall x :: x in xs <==> x in xs[..n] || x == last by {
        assert xs == xs[..n] + [last];
      }
      forall x | x in init
        ensures FirstIndex(xs, x) == FirstIndex(xs[..n], x) < n
      {
        FirstIndexPrefix(xs, n, x);
      }
      if last in init then init
      else
        assert FirstIndex(xs, last) == n by {
          assert last !in xs[..n];
        }
        init + [last]
  }

  /** A list without repeats is its own set, in the same order. */
  lemma {:induction false} DedupDistinct(xs: seq<string>)
    requires Distinct(xs)
    ensures Dedup(xs) == xs
  {
    if xs != [] {
      var init := xs[..|xs| - 1];
      DedupDistinct(init);
      assert xs[|xs| - 1] !in init;
    }
  }

  /** Deduplicating twice removes nothing more. */
  lemma DedupIdempotent(xs: seq<string>)
    ensures Dedup(Dedup(xs)) == Dedup(xs)
  {
    DedupDistinct(Dedup(xs));
  }
}
