/** The few Python `str` built-ins the pipeline relies on, written out over
    `seq<char>`: whitespace as `str.isspace` defines it, `strip()`, `split()`,
    `split(sep)`, `split(sep, 1)`, `startswith`, `endswith`, `in` on strings
    and `upper()` over the Latin-1 range. */
module Text {
  import opened Wrappers

  /** `str.isspace()` for one character: the ASCII controls TAB..CR and
      0x1C..0x1F, the space, NEL, NBSP and the Unicode space separators. */
  predicate IsSpace(c: char) {
    || c == ' '
    || '\t' <= c <= '\r'
    || '\U{1C}' <= c <= '\U{1F}'
    || c == '\U{85}' || c == '\U{A0}' || c == '\U{1680}'
    || '\U{2000}' <= c <= '\U{200A}'
    || c == '\U{2028}' || c == '\U{2029}' || c == '\U{202F}'
    || c == '\U{205F}' || c == '\U{3000}'
  }

  predicate AllSpace(s: string) {
    forall i | 0 <= i < |s| :: IsSpace(s[i])
  }

  predicate NoSpace(s: string) {
    forall i | 0 <= i < |s| :: !IsSpace(s[i])
  }

  /** `s.lstrip()`: the suffix left after the leading whitespace. */
  function TrimStart(s: string): (r: string)
    ensures |r| <= |s| && r == s[|s| - |r|..]
    ensures forall i | 0 <= i < |s| - |r| :: IsSpace(s[i])
    ensures r == [] || !IsSpace(r[0])
  {
    if s != [] && IsSpace(s[0]) then TrimStart(s[1..]) else s
  }

  /** `s.rstrip()`: the prefix left before the trailing whitespace. */
  function TrimEnd(s: string): (r: string)
    ensures |r| <= |s| && r == s[..|r|]
    ensures forall i | |r| <= i < |s| :: IsSpace(s[i])
    ensures r == [] || !IsSpace(r[|r| - 1])
  {
    if s != [] && IsSpace(s[|s| - 1]) then TrimEnd(s[..|s| - 1]) else s
  }

  /** Neither starts nor ends with whitespace. */
  predicate Trimmed(s: string) {
    s == [] || (!IsSpace(s[0]) && !IsSpace(s[|s| - 1]))
  }

  /** `s.strip()` */
  function Strip(s: string): (r: string)
    ensures |r| <= |s|
    ensures Trimmed(r)
  {
    TrimEnd(TrimStart(s))
  }

  /** A string that neither starts nor ends with whitespace is its own strip. */
  lemma StripNoOp(s: string)
    requires Trimmed(s)
    ensures Strip(s) == s
  {
  }

  /** `startswith` / `endswith` */
  lemma {:induction false} TrimStartSpaces(pad: string, s: string)
    requires AllSpace(pad)
    ensures TrimStart(pad + s) == TrimStart(s)
  {
    if pad != [] {
      assert (pad + s)[0] == pad[0] && IsSpace(pad[0]);
      assert (pad + s)[1..] == pad[1..] + s;
      TrimStartSpaces(pad[1..], s);
    } else {
      assert pad + s == s;
    }
  }

  lemma {:induction false} TrimEndSpaces(s: string, pad: string)
    requires AllSpace(pad)
    ensures TrimEnd(s + pad) == TrimEnd(s)
  {
    if pad != [] {
      assert (s + pad)[|s + pad| - 1] == pad[|pad| - 1] && IsSpace(pad[|pad| - 1]);
      assert (s + pad)[..|s + pad| - 1] == s + pad[..|pad| - 1];
      TrimEndSpaces(s, pad[..|pad| - 1]);
    } else {
      assert s + pad == s;
    }
  }

  /** Whitespace around an already stripped string is all `strip()` removes. */
  lemma StripPadded(pad: string, s: string, tail: string)
    requires AllSpace(pad) && AllSpace(tail)
    requires Trimmed(s)
    ensures Strip(pad + s + tail) == s
  {
    assert pad + s + tail == pad + (s + tail);
    TrimStartSpaces(pad, s + tail);
    if s == [] {
      assert s + tail == tail;
      assert TrimStart(tail) == [];
    } else {
      assert (s + tail)[0] == s[0];
      TrimEndSpaces(s, tail);
      StripNoOp(s);
    }
  }

  predicate StartsWith(s: string, prefix: string) {
    |prefix| <= |s| && s[..|prefix|] == prefix
  }

  predicate EndsWith(s: string, suffix: string) {
    |suffix| <= |s| && s[|s| - |suffix|..] == suffix
  }

  /** `sub` occurs in `s` starting at index `i`. */
  predicate OccursAt(s: string, sub: string, i: int) {
    0 <= i <= |s| - |sub| && s[i..i + |sub|] == sub
  }

  /** `sub in s` */
  predicate Contains(s: string, sub: string) {
    exists i | 0 <= i <= |s| - |sub| :: OccursAt(s, sub, i)
  }

  /** Index of the first occurrence of `c` in `s`. */
  function IndexOf(s: string, c: char): (i: nat)
    requires c in s
    ensures i < |s| && s[i] == c && c !in s[..i]
  {
    if s[0] == c then 0 else 1 + IndexOf(s[1..], c)
  }

  /** Inverse of `SplitOn`: the fields glued back with the separator. */
  function Join(fields: seq<string>, sep: char): string
    requires |fields| >= 1
  {
    if |fields| == 1 then fields[0] else fields[0] + [sep] + Join(fields[1..], sep)
  }

  /** `s.split(sep)` for a one-character separator: one field more than
      there are separators, empty fields kept. */
  function SplitOn(s: string, sep: char): (fields: seq<string>)
    ensures |fields| >= 1
    ensures forall f | f in fields :: sep !in f
    ensures Join(fields, sep) == s
    decreases |s|
  {
    if sep !in s then [s]
    else
      var i := IndexOf(s, sep);
      var rest := SplitOn(s[i + 1..], sep);
      assert s == s[..i] + [sep] + s[i + 1..];
      [s[..i]] + rest
  }

  /** `s.split(sep, 1)` unpacked into two names: absent when `sep` does
      not occur (Python raises ValueError on the unpacking). */
  function SplitOnce(s: string, sep: char): (r: Option<(string, string)>)
    ensures r.None? <==> sep !in s
    ensures r.Some? ==> sep !in r.value.0 && r.value.0 + [sep] + r.value.1 == s
  {
    if sep !in s then None
    else
      var i := IndexOf(s, sep);
      assert s == s[..i] + [sep] + s[i + 1..];
      Some((s[..i], s[i + 1..]))
  }

  lemma {:induction false} IndexOfAfter(a: string, c: char, b: string)
    requires c !in a
    ensures IndexOf(a + [c] + b, c) == |a|
  {
    if a != [] {
      assert (a + [c] + b)[1..] == a[1..] + [c] + b;
      IndexOfAfter(a[1..], c, b);
    }
  }

  /** Splitting once at the first separator takes apart what was glued. */
  lemma SplitOnceGlued(a: string, sep: char, b: string)
    requires sep !in a
    ensures SplitOnce(a + [sep] + b, sep) == Some((a, b))
  {
    var s := a + [sep] + b;
    assert s[|a|] == sep;
    IndexOfAfter(a, sep, b);
    assert s[..|a|] == a && s[|a| + 1..] == b;
  }

  /** Splitting at every separator takes the first glued field apart. */
  lemma SplitOnGlued(a: string, sep: char, rest: string)
    requires sep !in a
    ensures SplitOn(a + [sep] + rest, sep) == [a] + SplitOn(rest, sep)
  {
    var s := a + [sep] + rest;
    assert s[|a|] == sep;
    IndexOfAfter(a, sep, rest);
    assert s[..|a|] == a && s[|a| + 1..] == rest;
  }

  /** Three fields glued with a separator they do not hold split back
      into those three. */
  lemma SplitThree(a: string, b: string, c: string, sep: char)
    requires sep !in a && sep !in b && sep !in c
    ensures SplitOn(a + [sep] + b + [sep] + c, sep) == [a, b, c]
  {
    var s := [sep];
    var tail := b + s + c;
    ConcatAssoc(a + s, b + s, c);
    ConcatAssoc(a + s, b, s);
    assert a + s + b + s + c == a + s + tail;
    SplitOnGlued(a, sep, tail);
    SplitOnGlued(b, sep, c);
  }

  /** Length of the leading run of non-whitespace characters. */
  function WordLength(s: string): (n: nat)
    ensures n <= |s| && NoSpace(s[..n])
    ensures n == |s| || IsSpace(s[n])
  {
    if s == [] || IsSpace(s[0]) then 0 else 1 + WordLength(s[1..])
  }

  /** `s.split()` with no argument: the maximal runs of non-whitespace,
      in order; no empty words. */
  function Split(s: string): (words: seq<string>)
    ensures forall w | w in words :: w != [] && NoSpace(w)
    decreases |s|
  {
    var t := TrimStart(s);
    if t == [] then []
    else
      var n := WordLength(t);
      var rest := Split(t[n..]);
      assert !AllSpace(s) by { assert s[|s| - |t|] == t[0]; }
      [t[..n]] + rest
  }

  lemma SplitEmptyIff(s: string)
    ensures Split(s) == [] <==> AllSpace(s)
  {
    var t := TrimStart(s);
    if t != [] {
      assert s[|s| - |t|] == t[0];
    } else {
      assert s[..|s|] == s;
    }
  }

  lemma SliceConcat<T>(x: seq<T>, y: seq<T>, n: nat)
    requires n <= |x|
    ensures (x + y)[..n] == x[..n] && (x + y)[n..] == x[n..] + y
  {
  }

  lemma ConcatAssoc<T>(x: seq<T>, y: seq<T>, z: seq<T>)
    ensures x + (y + z) == (x + y) + z
  {
  }

  lemma {:induction false} TrimStartAppend(a: string, b: string)
    requires TrimStart(a) != []
    ensures TrimStart(a + b) == TrimStart(a) + b
    decreases |a|
  {
    assert (a + b)[0] == a[0];
    if IsSpace(a[0]) {
      assert (a + b)[1..] == a[1..] + b;
      TrimStartAppend(a[1..], b);
    }
  }

  lemma {:induction false} WordLengthAppend(x: string, y: string)
    requires !NoSpace(x)
    ensures WordLength(x + y) == WordLength(x)
    decreases |x|
  {
    assert (x + y)[0] == x[0];
    if !IsSpace(x[0]) {
      var i :| 0 <= i < |x| && IsSpace(x[i]);
      assert x[1..][i - 1] == x[i];
      assert (x + y)[1..] == x[1..] + y;
      WordLengthAppend(x[1..], y);
    }
  }

  lemma SplitUnfold(s: string)
    requires TrimStart(s) != []
    ensures var t := TrimStart(s); var n := WordLength(t);
      Split(s) == [t[..n]] + Split(t[n..])
  {
  }

  /** The first word of `a + b` is the first word of `a` when `a` ends in
      whitespace and holds a word. */
  lemma SplitAppendHead(a: string, b: string) returns (n: nat)
    requires TrimStart(a) != [] && IsSpace(a[|a| - 1])
    ensures var t := TrimStart(a);
      0 < n < |t| && IsSpace(t[n..][|t| - n - 1]) &&
      Split(a) == [t[..n]] + Split(t[n..]) &&
      Split(a + b) == [t[..n]] + Split(t[n..] + b)
  {
    var t := TrimStart(a);
    TrimStartAppend(a, b);
    assert t[|t| - 1] == a[|a| - 1];
    WordLengthAppend(t, b);
    n := WordLength(t);
    assert n < |t|;
    SplitUnfold(a);
    SplitUnfold(a + b);
    SliceConcat(t, b, n);
    assert t[n..][|t| - n - 1] == t[|t| - 1];
  }

  /** Text that ends in whitespace ends its last word: the words of what
      follows are added after it, none merged. */
  lemma {:induction false} SplitAppend(a: string, b: string)
    requires a == [] || IsSpace(a[|a| - 1])
    ensures Split(a + b) == Split(a) + Split(b)
    decreases |a|
  {
    var t := TrimStart(a);
    if t == [] {
      assert AllSpace(a);
      TrimStartSpaces(a, b);
      assert Split(a) == [];
      assert Split(a + b) == Split(b);
      assert [] + Split(b) == Split(b);
    } else {
      var n := SplitAppendHead(a, b);
      var rest := t[n..];
      SplitAppend(rest, b);
      ConcatAssoc([t[..n]], Split(rest), Split(b));
    }
  }

  lemma {:induction false} WordLengthWhole(x: string, pad: string)
    requires NoSpace(x) && (pad == [] || IsSpace(pad[0]))
    ensures WordLength(x + pad) == |x|
    decreases |x|
  {
    if x == [] {
      assert x + pad == pad;
    } else {
      assert (x + pad)[0] == x[0];
      assert (x + pad)[1..] == x[1..] + pad;
      WordLengthWhole(x[1..], pad);
    }
  }

  /** Trailing whitespace adds no word. */
  lemma {:induction false} SplitPadEnd(s: string, pad: string)
    requires AllSpace(pad)
    ensures Split(s + pad) == Split(s)
    decreases |s|
  {
    var t := TrimStart(s);
    if t == [] {
      assert AllSpace(s + pad);
      SplitEmptyIff(s);
      SplitEmptyIff(s + pad);
    } else {
      TrimStartAppend(s, pad);
      var n := WordLength(t);
      if n < |t| {
        WordLengthAppend(t, pad);
      } else {
        assert t[..n] == t;
        WordLengthWhole(t, pad);
      }
      assert 0 < n;
      SplitUnfold(s);
      SplitUnfold(s + pad);
      SliceConcat(t, pad, n);
      SplitPadEnd(t[n..], pad);
    }
  }

  /** Leading whitespace adds no word. */
  lemma SplitTrimStart(s: string)
    ensures Split(TrimStart(s)) == Split(s)
  {
    assert TrimStart(TrimStart(s)) == TrimStart(s);
  }

  /** What `rstrip()` removes is whitespace. */
  lemma TrimEndPad(t: string)
    ensures t == TrimEnd(t) + t[|TrimEnd(t)|..] && AllSpace(t[|TrimEnd(t)|..])
  {
  }

  /** `split()` ignores the whitespace `strip()` removes. */
  lemma SplitStrip(s: string)
    ensures Split(Strip(s)) == Split(s)
  {
    var t := TrimStart(s);
    SplitTrimStart(s);
    TrimEndPad(t);
    SplitPadEnd(TrimEnd(t), t[|TrimEnd(t)|..]);
  }

  /** `strip()` of a stripped string changes nothing. */
  lemma StripIdempotent(s: string)
    ensures Strip(Strip(s)) == Strip(s)
  {
    StripNoOp(Strip(s));
  }

  /** `str.upper()` for one character, exact over Latin-1 (the lexicon's
      encoding): a-z and the Latin-1 lower-case letters move up by 32,
      'ß' becomes "SS", 'µ' becomes Greek capital mu, 'ÿ' becomes 'Ÿ'. */
  function UpperChar(c: char): string {
    if 'a' <= c <= 'z' || ('\U{E0}' <= c <= '\U{FE}' && c != '\U{F7}') then
      [(c as int - 32) as char]
    else if c == '\U{DF}' then "SS"
    else if c == '\U{B5}' then ['\U{39C}']
    else if c == '\U{FF}' then ['\U{178}']
    else [c]
  }

  /** `s.upper()` */
  function Upper(s: string): string {
    if s == [] then [] else UpperChar(s[0]) + Upper(s[1..])
  }

  lemma {:induction false} UpperAppend(a: string, b: string)
    ensures Upper(a + b) == Upper(a) + Upper(b)
  {
    if a == [] {
      assert a + b == b;
    } else {
      assert (a + b)[0] == a[0];
      assert (a + b)[1..] == a[1..] + b;
      UpperAppend(a[1..], b);
    }
  }

  /** Upper-casing twice is upper-casing once. */
  lemma {:induction false} UpperIdempotent(s: string)
    ensures Upper(Upper(s)) == Upper(s)
  {
    if s != [] {
      var u := UpperChar(s[0]);
      assert Upper(u) == u by {
        if |u| == 2 {
          assert u == ['S'] + ['S'];
          UpperAppend(['S'], ['S']);
        }
      }
      UpperAppend(u, Upper(s[1..]));
      UpperIdempotent(s[1..]);
    }
  }
}
