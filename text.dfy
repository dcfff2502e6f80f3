/**
 * The Python string operations the chat service relies on: `str.isspace`,
 * `str.strip(chars)`, `str.lower`, the `in` substring test, `split(...)[-1]`,
 * `"\n".join(...)` and the list slice `xs[-n:]`.
 */
module Text {

  /** Python's `str.isspace()`; also the set `\s` matches and `str.strip()` removes. */
  predicate IsSpace(c: char) {
    ('\t' <= c <= '\r') || ('\U{1C}' <= c <= ' ') || c == '\U{85}' || c == '\U{A0}'
    || c == '\U{1680}' || ('\U{2000}' <= c <= '\U{200A}') || c == '\U{2028}' || c == '\U{2029}'
    || c == '\U{202F}' || c == '\U{205F}' || c == '\U{3000}'
  }

  /** Where `s.lstrip(chars)` starts looking from `n`: the first kept index, or `|s|`. */
  function FirstKept(s: string, strip: char -> bool, n: nat): (c: nat)
    requires n <= |s|
    ensures n <= c <= |s| && (c < |s| ==> !strip(s[c]))
    ensures forall i :: n <= i < c ==> strip(s[i])
    decreases |s| - n
  {
    if n < |s| && strip(s[n]) then FirstKept(s, strip, n + 1) else n
  }

  /** Where `s.rstrip(chars)` cuts when it looks back from `n`: just past the last kept index, or 0. */
  function LastKept(s: string, strip: char -> bool, n: nat): (c: nat)
    requires n <= |s|
    ensures c <= n && (0 < c ==> !strip(s[c - 1]))
    ensures forall i :: c <= i < n ==> strip(s[i])
  {
    if 0 < n && strip(s[n - 1]) then LastKept(s, strip, n - 1) else n
  }

  /** `s.lstrip(chars)`, where `strip` tells which characters are in `chars`. */
  function TrimStart(s: string, strip: char -> bool): (r: string)
    ensures r == [] || !strip(r[0])
  {
    s[FirstKept(s, strip, 0)..]
  }

  /** `s.rstrip(chars)`, where `strip` tells which characters are in `chars`. */
  function TrimEnd(s: string, strip: char -> bool): (r: string)
    ensures r == [] || !strip(r[|r| - 1])
  {
    s[..LastKept(s, strip, |s|)]
  }

  /** `s.strip(chars)`: a contiguous piece of `s` that neither starts nor ends with one of `strip`. */
  function Trim(s: string, strip: char -> bool): (r: string)
    ensures r != [] ==> !strip(r[0]) && !strip(r[|r| - 1])
  {
    TrimEnd(TrimStart(s, strip), strip)
  }

  /**
   * What `Trim` keeps: the characters `s[i..j]`, after a prefix and before a suffix of
   * stripped characters (by `Trim`'s own contract, the kept piece neither starts nor
   * ends with one of them).
   */
  lemma TrimBounds(s: string, strip: char -> bool) returns (i: nat, j: nat)
    ensures i <= j <= |s| && |Trim(s, strip)| == j - i
    ensures forall k :: j <= k < |s| ==> strip(s[k])
    ensures forall k :: 0 <= k < i ==> strip(s[k])
    ensures forall k {:trigger Trim(s, strip)[k]} :: 0 <= k < j - i ==> Trim(s, strip)[k] == s[i + k]
  {
    i := FirstKept(s, strip, 0);
    var t := s[i..];
    j := i + LastKept(t, strip, |t|);
    forall k | j <= k < |s|
      ensures strip(s[k])
    {
      assert t[k - i] == s[k];
    }
  }

  /** Stripping leaves nothing exactly when every character is stripped. */
  lemma TrimEmpty(s: string, strip: char -> bool)
    ensures Trim(s, strip) == [] <==> forall k :: 0 <= k < |s| ==> strip(s[k])
  {
    var i, j := TrimBounds(s, strip);
    var r := Trim(s, strip);
    if r != [] {
      assert r[0] == s[i + 0] && !strip(r[0]);
    }
  }

  /** Stripping leaves alone a string whose ends are kept. */
  lemma TrimUnchanged(s: string, strip: char -> bool)
    requires s != [] ==> !strip(s[0]) && !strip(s[|s| - 1])
    ensures Trim(s, strip) == s
  {
  }

  /** A leading stripped character does not change the result. */
  lemma TrimLeading(c: char, s: string, strip: char -> bool)
    requires strip(c)
    ensures Trim([c] + s, strip) == Trim(s, strip)
  {
    var k := FirstKept(s, strip, 0);
    FirstKeptShift(c, s, strip, 0);
    assert ([c] + s)[k + 1..] == s[k..];
    assert TrimStart([c] + s, strip) == TrimStart(s, strip);
  }

  /** Looking for the first kept character behind one more leading character. */
  lemma {:induction false} FirstKeptShift(c: char, s: string, strip: char -> bool, n: nat)
    requires n <= |s|
    ensures FirstKept([c] + s, strip, n + 1) == FirstKept(s, strip, n) + 1
    decreases |s| - n
  {
    if n < |s| {
      assert ([c] + s)[n + 1] == s[n];
      if strip(s[n]) {
        FirstKeptShift(c, s, strip, n + 1);
      }
    }
  }

  /** `s.strip()`: whitespace removed from both ends. */
  function PyStrip(s: string): (r: string)
  {
    Trim(s, IsSpace)
  }

  /**
   * Python's `str.lower()` on one character, as far as the result can contain an ASCII
   * letter: ASCII capitals, U+0130 (lowercases to "i" and a combining dot) and U+212A
   * (the Kelvin sign, lowercases to "k"). Every other character is kept as it is.
   */
  function LowerChar(c: char): (r: string)
    ensures 'A' <= c <= 'Z' ==> r == [c + ('a' - 'A')]
    ensures 1 <= |r| <= 2
    ensures forall i :: 0 <= i < |r| ==> !('A' <= r[i] <= 'Z')
  {
    if 'A' <= c <= 'Z' then [c + ('a' - 'A')]
    else if c == '\U{130}' then ['i', '\U{307}']
    else if c == '\U{212A}' then ['k']
    else [c]
  }

  /**
   * Python's `str.capitalize()`: the first character upper-cased, the rest lower-cased
   * (upper-casing modelled for ASCII letters).
   */
  function Capitalize(s: string): (r: string)
    ensures s == [] <==> r == []
    ensures r != [] ==> !('a' <= r[0] <= 'z')
    ensures forall i :: 1 <= i < |r| ==> !('A' <= r[i] <= 'Z')
  {
    if s == [] then []
    else [if 'a' <= s[0] <= 'z' then s[0] - ('a' - 'A') else s[0]] + Lower(s[1..])
  }

  /** `s.lower()`, character by character. */
  function Lower(s: string): (r: string)
    ensures |s| <= |r| <= 2 * |s|
    ensures forall i :: 0 <= i < |r| ==> !('A' <= r[i] <= 'Z')
  {
    if s == [] then [] else LowerChar(s[0]) + Lower(s[1..])
  }

  /** `lower()` works character by character, so it distributes over concatenation. */
  lemma {:induction false} LowerAppend(a: string, b: string)
    ensures Lower(a + b) == Lower(a) + Lower(b)
  {
    if a != [] {
      assert (a + b)[1..] == a[1..] + b;
      LowerAppend(a[1..], b);
      calc {
        Lower(a + b);
        LowerChar(a[0]) + Lower(a[1..] + b);
        LowerChar(a[0]) + (Lower(a[1..]) + Lower(b));
        (LowerChar(a[0]) + Lower(a[1..])) + Lower(b);
      }
    } else {
      assert a + b == b;
    }
  }

  /** The substring test `sub in s`. */
  function Contains(s: string, sub: string): bool
  {
    if sub <= s then true
    else if s == [] then false
    else Contains(s[1..], sub)
  }

  /** `sub in s` holds exactly when `sub` occurs at some position of `s`. */
  lemma {:induction false} ContainsAt(a: string, sub: string, b: string)
    ensures Contains(a + sub + b, sub)
  {
    if a != [] {
      assert (a + sub + b)[1..] == a[1..] + sub + b;
      ContainsAt(a[1..], sub, b);
    } else {
      assert sub <= sub + b;
    }
  }

  /** ... and, conversely, `sub in s` names a position where `sub` occurs. */
  lemma {:induction false} ContainsWitness(s: string, sub: string) returns (i: nat)
    requires Contains(s, sub)
    ensures i + |sub| <= |s| && s[i..i + |sub|] == sub
  {
    if sub <= s {
      i := 0;
    } else {
      var k := ContainsWitness(s[1..], sub);
      i := k + 1;
      assert s[1..][k..k + |sub|] == s[i..i + |sub|];
    }
  }

  /** Text found in `s` is found in any extension of `s` to the left. */
  lemma {:induction false} ContainsExtend(pre: string, s: string, sub: string)
    requires Contains(s, sub)
    ensures Contains(pre + s, sub)
  {
    if pre == [] {
      assert pre + s == s;
    } else {
      ContainsExtend(pre[1..], s, sub);
      assert (pre + s)[1..] == pre[1..] + s;
    }
  }

  /** Each part of a join occurs in the joined text. */
  lemma {:induction false} JoinContainsPart(sep: string, parts: seq<string>, k: nat)
    requires k < |parts|
    ensures Contains(Join(sep, parts), parts[k])
  {
    if |parts| == 1 {
      ContainsAt([], parts[0], []);
      assert [] + parts[0] + [] == Join(sep, parts);
    } else if k == 0 {
      var rest := sep + Join(sep, parts[1..]);
      ContainsAt([], parts[0], rest);
      assert [] + parts[0] + rest == Join(sep, parts);
    } else {
      var tail := Join(sep, parts[1..]);
      JoinContainsPart(sep, parts[1..], k - 1);
      ContainsExtend(parts[0] + sep, tail, parts[k]);
      assert Join(sep, parts) == parts[0] + sep + tail;
    }
  }

  /**
   * The part of `s` after the last character satisfying `sep`, or all of `s` when there
   * is none: `s.split(",")[-1]` for a comma and `re.split(r"\s+", s)[-1]` for whitespace.
   */
  function AfterLast(s: string, sep: char -> bool): (r: string)
    ensures |r| <= |s| && forall i {:trigger r[i]} :: 0 <= i < |r| ==> r[i] == s[|s| - |r| + i]
    ensures forall i :: 0 <= i < |r| ==> !sep(r[i])
    ensures |r| == |s| || sep(s[|s| - |r| - 1])
  {
    if s == [] then []
    else if sep(s[|s| - 1]) then []
    else AfterLast(s[..|s| - 1], sep) + [s[|s| - 1]]
  }

  /** The part after the last separator, when the separator `c` is followed by `b` alone. */
  lemma {:induction false} AfterLastAt(a: string, c: char, b: string, sep: char -> bool)
    requires sep(c)
    requires forall i :: 0 <= i < |b| ==> !sep(b[i])
    ensures AfterLast(a + [c] + b, sep) == b
  {
    var s := a + [c] + b;
    if b == [] {
      assert s[|s| - 1] == c;
    } else {
      var b' := b[..|b| - 1];
      assert b == b' + [b[|b| - 1]];
      assert s == (a + [c] + b') + [b[|b| - 1]];
      assert s[..|s| - 1] == a + [c] + b';
      AfterLastAt(a, c, b', sep);
      assert b' + [b[|b| - 1]] == b;
    }
  }

  /** `sep.join(parts)`. */
  function Join(sep: string, parts: seq<string>): (r: string)
  {
    if parts == [] then []
    else if |parts| == 1 then parts[0]
    else parts[0] + sep + Join(sep, parts[1..])
  }

  /** `s.split(sep)` for a one-character separator: never empty, no part holds `sep`. */
  function Split(s: string, sep: char): (parts: seq<string>)
    ensures |parts| >= 1
    ensures forall k, i :: 0 <= k < |parts| && 0 <= i < |parts[k]| ==> parts[k][i] != sep
  {
    if s == [] then [[]]
    else
      var rest := Split(s[1..], sep);
      if s[0] == sep then [[]] + rest else [[s[0]] + rest[0]] + rest[1..]
  }

  /** Splitting what `Join` built gives the parts back, when no part holds the separator. */
  lemma {:induction false} SplitJoin(parts: seq<string>, sep: char)
    requires |parts| >= 1
    requires forall k, i :: 0 <= k < |parts| && 0 <= i < |parts[k]| ==> parts[k][i] != sep
    ensures Split(Join([sep], parts), sep) == parts
  {
    if |parts| == 1 {
      SplitNoSep(parts[0], sep);
    } else {
      var tail := Join([sep], parts[1..]);
      var x := [sep] + tail;
      SplitJoin(parts[1..], sep);
      SplitPrefix(parts[0], x, sep);
      assert Join([sep], parts) == parts[0] + x;
      assert x[1..] == tail && x[0] == sep;
      assert Split(x, sep) == [[]] + parts[1..];
      assert parts[0] + [] == parts[0];
      assert parts == [parts[0]] + parts[1..];
    }
  }

  lemma {:induction false} SplitNoSep(s: string, sep: char)
    requires forall i :: 0 <= i < |s| ==> s[i] != sep
    ensures Split(s, sep) == [s]
  {
    if s != [] {
      SplitNoSep(s[1..], sep);
      assert [s[0]] + s[1..] == s;
    }
  }

  /** A separator-free prefix glues onto the first part of what follows it. */
  lemma {:induction false} SplitPrefix(a: string, b: string, sep: char)
    requires forall i :: 0 <= i < |a| ==> a[i] != sep
    ensures var parts := Split(b, sep);
      Split(a + b, sep) == [a + parts[0]] + parts[1..]
  {
    var parts := Split(b, sep);
    if a != [] {
      SplitPrefix(a[1..], b, sep);
      assert (a + b)[1..] == a[1..] + b;
      var rest := Split(a[1..] + b, sep);
      assert rest == [a[1..] + parts[0]] + parts[1..];
      assert (a + b)[0] == a[0] != sep;
      assert Split(a + b, sep) == [[a[0]] + rest[0]] + rest[1..];
      assert [a[0]] + (a[1..] + parts[0]) == a + parts[0];
    } else {
      assert a + b == b && a + parts[0] == parts[0];
      assert parts == [parts[0]] + parts[1..];
    }
  }

  /** `xs[-n:]` for a positive `n`: the last `n` elements, or all of them when there are fewer. */
  function LastN<T>(xs: seq<T>, n: nat): (r: seq<T>)
    requires n > 0
    ensures |r| == (if |xs| < n then |xs| else n)
    ensures |xs| <= n ==> r == xs
    ensures |xs| > n ==> forall i {:trigger r[i]} :: 0 <= i < n ==> r[i] == xs[|xs| - n + i]
  {
    if |xs| <= n then xs else xs[|xs| - n..]
  }
}
