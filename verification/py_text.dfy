/**
 * The Python string and list primitives the retrieval code is built from:
 * `str.isspace`, `str.strip`, `str.split(sep)`, `sep.join`, `str.lower`,
 * the substring test `pat in s`, `os.path.basename`, list slicing `s[:k]`
 * and `str(n)` for a natural number.
 */
module PyText {

  function Min(a: int, b: int): int { if a <= b then a else b }
  function Max(a: int, b: int): int { if a <= b then b else a }

  /** The characters for which Python's `str.isspace()` holds (also what `\s` matches in a `str` regex). */
  predicate IsSpace(c: char) {
    || c == ' '
    || ('\t' <= c <= '\r')
    || ('\U{1C}' <= c <= '\U{1F}')
    || c == '\U{85}' || c == '\U{A0}' || c == '\U{1680}'
    || ('\U{2000}' <= c <= '\U{200A}')
    || c == '\U{2028}' || c == '\U{2029}' || c == '\U{202F}' || c == '\U{205F}' || c == '\U{3000}'
  }

  // ---------------------------------------------------------------------------
  // str.strip()

  function LStrip(s: string): (r: string)
    ensures |r| <= |s| && r == s[|s| - |r|..]
    ensures r == [] || !IsSpace(r[0])
    ensures forall i :: 0 <= i < |s| - |r| ==> IsSpace(s[i])
    decreases |s|
  {
    if |s| > 0 && IsSpace(s[0]) then LStrip(s[1..]) else s
  }

  function RStrip(s: string): (r: string)
    ensures |r| <= |s| && r == s[..|r|]
    ensures r == [] || !IsSpace(r[|r| - 1])
    ensures forall i :: |r| <= i < |s| ==> IsSpace(s[i])
    decreases |s|
  {
    if |s| > 0 && IsSpace(s[|s| - 1]) then RStrip(s[..|s| - 1]) else s
  }

  /** A string with no whitespace at either end. */
  predicate Trimmed(s: string) {
    s == [] || (!IsSpace(s[0]) && !IsSpace(s[|s| - 1]))
  }

  /**
   * Python's `s.strip()`: the slice of `s` left between its leading and its
   * trailing whitespace runs. Being trimmed, that slice is the only one.
   */
  function Strip(s: string): (r: string)
    ensures Trimmed(r)
    ensures exists i :: SpaceAround(s, i, r)
    ensures forall c :: c in r ==> c in s
    ensures r == [] <==> forall i :: 0 <= i < |s| ==> IsSpace(s[i])
    ensures Trimmed(s) ==> r == s
  {
    var l := LStrip(s);
    var r := RStrip(l);
    var i := |s| - |l|;
    assert s[i..i + |r|] == l[..|r|];
    assert forall k :: i + |r| <= k < |s| ==> s[k] == l[k - i];
    assert SpaceAround(s, i, r);
    assert forall c :: c in r ==> c in l;
    assert forall c :: c in l ==> c in s;
    r
  }

  /** `r` sits in `s` at index `i` with only whitespace before and after it. */
  predicate SpaceAround(s: string, i: int, r: string) {
    0 <= i && i + |r| <= |s| && s[i..i + |r|] == r &&
    (forall k :: 0 <= k < i ==> IsSpace(s[k])) &&
    (forall k :: i + |r| <= k < |s| ==> IsSpace(s[k]))
  }

  /** A trimmed slice with only whitespace around it is what `strip()` returns. */
  lemma StripIsTheTrimmedSlice(s: string, i: int, t: string)
    requires Trimmed(t) && SpaceAround(s, i, t)
    ensures Strip(s) == t
  {
    var r := Strip(s);
    var j :| SpaceAround(s, j, r);
    if t == [] {
      assert forall k :: 0 <= k < |s| ==> IsSpace(s[k]);
    } else {
      assert r != [];
      OneTrimmedSlice(s, i, t, j, r);
    }
  }

  lemma OneTrimmedSlice(s: string, i: int, t: string, j: int, r: string)
    requires t != [] && Trimmed(t) && SpaceAround(s, i, t)
    requires r != [] && Trimmed(r) && SpaceAround(s, j, r)
    ensures t == r
  {
    assert s[i] == t[0] && s[i + |t| - 1] == t[|t| - 1];
    assert s[j] == r[0] && s[j + |r| - 1] == r[|r| - 1];
    assert i == j;
    assert i + |t| == j + |r|;
  }

  // ---------------------------------------------------------------------------
  // sep.join(parts) and s.split(sep)

  /** Python's `sep.join(parts)`. */
  function Join(parts: seq<string>, sep: string): string {
    if |parts| == 0 then ""
    else if |parts| == 1 then parts[0]
    else parts[0] + sep + Join(parts[1..], sep)
  }

  /** Python's `s.split(sep)` for a one-character separator: never empty, and joining the pieces back gives `s`. */
  function Split(s: string, sep: char): (parts: seq<string>)
    ensures |parts| >= 1
    ensures forall i :: 0 <= i < |parts| ==> sep !in parts[i]
    ensures Join(parts, [sep]) == s
    decreases |s|
  {
    if |s| == 0 then [""]
    else if s[0] == sep then
      var rest := Split(s[1..], sep);
      assert [sep] + Join(rest, [sep]) == s;
      [""] + rest
    else
      var rest := Split(s[1..], sep);
      var parts := [[s[0]] + rest[0]] + rest[1..];
      assert parts[1..] == rest[1..];
      if |rest| == 1 then
        parts
      else
        assert Join(parts, [sep]) == [s[0]] + Join(rest, [sep]);
        parts
  }

  lemma {:induction false} SplitPrefix(p: string, t: string, sep: char)
    requires sep !in p
    ensures Split(p + t, sep) == [p + Split(t, sep)[0]] + Split(t, sep)[1..]
    decreases |p|
  {
    if |p| > 0 {
      assert (p + t)[1..] == p[1..] + t;
      SplitPrefix(p[1..], t, sep);
      assert (p + t)[0] == p[0] != sep;
      assert [p[0]] + (p[1..] + Split(t, sep)[0]) == p + Split(t, sep)[0];
    } else {
      assert p + t == t;
      assert p + Split(t, sep)[0] == Split(t, sep)[0];
    }
  }

  /** Splitting a join on a separator the parts do not contain gives the parts back. */
  lemma {:induction false} SplitOfJoin(parts: seq<string>, sep: char)
    requires |parts| >= 1
    requires forall i :: 0 <= i < |parts| ==> sep !in parts[i]
    ensures Split(Join(parts, [sep]), sep) == parts
    decreases |parts|
  {
    if |parts| == 1 {
      SplitPrefix(parts[0], "", sep);
      assert parts[0] + "" == parts[0];
    } else {
      var tail := Join(parts[1..], [sep]);
      SplitOfJoin(parts[1..], sep);
      assert ([sep] + tail)[1..] == tail;
      assert Split([sep] + tail, sep) == [""] + parts[1..];
      assert parts[0] + [sep] + tail == parts[0] + ([sep] + tail);
      SplitPrefix(parts[0], [sep] + tail, sep);
      assert parts[0] + "" == parts[0];
      assert [parts[0]] + parts[1..] == parts;
    }
  }

  /** The concatenation of a list of strings, `"".join(parts)`. */
  function Concat(parts: seq<string>): string {
    if |parts| == 0 then "" else parts[0] + Concat(parts[1..])
  }

  // ---------------------------------------------------------------------------
  // str.lower() and the substring test

  predicate IsAsciiUpper(c: char) { 'A' <= c <= 'Z' }

  function LowerChar(c: char): char {
    if IsAsciiUpper(c) then (c as int + 32) as char else c
  }

  /** `s.lower()` on the ASCII letters. */
  function Lower(s: string): (r: string)
    ensures |r| == |s|
    ensures forall i :: 0 <= i < |s| ==> r[i] == LowerChar(s[i])
    ensures forall i :: 0 <= i < |r| ==> !IsAsciiUpper(r[i])
  {
    seq(|s|, i requires 0 <= i < |s| => LowerChar(s[i]))
  }

  /** `pat` occurs in `s` starting at index `i`. */
  predicate OccursAt(pat: string, s: string, i: int) {
    0 <= i && i + |pat| <= |s| && s[i..i + |pat|] == pat
  }

  lemma OccursAtShift(pat: string, s: string, i: int)
    requires |s| > 0 && i >= 0
    ensures OccursAt(pat, s[1..], i) <==> OccursAt(pat, s, i + 1)
  {
    if 0 <= i && i + |pat| <= |s[1..]| {
      assert s[1..][i..i + |pat|] == s[i + 1..i + 1 + |pat|];
    }
  }

  /** Python's `pat in s` on strings. */
  function Contains(s: string, pat: string): (b: bool)
    ensures b <==> exists i :: OccursAt(pat, s, i)
    decreases |s|
  {
    if pat <= s then
      assert OccursAt(pat, s, 0);
      true
    else if |s| == 0 then
      false
    else
      var b := Contains(s[1..], pat);
      if b then
        var i :| OccursAt(pat, s[1..], i);
        OccursAtShift(pat, s, i);
        true
      else
        assert !OccursAt(pat, s, 0);
        assert forall i :: 0 < i ==> (OccursAt(pat, s, i) <==> OccursAt(pat, s[1..], i - 1)) by {
          forall i | 0 < i
            ensures OccursAt(pat, s, i) <==> OccursAt(pat, s[1..], i - 1)
          {
            OccursAtShift(pat, s, i - 1);
          }
        }
        false
  }

  /** What the tail of a non-empty string contains, the string contains. */
  lemma ContainsInTail(s: string, pat: string)
    requires |s| > 0
    ensures Contains(s[1..], pat) ==> Contains(s, pat)
  {
    if Contains(s[1..], pat) {
      var i :| OccursAt(pat, s[1..], i);
      OccursAtShift(pat, s, i);
    }
  }

  /** A string contains each of its middle parts. */
  lemma ContainsMiddle(a: string, p: string, b: string)
    ensures Contains(a + p + b, p)
  {
    assert (a + p + b)[|a|..|a| + |p|] == p;
    assert OccursAt(p, a + p + b, |a|);
  }

  /** What a string contains, the string with a prefix in front contains too. */
  lemma ContainsAfterPrefix(a: string, s: string, p: string)
    requires Contains(s, p)
    ensures Contains(a + s, p)
  {
    var j :| OccursAt(p, s, j);
    assert (a + s)[|a| + j..|a| + j + |p|] == s[j..j + |p|];
    assert OccursAt(p, a + s, |a| + j);
  }

  /** What a string contains, the string with a suffix behind it contains too. */
  lemma ContainsBeforeSuffix(s: string, b: string, p: string)
    requires Contains(s, p)
    ensures Contains(s + b, p)
  {
    var j :| OccursAt(p, s, j);
    assert (s + b)[j..j + |p|] == s[j..j + |p|];
    assert OccursAt(p, s + b, j);
  }

  /** Each part of a join, whatever the separator, occurs in it. */
  lemma {:induction false} JoinContainsPart(parts: seq<string>, sep: string, i: int)
    requires 0 <= i < |parts|
    ensures Contains(Join(parts, sep), parts[i])
    decreases |parts|
  {
    if |parts| == 1 {
      ContainsMiddle("", parts[0], "");
      assert "" + parts[0] + "" == parts[0];
    } else if i == 0 {
      ContainsMiddle("", parts[0], sep + Join(parts[1..], sep));
      assert "" + parts[0] + (sep + Join(parts[1..], sep)) == Join(parts, sep);
    } else {
      JoinContainsPart(parts[1..], sep, i - 1);
      assert parts[1..][i - 1] == parts[i];
      ContainsAfterPrefix(parts[0] + sep, Join(parts[1..], sep), parts[i]);
      assert Join(parts, sep) == parts[0] + sep + Join(parts[1..], sep);
    }
  }

  /** Each part of a concatenation occurs in it. */
  lemma {:induction false} ConcatContainsPart(parts: seq<string>, i: int)
    requires 0 <= i < |parts|
    ensures Contains(Concat(parts), parts[i])
    decreases |parts|
  {
    var rest := Concat(parts[1..]);
    if i == 0 {
      ContainsMiddle("", parts[0], rest);
      assert "" + parts[0] + rest == Concat(parts);
    } else {
      ConcatContainsPart(parts[1..], i - 1);
      assert parts[1..][i - 1] == parts[i];
      ContainsAfterPrefix(parts[0], rest, parts[i]);
    }
  }

  // ---------------------------------------------------------------------------
  // os.path.basename, s[:k], str(n)

  /** `os.path.basename(p)` on a POSIX path: the longest suffix of `p` without a slash. */
  function Basename(p: string): (r: string)
    ensures '/' !in r
    ensures |r| <= |p| && r == p[|p| - |r|..]
    ensures |r| < |p| ==> p[|p| - |r| - 1] == '/'
    decreases |p|
  {
    if |p| == 0 then ""
    else if p[|p| - 1] == '/' then ""
    else
      var b := Basename(p[..|p| - 1]);
      BasenameStep(p, b);
      b + [p[|p| - 1]]
  }

  lemma BasenameStep(p: string, b: string)
    requires |p| > 0 && p[|p| - 1] != '/'
    requires '/' !in b
    requires |b| <= |p| - 1 && b == p[..|p| - 1][|p| - 1 - |b|..]
    requires |b| < |p| - 1 ==> p[..|p| - 1][|p| - 1 - |b| - 1] == '/'
    ensures var r := b + [p[|p| - 1]];
      '/' !in r && r == p[|p| - |r|..] && (|r| < |p| ==> p[|p| - |r| - 1] == '/')
  {
    var q := p[..|p| - 1];
    assert p == q + [p[|p| - 1]];
    assert p[|p| - |b| - 1..] == q[|q| - |b|..] + [p[|p| - 1]];
  }

  /** Python's slice `s[:k]`, where a negative `k` counts from the end. */
  function PyTake<T>(s: seq<T>, k: int): (r: seq<T>)
    ensures |r| <= |s| && r == s[..|r|]
    ensures k >= 0 ==> |r| == Min(k, |s|)
    ensures k < 0 ==> |r| == Max(0, |s| + k)
  {
    if k >= |s| then s
    else if k >= 0 then s[..k]
    else if |s| + k >= 0 then s[..|s| + k]
    else []
  }

  predicate IsDigit(c: char) { '0' <= c <= '9' }

  function DigitValue(c: char): nat
    requires IsDigit(c)
  {
    c as int - '0' as int
  }

  /** The number a string of decimal digits denotes. */
  function DecimalValue(r: string): nat
    requires forall i :: 0 <= i < |r| ==> IsDigit(r[i])
  {
    if |r| == 0 then 0 else DecimalValue(r[..|r| - 1]) * 10 + DigitValue(r[|r| - 1])
  }

  /** `str(n)` for a natural number: a non-empty run of decimal digits that denotes `n`, with no leading zero. */
  function NatToString(n: nat): (r: string)
    ensures |r| >= 1
    ensures forall i :: 0 <= i < |r| ==> IsDigit(r[i])
    ensures DecimalValue(r) == n
    ensures |r| == 1 || r[0] != '0'
    decreases n
  {
    var last := [('0' as int + n % 10) as char];
    if n < 10 then last
    else
      var r := NatToString(n / 10) + last;
      assert r[..|r| - 1] == NatToString(n / 10);
      r
  }
}
