/**
 * `CodeRAG._clean_code`: the lossy, token-saving clean-up applied to each
 * reranked chunk before it goes into the prompt. Three regular-expression
 * substitutions run in order over the whole text:
 *   `#.*`         a hash and the rest of its line,
 *   `//.*`        a double slash and the rest of its line,
 *   `/\*.*?\*\/`  (DOTALL) a block comment, shortest match, may span lines;
 * then every line is stripped, blank lines are dropped and the rest are
 * joined with single newlines. Comment markers inside string literals are not
 * protected, exactly as in the source.
 */
module CommentStrip {
  import opened Wrappers
  import opened PyText

  /** Index of the first newline of `s`, or `|s|` when there is none: where `.*` stops. */
  function LineEnd(s: string): (k: nat)
    ensures k <= |s|
    ensures forall i :: 0 <= i < k ==> s[i] != '\n'
    ensures k < |s| ==> s[k] == '\n'
    decreases |s|
  {
    if |s| == 0 || s[0] == '\n' then 0 else 1 + LineEnd(s[1..])
  }

  /**
   * One left-to-right pass of `re.sub(marker + '.*', '', s)`: every occurrence
   * of `marker` found while scanning is deleted together with the rest of its
   * line; the newline itself stays and scanning resumes there.
   */
  function StripLineComments(s: string, marker: string): (r: string)
    requires |marker| > 0 && '\n' !in marker
    ensures multiset(r) <= multiset(s)
    decreases |s|
  {
    if |s| == 0 then ""
    else if marker <= s then
      assert s[0] == marker[0];
      var k := LineEnd(s);
      assert s == s[..k] + s[k..];
      StripLineComments(s[k..], marker)
    else
      assert s == [s[0]] + s[1..];
      [s[0]] + StripLineComments(s[1..], marker)
  }

  /** The characters `a` and `b` stand next to each other at index `j` of `s`. */
  predicate PairAt(s: string, j: int, a: char, b: char) {
    0 <= j && j + 1 < |s| && s[j] == a && s[j + 1] == b
  }

  /** A two-character pattern occurs at `j` exactly when its characters stand there. */
  lemma PairAtOccurs(s: string, j: int, a: char, b: char)
    ensures PairAt(s, j, a, b) <==> OccursAt([a, b], s, j)
  {
    if 0 <= j && j + 1 < |s| {
      assert s[j..j + 2] == [s[j], s[j + 1]];
    }
  }

  // The first `j >= from` at which a star-slash starts in `s`, if any: where
  // the lazy `.*?` of the block-comment pattern stops.
  function FindClose(s: string, from: nat): (r: Option<nat>)
    ensures r.Some? ==> from <= r.value && PairAt(s, r.value, '*', '/')
    ensures r.Some? ==> forall j :: from <= j < r.value ==> !PairAt(s, j, '*', '/')
    ensures r.None? ==> forall j :: from <= j ==> !PairAt(s, j, '*', '/')
    decreases |s| - from
  {
    if from + 2 > |s| then None
    else if PairAt(s, from, '*', '/') then Some(from)
    else FindClose(s, from + 1)
  }

  // One left-to-right pass of the DOTALL block-comment substitution: an
  // opening slash-star with a later star-slash is deleted up to and including
  // the first such star-slash; an opening with no closing is left in place.
  function StripBlockComments(s: string): (r: string)
    ensures multiset(r) <= multiset(s)
    decreases |s|
  {
    if |s| < 2 then s
    else if PairAt(s, 0, '/', '*') then
      match FindClose(s, 2)
      case Some(j) =>
        assert s == s[..j + 2] + s[j + 2..];
        StripBlockComments(s[j + 2..])
      case None =>
        assert s == [s[0]] + s[1..];
        [s[0]] + StripBlockComments(s[1..])
    else
      assert s == [s[0]] + s[1..];
      [s[0]] + StripBlockComments(s[1..])
  }

  /** `[line.strip() for line in lines if line.strip()]`. */
  function StrippedNonBlank(lines: seq<string>): (r: seq<string>)
    ensures |r| <= |lines|
    ensures forall i :: 0 <= i < |r| ==> r[i] != [] && Trimmed(r[i])
    ensures forall i, ch :: 0 <= i < |r| && ch in r[i] ==> exists j :: 0 <= j < |lines| && ch in lines[j]
  {
    if |lines| == 0 then []
    else
      var t := Strip(lines[0]);
      var rest := StrippedNonBlank(lines[1..]);
      StrippedStep(lines, t, rest);
      (if t == [] then [] else [t]) + rest
  }

  /**
   * The line filter judges every line on its own: it splits over
   * concatenation, and a single line gives its stripped text, or nothing
   * when that is blank.
   */
  lemma {:induction false} StrippedNonBlankFilters(a: seq<string>, b: seq<string>)
    ensures StrippedNonBlank(a + b) == StrippedNonBlank(a) + StrippedNonBlank(b)
    ensures forall line :: StrippedNonBlank([line]) == if Strip(line) == [] then [] else [Strip(line)]
    decreases |a|
  {
    forall line
      ensures StrippedNonBlank([line]) == if Strip(line) == [] then [] else [Strip(line)]
    {
      StrippedNonBlankOfLine(line);
    }
    if |a| > 0 {
      assert (a + b)[1..] == a[1..] + b;
      StrippedNonBlankFilters(a[1..], b);
    } else {
      assert a + b == b;
    }
  }

  lemma StrippedNonBlankOfLine(line: string)
    ensures StrippedNonBlank([line]) == if Strip(line) == [] then [] else [Strip(line)]
  {
    assert [line][1..] == [];
  }

  lemma StrippedStep(lines: seq<string>, t: string, rest: seq<string>)
    requires |lines| > 0 && t == Strip(lines[0])
    requires forall i :: 0 <= i < |rest| ==> rest[i] != [] && Trimmed(rest[i])
    requires forall i, ch :: 0 <= i < |rest| && ch in rest[i] ==> exists j :: 0 <= j < |lines[1..]| && ch in lines[1..][j]
    ensures var r := (if t == [] then [] else [t]) + rest;
      (forall i :: 0 <= i < |r| ==> r[i] != [] && Trimmed(r[i])) &&
      (forall i, ch :: 0 <= i < |r| && ch in r[i] ==> exists j :: 0 <= j < |lines| && ch in lines[j])
  {
    var r := (if t == [] then [] else [t]) + rest;
    forall i, ch | 0 <= i < |r| && ch in r[i]
      ensures exists j :: 0 <= j < |lines| && ch in lines[j]
    {
      if t != [] && i == 0 {
        assert ch in lines[0];
      } else {
        var k := if t == [] then i else i - 1;
        assert r[i] == rest[k];
        var j :| 0 <= j < |lines[1..]| && ch in lines[1..][j];
        assert ch in lines[j + 1];
      }
    }
  }

  lemma {:induction false} CharsOfJoin(parts: seq<string>, sep: string, ch: char)
    requires ch in Join(parts, sep)
    ensures ch in sep || exists i :: 0 <= i < |parts| && ch in parts[i]
    decreases |parts|
  {
    if |parts| >= 2 {
      var rest := Join(parts[1..], sep);
      assert Join(parts, sep) == parts[0] + sep + rest;
      if ch !in parts[0] && ch !in sep {
        CharsOfJoin(parts[1..], sep, ch);
        var i :| 0 <= i < |parts[1..]| && ch in parts[1..][i];
        assert ch in parts[i + 1];
      }
    }
  }

  /** The line-collapsing step: strip every line, drop blank ones, join with `\n`. */
  function CollapseLines(s: string): (r: string)
    ensures forall ch :: ch in r ==> ch == '\n' || ch in s
    ensures var lines := Split(r, '\n');
      r == "" || forall i :: 0 <= i < |lines| ==> lines[i] != [] && Trimmed(lines[i])
    ensures r == "" <==> StrippedNonBlank(Split(s, '\n')) == []
    ensures r != "" ==> Split(r, '\n') == StrippedNonBlank(Split(s, '\n'))
  {
    var parts := Split(s, '\n');
    var kept := StrippedNonBlank(parts);
    var r := Join(kept, "\n");
    assert forall ch :: ch in r ==> ch == '\n' || ch in s by {
      forall ch | ch in r
        ensures ch == '\n' || ch in s
      {
        CharsOfJoin(kept, "\n", ch);
        if ch != '\n' {
          var i :| 0 <= i < |kept| && ch in kept[i];
          var j :| 0 <= j < |parts| && ch in parts[j];
          PartInJoin(parts, "\n", j, ch);
        }
      }
    }
    if |kept| == 0 then
      r
    else
      assert forall i :: 0 <= i < |kept| ==> '\n' !in kept[i];
      SplitOfJoin(kept, '\n');
      FirstPartIsPrefix(kept, "\n");
      r
  }

  lemma {:induction false} PartInJoin(parts: seq<string>, sep: string, j: int, ch: char)
    requires 0 <= j < |parts| && ch in parts[j]
    ensures ch in Join(parts, sep)
    decreases |parts|
  {
    if |parts| >= 2 {
      assert Join(parts, sep) == parts[0] + sep + Join(parts[1..], sep);
      if j > 0 {
        PartInJoin(parts[1..], sep, j - 1, ch);
      }
    }
  }

  /** `CodeRAG._clean_code(content)`. */
  function CleanCode(content: string): (r: string)
    ensures '#' !in r
    ensures forall ch :: ch in r ==> ch == '\n' || ch in content
    ensures var lines := Split(r, '\n');
      r == "" || forall i :: 0 <= i < |lines| ==> lines[i] != [] && Trimmed(lines[i])
    ensures !Contains(content, "/*") ==>
      r == Join(StrippedNonBlank(CutLines(CutLines(Split(content, '\n'), "#"), "//")), "\n")
  {
    var noHash := StripLineComments(content, "#");
    var noSlash := StripLineComments(noHash, "//");
    var noBlock := StripBlockComments(noSlash);
    NoHashAfterHashPass(content);
    assert forall ch :: ch in noBlock ==> ch in noSlash && ch in noHash && ch in content by {
      forall ch | ch in noBlock
        ensures ch in noSlash && ch in noHash && ch in content
      {
        assert ch in multiset(noBlock);
      }
    }
    if Contains(content, "/*") then CollapseLines(noBlock)
    else
      PassesPerLine(content);
      CollapseLines(noBlock)
  }

  // ---------------------------------------------------------------------------
  // Properties

  /** The `#.*` pass leaves no `#` behind. */
  lemma {:induction false} NoHashAfterHashPass(s: string)
    ensures '#' !in StripLineComments(s, "#")
    decreases |s|
  {
    if |s| > 0 {
      if "#" <= s {
        NoHashAfterHashPass(s[LineEnd(s)..]);
      } else {
        assert s[0] != '#';
        NoHashAfterHashPass(s[1..]);
      }
    }
  }

  /** The prefix of `line` before the first occurrence of `marker` (all of it when there is none). */
  function CutAt(line: string, marker: string): (r: string)
    requires |marker| > 0
    ensures r <= line
    ensures forall i :: 0 <= i < |r| ==> !OccursAt(marker, line, i)
    ensures |r| < |line| ==> OccursAt(marker, line, |r|)
    decreases |line|
  {
    if marker <= line then ""
    else if |line| == 0 then ""
    else
      var r := [line[0]] + CutAt(line[1..], marker);
      assert !OccursAt(marker, line, 0);
      assert forall i :: 1 <= i < |r| ==> !OccursAt(marker, line, i) by {
        forall i | 1 <= i < |r|
          ensures !OccursAt(marker, line, i)
        {
          OccursAtShift(marker, line, i - 1);
        }
      }
      if |r| < |line| then
        OccursAtShift(marker, line, |r| - 1);
        r
      else
        r
  }

  /** The line-comment pass as a per-line reference: every line is cut at its first `marker`. */
  function CutLines(lines: seq<string>, marker: string): (r: seq<string>)
    requires |marker| > 0
    ensures |r| == |lines|
    ensures forall i :: 0 <= i < |lines| ==> r[i] == CutAt(lines[i], marker)
    decreases |lines|
  {
    if |lines| == 0 then [] else [CutAt(lines[0], marker)] + CutLines(lines[1..], marker)
  }

  lemma CutLinesCons(line: string, rest: seq<string>, marker: string)
    requires |marker| > 0
    ensures CutLines([line] + rest, marker) == [CutAt(line, marker)] + CutLines(rest, marker)
  {
    assert ([line] + rest)[1..] == rest;
  }

  lemma CutAtCons(c: char, p: string, marker: string)
    requires |marker| > 0 && !(marker <= [c] + p)
    ensures CutAt([c] + p, marker) == [c] + CutAt(p, marker)
  {
    assert ([c] + p)[1..] == p;
  }

  lemma FirstPartIsPrefix(parts: seq<string>, sep: string)
    requires |parts| >= 1
    ensures parts[0] <= Join(parts, sep)
  {
  }

  lemma JoinConsChar(c: char, p: string, rest: seq<string>, sep: string)
    ensures Join([[c] + p] + rest, sep) == [c] + Join([p] + rest, sep)
  {
    if |rest| > 0 {
      assert ([[c] + p] + rest)[1..] == rest;
      assert ([p] + rest)[1..] == rest;
    }
  }

  /**
   * The scanning pass agrees with the per-line reference: `re.sub(marker + '.*', '', s)`
   * equals splitting `s` into lines, cutting each line at its first `marker`
   * and joining the lines back with `\n`.
   */
  lemma {:induction false} StripLineCommentsPerLine(s: string, marker: string)
    requires |marker| > 0 && '\n' !in marker
    ensures StripLineComments(s, marker) == Join(CutLines(Split(s, '\n'), marker), "\n")
    decreases |s|
  {
    if |s| == 0 {
      assert CutLines(Split(s, '\n'), marker) == [""];
    } else if marker <= s {
      StripLineCommentsPerLine(s[LineEnd(s)..], marker);
      CutLinesAtMarkerLine(s, marker);
    } else if s[0] == '\n' {
      StripLineCommentsPerLine(s[1..], marker);
      PerLineAtNewline(s, marker);
    } else {
      StripLineCommentsPerLine(s[1..], marker);
      PerLineAtPlainChar(s, marker);
    }
  }

  lemma PerLineAtNewline(s: string, marker: string)
    requires |marker| > 0 && '\n' !in marker && |s| > 0 && s[0] == '\n'
    requires StripLineComments(s[1..], marker) == Join(CutLines(Split(s[1..], '\n'), marker), "\n")
    ensures StripLineComments(s, marker) == Join(CutLines(Split(s, '\n'), marker), "\n")
  {
    assert marker[0] != s[0];
    assert StripLineComments(s, marker) == [s[0]] + StripLineComments(s[1..], marker);
    var cut := CutLines(Split(s[1..], '\n'), marker);
    CutLinesAtNewline(s, marker);
    assert ([""] + cut)[1..] == cut;
    assert Join([""] + cut, "\n") == "" + "\n" + Join(cut, "\n");
  }

  lemma PerLineAtPlainChar(s: string, marker: string)
    requires |marker| > 0 && '\n' !in marker && |s| > 0 && s[0] != '\n' && !(marker <= s)
    requires StripLineComments(s[1..], marker) == Join(CutLines(Split(s[1..], '\n'), marker), "\n")
    ensures StripLineComments(s, marker) == Join(CutLines(Split(s, '\n'), marker), "\n")
  {
    assert StripLineComments(s, marker) == [s[0]] + StripLineComments(s[1..], marker);
    var cut := CutLines(Split(s[1..], '\n'), marker);
    CutLinesAtPlainChar(s, marker);
    JoinConsChar(s[0], cut[0], cut[1..], "\n");
    assert [cut[0]] + cut[1..] == cut;
  }

  /** A line that starts with `marker` is cut down to the empty line. */
  lemma CutLinesAtMarkerLine(s: string, marker: string)
    requires |marker| > 0 && '\n' !in marker && marker <= s
    ensures CutLines(Split(s, '\n'), marker) == CutLines(Split(s[LineEnd(s)..], '\n'), marker)
  {
    var k := LineEnd(s);
    var t := s[k..];
    assert forall i :: 0 <= i < |marker| ==> s[i] != '\n';
    assert k >= |marker|;
    assert s == s[..k] + t;
    SplitPrefix(s[..k], t, '\n');
    var st := Split(t, '\n');
    assert st[0] == "" by {
      if t != [] {
        assert t[0] == '\n';
        assert st == [""] + Split(t[1..], '\n');
      }
    }
    assert s[..k] + st[0] == s[..k];
    assert marker <= s[..k];
    assert Split(s, '\n') == [s[..k]] + st[1..];
    CutLinesCons(s[..k], st[1..], marker);
    CutLinesCons(st[0], st[1..], marker);
    assert [st[0]] + st[1..] == st;
  }

  lemma CutLinesAtNewline(s: string, marker: string)
    requires |marker| > 0 && |s| > 0 && s[0] == '\n'
    ensures CutLines(Split(s, '\n'), marker) == [""] + CutLines(Split(s[1..], '\n'), marker)
  {
    assert Split(s, '\n') == [""] + Split(s[1..], '\n');
    CutLinesCons("", Split(s[1..], '\n'), marker);
  }

  lemma CutLinesAtPlainChar(s: string, marker: string)
    requires |marker| > 0 && |s| > 0 && s[0] != '\n' && !(marker <= s)
    ensures var cut := CutLines(Split(s[1..], '\n'), marker);
      CutLines(Split(s, '\n'), marker) == [[s[0]] + cut[0]] + cut[1..]
  {
    var rest := Split(s[1..], '\n');
    var head := [s[0]] + rest[0];
    assert Split(s, '\n') == [head] + rest[1..];
    FirstPartIsPrefix(rest, "\n");
    assert head <= s;
    CutAtCons(s[0], rest[0], marker);
    CutLinesCons(head, rest[1..], marker);
    CutLinesCons(rest[0], rest[1..], marker);
    assert [rest[0]] + rest[1..] == rest;
  }

  /** A line-comment pass over text with no `marker` in it changes nothing. */
  lemma {:induction false} LinePassIdentity(s: string, marker: string)
    requires |marker| > 0 && '\n' !in marker
    requires !Contains(s, marker)
    ensures StripLineComments(s, marker) == s
    decreases |s|
  {
    if |s| > 0 {
      assert !OccursAt(marker, s, 0);
      ContainsInTail(s, marker);
      LinePassIdentity(s[1..], marker);
    }
  }

  // A block-comment pass over text with no opening slash-star changes nothing.
  lemma {:induction false} BlockPassIdentity(s: string)
    requires !Contains(s, "/*")
    ensures StripBlockComments(s) == s
    decreases |s|
  {
    if |s| >= 2 {
      PairAtOccurs(s, 0, '/', '*');
      ContainsInTail(s, "/*");
      BlockPassIdentity(s[1..]);
    }
  }

  // Text with no `#`, no `//` and no opening slash-star loses nothing but
  // layout: the result is its stripped non-blank lines joined by single
  // newlines, so a code line such as `print("Hello")` survives verbatim.
  lemma CleanCodeWithoutComments(s: string)
    requires !Contains(s, "#") && !Contains(s, "//") && !Contains(s, "/*")
    ensures CleanCode(s) == Join(StrippedNonBlank(Split(s, '\n')), "\n")
  {
    LinePassIdentity(s, "#");
    LinePassIdentity(s, "//");
    BlockPassIdentity(s);
  }

  // ---------------------------------------------------------------------------
  // The block-comment pass

  /**
   * Text without an opening slash-star goes through the block pass
   * unchanged, in front of whatever follows, unless what follows starts with
   * a star and completes an opening.
   */
  lemma BlockPassKeepsPrefix(p: string, x: string)
    requires !Contains(p, "/*")
    requires x == [] || x[0] != '*'
    ensures StripBlockComments(p + x) == p + StripBlockComments(x)
  {
    var s := p + x;
    forall j | 0 <= j < |p|
      ensures !PairAt(s, j, '/', '*')
    {
      PairAtOccurs(p, j, '/', '*');
      if j + 1 < |p| {
        assert s[j + 1] == p[j + 1];
      }
    }
    BlockPassKeepsFront(s, |p|);
    assert s[..|p|] == p && s[|p|..] == x;
  }

  /** When no opening starts among the first `n` characters, they go through the block pass unchanged. */
  lemma {:induction false} BlockPassKeepsFront(s: string, n: nat)
    requires n <= |s|
    requires forall j :: 0 <= j < n ==> !PairAt(s, j, '/', '*')
    ensures StripBlockComments(s) == s[..n] + StripBlockComments(s[n..])
    decreases n
  {
    if n == 0 {
      assert s[..0] + StripBlockComments(s[0..]) == StripBlockComments(s);
    } else if |s| < 2 {
      assert s[..n] == s && s[n..] == [];
    } else {
      forall j | 0 <= j < n - 1
        ensures !PairAt(s[1..], j, '/', '*')
      {
        assert !PairAt(s, j + 1, '/', '*');
      }
      BlockPassKeepsFront(s[1..], n - 1);
      BlockPassFrontStep(s, n);
    }
  }

  lemma BlockPassFrontStep(s: string, n: nat)
    requires 1 <= n <= |s| && |s| >= 2 && !PairAt(s, 0, '/', '*')
    requires StripBlockComments(s[1..]) == s[1..][..n - 1] + StripBlockComments(s[1..][n - 1..])
    ensures StripBlockComments(s) == s[..n] + StripBlockComments(s[n..])
  {
    BlockPassKeepStep(s);
    SlicesOfTail(s, n, StripBlockComments(s[n..]));
  }

  /** How slices of `s[1..]` sit in `s`. */
  lemma SlicesOfTail<T>(s: seq<T>, n: nat, b: seq<T>)
    requires 1 <= n <= |s|
    ensures s[1..][n - 1..] == s[n..]
    ensures [s[0]] + (s[1..][..n - 1] + b) == s[..n] + b
  {
    assert [s[0]] + s[1..][..n - 1] == s[..n];
  }

  // Inside a comment body without a star-slash, and at its last character,
  // no star-slash starts; one starts right after the body.
  lemma CloseAfterBody(m: string, t: string)
    requires !Contains(m, "*/")
    ensures var x := "/*" + m + "*/" + t;
      (forall i :: 2 <= i < 2 + |m| ==> !PairAt(x, i, '*', '/')) && PairAt(x, 2 + |m|, '*', '/')
  {
    forall j
      ensures !PairAt(m, j, '*', '/')
    {
      PairAtOccurs(m, j, '*', '/');
    }
    PairFreeBody(m, t);
  }

  lemma PairFreeBody(m: string, t: string)
    requires forall j :: !PairAt(m, j, '*', '/')
    ensures var x := "/*" + m + "*/" + t;
      (forall i :: 2 <= i < 2 + |m| ==> !PairAt(x, i, '*', '/')) && PairAt(x, 2 + |m|, '*', '/')
  {
    var x := "/*" + m + "*/" + t;
    assert forall k :: 0 <= k < |m| ==> x[2 + k] == m[k];
    assert x[2 + |m|] == '*' && x[3 + |m|] == '/';
    forall i | 2 <= i < 2 + |m|
      ensures !PairAt(x, i, '*', '/')
    {
      if i + 1 < 2 + |m| {
        assert !PairAt(m, i - 2, '*', '/');
      }
    }
  }

  /** Away from an opening, or at one that is never closed, the block pass keeps the first character. */
  lemma BlockPassKeepStep(s: string)
    requires |s| >= 2
    requires !PairAt(s, 0, '/', '*') || FindClose(s, 2).None?
    ensures StripBlockComments(s) == [s[0]] + StripBlockComments(s[1..])
  {
  }

  /** At an opening with a close, the block pass drops everything up to and including the close. */
  lemma BlockPassCommentStep(s: string, j: nat)
    requires PairAt(s, 0, '/', '*') && FindClose(s, 2) == Some(j)
    ensures StripBlockComments(s) == StripBlockComments(s[j + 2..])
  {
  }

  /** A closed block comment goes with its delimiters; the text before it and after it stays. */
  lemma BlockCommentRemoved(p: string, m: string, t: string)
    requires !Contains(p, "/*") && !Contains(m, "*/")
    ensures StripBlockComments(p + "/*" + m + "*/" + t) == p + StripBlockComments(t)
  {
    var x := "/*" + m + "*/" + t;
    assert p + "/*" + m + "*/" + t == p + x;
    BlockPassKeepsPrefix(p, x);
    CommentAtFront(m, t);
  }

  lemma CommentAtFront(m: string, t: string)
    requires !Contains(m, "*/")
    ensures StripBlockComments("/*" + m + "*/" + t) == StripBlockComments(t)
  {
    var x := "/*" + m + "*/" + t;
    CloseAfterBody(m, t);
    assert FindClose(x, 2) == Some(2 + |m|);
    assert x[2 + |m| + 2..] == t;
    assert PairAt(x, 0, '/', '*');
    BlockPassCommentStep(x, 2 + |m|);
  }

  /** Without any star-slash the block pass changes nothing: an opening that is never closed stays. */
  lemma UnclosedBlockStays(s: string)
    requires !Contains(s, "*/")
    ensures StripBlockComments(s) == s
  {
    forall j
      ensures !PairAt(s, j, '*', '/')
    {
      PairAtOccurs(s, j, '*', '/');
    }
    NoCloseStays(s);
  }

  /**
   * An opening slash-star with no star-slash after it stays, even when its
   * own star is followed by a slash (slash, star, slash, x): the closing the
   * pattern looks for starts after the opening.
   */
  lemma UnclosedOpeningStays(s: string)
    requires PairAt(s, 0, '/', '*') && FindClose(s, 2).None?
    ensures StripBlockComments(s) == s
  {
    var u := s[1..];
    var t := s[2..];
    forall j
      ensures !PairAt(t, j, '*', '/')
    {
      if 0 <= j && j + 1 < |t| {
        assert t[j] == s[j + 2] && t[j + 1] == s[j + 3];
        assert !PairAt(s, j + 2, '*', '/');
      }
    }
    NoCloseStays(t);
    BlockPassKeepStep(s);
    if |u| >= 2 {
      assert !PairAt(u, 0, '/', '*');
      BlockPassKeepStep(u);
      assert u[1..] == t;
    }
    assert [s[0]] + ([s[1]] + t) == s;
  }

  /** Text in which no star-slash stands at any index comes through the block pass unchanged. */
  lemma {:induction false} NoCloseStays(s: string)
    requires forall j :: !PairAt(s, j, '*', '/')
    ensures StripBlockComments(s) == s
    decreases |s|
  {
    if |s| >= 2 {
      forall j
        ensures !PairAt(s[1..], j, '*', '/')
      {
        if 0 <= j && j + 1 < |s| - 1 {
          assert s[1..][j] == s[j + 1] && s[1..][j + 1] == s[j + 2];
          assert !PairAt(s, j + 1, '*', '/');
        }
      }
      NoCloseStays(s[1..]);
      BlockPassKeepStep(s);
      assert [s[0]] + s[1..] == s;
    }
  }

  // ---------------------------------------------------------------------------
  // The passes as a per-line reference

  /** No slash is directly followed by a star in `s`. */
  predicate NoOpening(s: string) {
    forall i :: 0 <= i < |s| - 1 ==> !(s[i] == '/' && s[i + 1] == '*')
  }

  lemma NoOpeningContains(s: string)
    ensures NoOpening(s) <==> !Contains(s, "/*")
  {
    if !NoOpening(s) {
      var i :| 0 <= i < |s| - 1 && s[i] == '/' && s[i + 1] == '*';
      assert s[i..i + 2] == "/*";
      assert OccursAt("/*", s, i);
    }
    if Contains(s, "/*") {
      var i :| OccursAt("/*", s, i);
      assert s[i..i + 2][0] == s[i] && s[i..i + 2][1] == s[i + 1];
    }
  }

  /** What a line-comment pass leaves starts with the input's first character, or with the newline that ended a cut line. */
  lemma LinePassHead(s: string, marker: string)
    requires |marker| > 0 && '\n' !in marker
    ensures var r := StripLineComments(s, marker); r == [] || (|s| > 0 && (r[0] == s[0] || r[0] == '\n'))
  {
    if |s| > 0 && marker <= s {
      var t := s[LineEnd(s)..];
      if |t| > 0 {
        assert t[0] == '\n' && marker[0] != '\n';
        assert StripLineComments(t, marker) == [t[0]] + StripLineComments(t[1..], marker);
      }
    }
  }

  /** A line-comment pass cannot bring a slash next to a star. */
  lemma {:induction false} LinePassKeepsNoOpening(s: string, marker: string)
    requires |marker| > 0 && '\n' !in marker && NoOpening(s)
    ensures NoOpening(StripLineComments(s, marker))
    decreases |s|
  {
    if |s| > 0 {
      if marker <= s {
        var k := LineEnd(s);
        assert forall i :: 0 <= i < |s[k..]| ==> s[k..][i] == s[k + i];
        LinePassKeepsNoOpening(s[k..], marker);
      } else {
        assert forall i :: 0 <= i < |s[1..]| ==> s[1..][i] == s[1 + i];
        LinePassKeepsNoOpening(s[1..], marker);
        LinePassHead(s[1..], marker);
        var rest := StripLineComments(s[1..], marker);
        var r := [s[0]] + rest;
        assert forall i :: 1 <= i < |r| ==> r[i] == rest[i - 1];
      }
    }
  }

  /** Cutting lines that hold no newline leaves lines that hold none. */
  lemma CutLinesKeepNoNewline(lines: seq<string>, marker: string)
    requires |marker| > 0
    requires forall i :: 0 <= i < |lines| ==> '\n' !in lines[i]
    ensures forall i :: 0 <= i < |lines| ==> '\n' !in CutLines(lines, marker)[i]
  {
    forall i | 0 <= i < |lines|
      ensures '\n' !in CutLines(lines, marker)[i]
    {
      var c := CutAt(lines[i], marker);
      assert c == lines[i][..|c|];
    }
  }

  /**
   * On text with no opening slash-star the three passes and the collapse
   * are the per-line reference: every line is cut at its first `#`, then at
   * its first `//`, stripped, and the non-blank ones are joined by single
   * newlines.
   */
  lemma PassesPerLine(s: string)
    requires !Contains(s, "/*")
    ensures var noSlash := StripLineComments(StripLineComments(s, "#"), "//");
      CollapseLines(StripBlockComments(noSlash)) ==
        Join(StrippedNonBlank(CutLines(CutLines(Split(s, '\n'), "#"), "//")), "\n")
  {
    var lines := Split(s, '\n');
    var noHash := StripLineComments(s, "#");
    var noSlash := StripLineComments(noHash, "//");
    var hashCut := CutLines(lines, "#");
    var slashCut := CutLines(hashCut, "//");
    StripLineCommentsPerLine(s, "#");
    CutLinesKeepNoNewline(lines, "#");
    SplitOfJoin(hashCut, '\n');
    assert Split(noHash, '\n') == hashCut;
    StripLineCommentsPerLine(noHash, "//");
    CutLinesKeepNoNewline(hashCut, "//");
    SplitOfJoin(slashCut, '\n');
    assert Split(noSlash, '\n') == slashCut;
    NoOpeningContains(s);
    LinePassKeepsNoOpening(s, "#");
    LinePassKeepsNoOpening(noHash, "//");
    NoOpeningContains(noSlash);
    BlockPassIdentity(noSlash);
    var r := CollapseLines(noSlash);
    if r != "" {
      assert Join(Split(r, '\n'), "\n") == r;
    }
  }

  /** A line with no `marker` in it is not cut. */
  lemma CutAtAbsent(line: string, marker: string)
    requires |marker| > 0 && !Contains(line, marker)
    ensures CutAt(line, marker) == line
  {
  }

  /** A pattern whose first character does not occur in `s` does not occur in `s`. */
  lemma AbsentHead(s: string, pat: string)
    requires |pat| > 0 && pat[0] !in s
    ensures !Contains(s, pat)
  {
    forall i | 0 <= i && i + |pat| <= |s|
      ensures !OccursAt(pat, s, i)
    {
      assert s[i..i + |pat|][0] == s[i];
    }
  }

  lemma JoinThree(a: string, b: string, c: string, sep: string)
    ensures Join([a, b, c], sep) == a + sep + b + sep + c
  {
    assert [a, b, c][1..] == [b, c];
    assert [b, c][1..] == [c];
    assert Join([c], sep) == c;
    assert Join([b, c], sep) == b + sep + c;
    assert Join([a, b, c], sep) == a + sep + (b + sep + c);
    assert a + sep + (b + sep + c) == a + sep + b + sep + c;
  }

  /** The lines of a comment line followed by a newline-terminated code line. */
  lemma CommentThenCodeLines(c: string, code: string)
    requires '\n' !in c && '\n' !in code
    ensures Split("#" + c + "\n" + code + "\n", '\n') == ["#" + c, code, ""]
  {
    JoinThree("#" + c, code, "", "\n");
    assert "#" + c + "\n" + code + "\n" + "" == "#" + c + "\n" + code + "\n";
    SplitOfJoin(["#" + c, code, ""], '\n');
  }

  /** Cutting at `#` and then at `//` empties the comment line and leaves a code line without either marker. */
  lemma CommentThenCodeCuts(c: string, code: string)
    requires '#' !in code && '/' !in code
    ensures CutLines(CutLines(["#" + c, code, ""], "#"), "//") == ["", code, ""]
  {
    AbsentHead(code, "#");
    AbsentHead(code, "//");
    CutAtAbsent(code, "#");
    CutAtAbsent(code, "//");
    assert "#" <= "#" + c;
    var hashCut := CutLines(["#" + c, code, ""], "#");
    assert hashCut == ["", code, ""];
  }

  lemma CodeLineKept(code: string)
    requires code != [] && Trimmed(code)
    ensures StrippedNonBlank(["", code, ""]) == [code]
  {
    StrippedNonBlankFilters([""], [code, ""]);
    StrippedNonBlankFilters([code], [""]);
    ThreeAsAppends("", code, "");
    assert Strip("") == [] && Strip(code) == code;
    assert StrippedNonBlank([""]) == [] && StrippedNonBlank([code]) == [code];
  }

  lemma ThreeAsAppends<T>(a: T, b: T, c: T)
    ensures [a] + [b, c] == [a, b, c] && [b] + [c] == [b, c]
  {
  }

  /**
   * A `#` comment line followed by a line of code: the comment line goes
   * and the code line stays, verbatim, as the whole result.
   */
  lemma CleanCodeDropsCommentLine(c: string, code: string)
    requires '\n' !in c && '/' !in c
    requires code != [] && Trimmed(code) && '\n' !in code && '#' !in code && '/' !in code
    ensures CleanCode("#" + c + "\n" + code + "\n") == code
  {
    var s := "#" + c + "\n" + code + "\n";
    assert forall i :: 0 <= i < |s| && s[i] == '/' ==> false;
    AbsentHead(s, "/*");
    CommentThenCodeLines(c, code);
    CommentThenCodeCuts(c, code);
    CodeLineKept(code);
  }

  /** The comment-stripping example: `# comment`, then `print("Hello")`, gives `print("Hello")`. */
  lemma CleanCodeExample()
    ensures CleanCode("# comment\nprint(\"Hello\")\n") == "print(\"Hello\")"
  {
    ExampleShape();
    ExampleCodeLine();
    ExampleCommentText();
    CleanCodeDropsCommentLine(" comment", "print(\"Hello\")");
  }

  lemma ExampleShape()
    ensures "# comment\nprint(\"Hello\")\n" == "#" + " comment" + "\n" + "print(\"Hello\")" + "\n"
  {
  }

  lemma ExampleCodeLine()
    ensures var code := "print(\"Hello\")";
      Trimmed(code) && '\n' !in code && '#' !in code && '/' !in code
  {
  }

  lemma ExampleCommentText()
    ensures '\n' !in " comment" && '/' !in " comment"
  {
  }
}
