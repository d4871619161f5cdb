/**
 * The BM25 tokenizer, written inline twice in the source (once over every
 * chunk when the index is built, once over the query):
 *   re.sub(r'[^\w\s]', '', text.lower()).split()
 * i.e. lower-case, delete every character that is neither a word character
 * nor whitespace, and split on runs of whitespace.
 */
module Tokenizer {
  import opened PyText

  /** The word characters `\w` matches, restricted to ASCII: letters, digits and the underscore. */
  predicate IsWordChar(c: char) {
    ('a' <= c <= 'z') || ('A' <= c <= 'Z') || ('0' <= c <= '9') || c == '_'
  }

  /** `re.sub(r'[^\w\s]', '', s)`: keep word characters and whitespace, in order. */
  function KeepWordAndSpace(s: string): (r: string)
    ensures |r| <= |s|
    ensures forall i :: 0 <= i < |r| ==> IsWordChar(r[i]) || IsSpace(r[i])
    decreases |s|
  {
    if |s| == 0 then ""
    else (if IsWordChar(s[0]) || IsSpace(s[0]) then [s[0]] else "") + KeepWordAndSpace(s[1..])
  }

  /**
   * `re.sub` judges every character on its own: the filter splits over
   * concatenation, and a single character is kept exactly when it is a word
   * or whitespace character.
   */
  lemma {:induction false} KeepWordAndSpaceFilters(a: string, b: string)
    ensures KeepWordAndSpace(a + b) == KeepWordAndSpace(a) + KeepWordAndSpace(b)
    ensures forall c :: KeepWordAndSpace([c]) == if IsWordChar(c) || IsSpace(c) then [c] else []
    decreases |a|
  {
    forall c
      ensures KeepWordAndSpace([c]) == if IsWordChar(c) || IsSpace(c) then [c] else []
    {
      assert [c][1..] == [];
    }
    if |a| > 0 {
      assert (a + b)[1..] == a[1..] + b;
      KeepWordAndSpaceFilters(a[1..], b);
    } else {
      assert a + b == b;
    }
  }

  /** The non-whitespace characters of `s`, in order. */
  function RemoveSpace(s: string): string
    decreases |s|
  {
    if |s| == 0 then "" else (if IsSpace(s[0]) then "" else [s[0]]) + RemoveSpace(s[1..])
  }

  /** The word characters of `s`, in order. */
  function WordChars(s: string): string
    decreases |s|
  {
    if |s| == 0 then "" else (if IsWordChar(s[0]) then [s[0]] else "") + WordChars(s[1..])
  }

  /** Length of the leading run of non-whitespace characters of `s`. */
  function WordEnd(s: string): (n: nat)
    ensures n <= |s|
    ensures forall i :: 0 <= i < n ==> !IsSpace(s[i])
    ensures n < |s| ==> IsSpace(s[n])
    decreases |s|
  {
    if |s| == 0 || IsSpace(s[0]) then 0 else 1 + WordEnd(s[1..])
  }

  /** A token of `str.split()`: non-empty and free of whitespace. */
  predicate IsWord(w: string) {
    w != [] && forall i :: 0 <= i < |w| ==> !IsSpace(w[i])
  }

  lemma {:induction false} RemoveSpaceAppend(a: string, b: string)
    ensures RemoveSpace(a + b) == RemoveSpace(a) + RemoveSpace(b)
    decreases |a|
  {
    if |a| > 0 {
      assert (a + b)[1..] == a[1..] + b;
      RemoveSpaceAppend(a[1..], b);
    } else {
      assert a + b == b;
    }
  }

  lemma {:induction false} RemoveSpaceOfSpaces(s: string)
    requires forall i :: 0 <= i < |s| ==> IsSpace(s[i])
    ensures RemoveSpace(s) == ""
    decreases |s|
  {
    if |s| > 0 {
      RemoveSpaceOfSpaces(s[1..]);
    }
  }

  lemma {:induction false} RemoveSpaceOfWord(s: string)
    requires forall i :: 0 <= i < |s| ==> !IsSpace(s[i])
    ensures RemoveSpace(s) == s
    decreases |s|
  {
    if |s| > 0 {
      RemoveSpaceOfWord(s[1..]);
    }
  }

  /**
   * Python's `s.split()` with no separator: the maximal runs of
   * non-whitespace, with no empty strings; together they hold exactly the
   * non-whitespace characters of `s`, in order.
   */
  function SplitWhitespace(s: string): (words: seq<string>)
    ensures forall i :: 0 <= i < |words| ==> IsWord(words[i])
    ensures Concat(words) == RemoveSpace(s)
    decreases |s|
  {
    if |s| == 0 then []
    else if IsSpace(s[0]) then SplitWhitespace(s[1..])
    else
      var n := WordEnd(s);
      var rest := SplitWhitespace(s[n..]);
      WordThenRest(s, n, rest);
      [s[..n]] + rest
  }

  lemma WordThenRest(s: string, n: nat, rest: seq<string>)
    requires |s| > 0 && !IsSpace(s[0]) && n == WordEnd(s)
    requires forall i :: 0 <= i < |rest| ==> IsWord(rest[i])
    requires Concat(rest) == RemoveSpace(s[n..])
    ensures forall i :: 0 <= i < |[s[..n]] + rest| ==> IsWord(([s[..n]] + rest)[i])
    ensures Concat([s[..n]] + rest) == RemoveSpace(s)
  {
    RemoveSpaceOfWordStart(s);
    assert ([s[..n]] + rest)[1..] == rest;
  }

  /** `WordEnd` of a concatenation: the first whitespace of `u`, or past all of `u` into `x`. */
  lemma {:induction false} WordEndAppend(u: string, x: string)
    ensures WordEnd(u + x) == if WordEnd(u) < |u| then WordEnd(u) else |u| + WordEnd(x)
    decreases |u|
  {
    if |u| > 0 {
      assert (u + x)[1..] == u[1..] + x;
      WordEndAppend(u[1..], x);
    } else {
      assert u + x == x;
    }
  }

  /** `split()` skips leading whitespace. */
  lemma {:induction false} SplitWhitespaceSkipsSpace(sp: string, t: string)
    requires forall i :: 0 <= i < |sp| ==> IsSpace(sp[i])
    ensures SplitWhitespace(sp + t) == SplitWhitespace(t)
    decreases |sp|
  {
    if |sp| > 0 {
      assert (sp + t)[1..] == sp[1..] + t;
      SplitWhitespaceSkipsSpace(sp[1..], t);
    } else {
      assert sp + t == t;
    }
  }

  /** A leading word that ends at whitespace or at the end of the text is the first piece of `split()`. */
  lemma SplitWhitespaceTakesWord(w: string, t: string)
    requires IsWord(w) && (t == [] || IsSpace(t[0]))
    ensures SplitWhitespace(w + t) == [w] + SplitWhitespace(t)
  {
    WordEndOfWord(w, t);
    var s := w + t;
    assert s[..|w|] == w && s[|w|..] == t;
  }

  /** Every whitespace character separates: `split()` of `u + c + v` is `split()` of `u` followed by `split()` of `v`. */
  lemma {:induction false} SplitWhitespaceAtSpace(u: string, c: char, v: string)
    requires IsSpace(c)
    ensures SplitWhitespace(u + [c] + v) == SplitWhitespace(u) + SplitWhitespace(v)
    decreases |u|
  {
    var x := [c] + v;
    Associates(u, [c], v);
    if |u| == 0 {
      assert u + x == x;
      SplitWhitespaceSkipsSpace([c], v);
    } else if IsSpace(u[0]) {
      SplitWhitespaceStep(u + x);
      SplitWhitespaceStep(u);
      SlicesOfAppend(u, x, 1);
      Associates(u[1..], [c], v);
      SplitWhitespaceAtSpace(u[1..], c, v);
    } else {
      var n := WordEnd(u);
      WordEndAppend(u, x);
      SplitWhitespaceStep(u + x);
      SplitWhitespaceStep(u);
      SlicesOfAppend(u, x, n);
      Associates(u[n..], [c], v);
      SplitWhitespaceAtSpace(u[n..], c, v);
      Associates([u[..n]], SplitWhitespace(u[n..]), SplitWhitespace(v));
    }
  }

  /** `split()` takes one step: skip a whitespace character, or take the word in front. */
  lemma SplitWhitespaceStep(s: string)
    requires |s| > 0
    ensures IsSpace(s[0]) ==> SplitWhitespace(s) == SplitWhitespace(s[1..])
    ensures !IsSpace(s[0]) ==> SplitWhitespace(s) == [s[..WordEnd(s)]] + SplitWhitespace(s[WordEnd(s)..])
  {
  }

  lemma Associates<T>(a: seq<T>, b: seq<T>, c: seq<T>)
    ensures a + b + c == a + (b + c)
  {
  }

  lemma SlicesOfAppend<T>(u: seq<T>, x: seq<T>, n: int)
    requires 0 <= n <= |u|
    ensures (u + x)[..n] == u[..n] && (u + x)[n..] == u[n..] + x
  {
  }

  lemma RemoveSpaceOfWordStart(t: string)
    ensures RemoveSpace(t) == t[..WordEnd(t)] + RemoveSpace(t[WordEnd(t)..])
  {
    var n := WordEnd(t);
    assert t == t[..n] + t[n..];
    RemoveSpaceAppend(t[..n], t[n..]);
    RemoveSpaceOfWord(t[..n]);
  }

  lemma {:induction false} WordCharsAfterKeep(s: string)
    ensures RemoveSpace(KeepWordAndSpace(s)) == WordChars(s)
    decreases |s|
  {
    if |s| > 0 {
      WordCharsAfterKeep(s[1..]);
      var head := if IsWordChar(s[0]) || IsSpace(s[0]) then [s[0]] else "";
      RemoveSpaceAppend(head, KeepWordAndSpace(s[1..]));
    }
  }

  /** A BM25 token: non-empty, lower-case word characters only. */
  predicate IsToken(w: string) {
    w != [] && forall i :: 0 <= i < |w| ==> IsWordChar(w[i]) && !IsAsciiUpper(w[i])
  }

  /**
   * The BM25 tokenizer: every token is a non-empty run of lower-case word
   * characters, and the tokens together are exactly the word characters of
   * the lower-cased text, in order (punctuation is deleted, not a separator).
   */
  function Tokenize(text: string): (tokens: seq<string>)
    ensures forall i :: 0 <= i < |tokens| ==> IsToken(tokens[i])
    ensures Concat(tokens) == WordChars(Lower(text))
  {
    var lowered := Lower(text);
    var kept := KeepWordAndSpace(lowered);
    var tokens := SplitWhitespace(kept);
    WordCharsAfterKeep(lowered);
    assert forall i :: 0 <= i < |tokens| ==> IsToken(tokens[i]) by {
      forall i | 0 <= i < |tokens|
        ensures IsToken(tokens[i])
      {
        TokenCharsFromText(tokens, i, lowered);
      }
    }
    tokens
  }

  lemma TokenCharsFromText(tokens: seq<string>, i: int, lowered: string)
    requires 0 <= i < |tokens|
    requires tokens == SplitWhitespace(KeepWordAndSpace(lowered))
    requires forall j :: 0 <= j < |lowered| ==> !IsAsciiUpper(lowered[j])
    ensures IsToken(tokens[i])
  {
    var kept := KeepWordAndSpace(lowered);
    forall k | 0 <= k < |tokens[i]|
      ensures IsWordChar(tokens[i][k]) && !IsAsciiUpper(tokens[i][k])
    {
      var c := tokens[i][k];
      WordCharsInConcat(tokens, i, k);
      RemoveSpaceChars(kept, c);
      KeepChars(lowered, c);
    }
  }

  lemma {:induction false} WordCharsInConcat(words: seq<string>, i: int, k: int)
    requires 0 <= i < |words| && 0 <= k < |words[i]|
    ensures words[i][k] in Concat(words)
    decreases |words|
  {
    if i > 0 {
      WordCharsInConcat(words[1..], i - 1, k);
    }
  }

  lemma {:induction false} RemoveSpaceChars(s: string, c: char)
    requires c in RemoveSpace(s)
    ensures c in s
    decreases |s|
  {
    if |s| > 0 && !(!IsSpace(s[0]) && c == s[0]) {
      RemoveSpaceChars(s[1..], c);
    }
  }

  lemma {:induction false} KeepChars(s: string, c: char)
    requires c in KeepWordAndSpace(s)
    ensures c in s
    decreases |s|
  {
    if |s| > 0 && c != s[0] {
      KeepChars(s[1..], c);
    }
  }

  // ---------------------------------------------------------------------------
  // Round trip

  lemma {:induction false} SplitWhitespaceOfJoin(words: seq<string>)
    requires forall i :: 0 <= i < |words| ==> IsWord(words[i])
    ensures SplitWhitespace(Join(words, " ")) == words
    decreases |words|
  {
    if |words| > 0 {
      var w := words[0];
      var tail := if |words| == 1 then "" else " " + Join(words[1..], " ");
      var s := w + tail;
      assert Join(words, " ") == s;
      WordEndOfWord(w, tail);
      assert s[..|w|] == w;
      assert s[|w|..] == tail;
      SplitWhitespaceOfJoin(words[1..]);
      if |words| > 1 {
        assert tail[1..] == Join(words[1..], " ");
      }
      assert [w] + words[1..] == words;
    }
  }

  lemma {:induction false} WordEndOfWord(w: string, tail: string)
    requires forall i :: 0 <= i < |w| ==> !IsSpace(w[i])
    requires tail == [] || IsSpace(tail[0])
    ensures WordEnd(w + tail) == |w|
    decreases |w|
  {
    if |w| > 0 {
      assert (w + tail)[1..] == w[1..] + tail;
      WordEndOfWord(w[1..], tail);
    } else {
      assert w + tail == tail;
    }
  }

  lemma {:induction false} LowerOfLower(s: string)
    requires forall i :: 0 <= i < |s| ==> !IsAsciiUpper(s[i])
    ensures Lower(s) == s
  {
  }

  lemma {:induction false} KeepOfClean(s: string)
    requires forall i :: 0 <= i < |s| ==> IsWordChar(s[i]) || IsSpace(s[i])
    ensures KeepWordAndSpace(s) == s
    decreases |s|
  {
    if |s| > 0 {
      KeepOfClean(s[1..]);
    }
  }

  /**
   * Joining tokens with single spaces and tokenizing again gives the same
   * tokens back, so re-tokenizing a tokenized text is the identity.
   */
  lemma TokenizeOfJoin(tokens: seq<string>)
    requires forall i :: 0 <= i < |tokens| ==> IsToken(tokens[i])
    ensures Tokenize(Join(tokens, " ")) == tokens
  {
    var s := Join(tokens, " ");
    JoinIsClean(tokens);
    LowerOfLower(s);
    KeepOfClean(s);
    assert KeepWordAndSpace(Lower(s)) == s;
    SplitWhitespaceOfJoin(tokens);
  }

  /** Tokens joined with spaces hold only lower-case word characters and spaces. */
  lemma JoinIsClean(tokens: seq<string>)
    requires forall i :: 0 <= i < |tokens| ==> IsToken(tokens[i])
    ensures forall k :: 0 <= k < |Join(tokens, " ")| ==> IsWordChar(Join(tokens, " ")[k]) || IsSpace(Join(tokens, " ")[k])
    ensures forall k :: 0 <= k < |Join(tokens, " ")| ==> !IsAsciiUpper(Join(tokens, " ")[k])
  {
    var s := Join(tokens, " ");
    forall k | 0 <= k < |s|
      ensures (IsWordChar(s[k]) && !IsAsciiUpper(s[k])) || s[k] == ' '
    {
      JoinChars(tokens, s[k]);
    }
  }

  lemma {:induction false} JoinChars(tokens: seq<string>, ch: char)
    requires forall i :: 0 <= i < |tokens| ==> IsToken(tokens[i])
    requires ch in Join(tokens, " ")
    ensures (IsWordChar(ch) && !IsAsciiUpper(ch)) || ch == ' '
    decreases |tokens|
  {
    if |tokens| >= 2 {
      assert Join(tokens, " ") == tokens[0] + " " + Join(tokens[1..], " ");
      if ch !in tokens[0] && ch != ' ' {
        JoinChars(tokens[1..], ch);
      }
    }
  }

  // ---------------------------------------------------------------------------
  // Where the text splits

  lemma LowerAppend(a: string, b: string)
    ensures Lower(a + b) == Lower(a) + Lower(b)
  {
    assert forall i :: 0 <= i < |a + b| ==> Lower(a + b)[i] == (Lower(a) + Lower(b))[i];
  }

  /** A whitespace character always ends a token: the tokens of `a + c + b` are those of `a` followed by those of `b`. */
  lemma TokenizeSplitsAtSpace(a: string, c: char, b: string)
    requires IsSpace(c)
    ensures Tokenize(a + [c] + b) == Tokenize(a) + Tokenize(b)
  {
    LowerAppend(a + [c], b);
    LowerAppend(a, [c]);
    assert Lower([c]) == [c];
    var la, lb := Lower(a), Lower(b);
    KeepWordAndSpaceFilters(la + [c], lb);
    KeepWordAndSpaceFilters(la, [c]);
    SplitWhitespaceAtSpace(KeepWordAndSpace(la), c, KeepWordAndSpace(lb));
  }

  /** Punctuation is deleted, not a separator: the tokens of `a + c + b` are those of `a + b`. */
  lemma TokenizeDropsPunctuation(a: string, c: char, b: string)
    requires !IsWordChar(c) && !IsSpace(c)
    ensures Tokenize(a + [c] + b) == Tokenize(a + b)
  {
    LowerAppend(a + [c], b);
    LowerAppend(a, [c]);
    LowerAppend(a, b);
    assert Lower([c]) == [c];
    var la, lb := Lower(a), Lower(b);
    KeepWordAndSpaceFilters(la + [c], lb);
    KeepWordAndSpaceFilters(la, [c]);
    KeepWordAndSpaceFilters(la, lb);
    assert KeepWordAndSpace([c]) == [];
    assert KeepWordAndSpace(la) + [] == KeepWordAndSpace(la);
    assert Lower(a + [c] + b) == la + [c] + lb;
    assert KeepWordAndSpace(Lower(a + [c] + b)) == KeepWordAndSpace(Lower(a + b));
  }

  /** A run of word characters is one token, lower-cased. */
  lemma TokenizeOfWord(w: string)
    requires w != [] && forall i :: 0 <= i < |w| ==> IsWordChar(w[i])
    ensures Tokenize(w) == [Lower(w)]
  {
    var lw := Lower(w);
    KeepOfClean(lw);
    assert lw + "" == lw;
    SplitWhitespaceTakesWord(lw, "");
  }
}
