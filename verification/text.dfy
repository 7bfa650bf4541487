/**
  Whitespace normalisation of a block's text: the model of
  `' '.join(text.strip().split())`. `split()` without arguments already
  discards leading and trailing whitespace, so the `strip()` adds nothing and
  the whole expression is "the words of the text, joined by single spaces".
 */
module Text {

  /** The characters Python's `str.split()` treats as whitespace. */
  predicate IsSpace(c: char) {
    || '\t' <= c <= '\r'
    || '\U{1C}' <= c <= '\U{1F}'
    || c == ' '
    || c == '\U{85}'
    || c == '\U{A0}'
    || c == '\U{1680}'
    || '\U{2000}' <= c <= '\U{200A}'
    || c == '\U{2028}'
    || c == '\U{2029}'
    || c == '\U{202F}'
    || c == '\U{205F}'
    || c == '\U{3000}'
  }

  predicate NoSpace(w: string) {
    forall i :: 0 <= i < |w| ==> !IsSpace(w[i])
  }

  /** A word as `split()` produces it: a non-empty run of non-whitespace. */
  predicate IsWord(w: string) {
    |w| > 0 && NoSpace(w)
  }

  predicate AllWords(ws: seq<string>) {
    forall k :: 0 <= k < |ws| ==> IsWord(ws[k])
  }

  predicate AllSpace(s: string) {
    forall i :: 0 <= i < |s| ==> IsSpace(s[i])
  }

  /**
    The shape of a normalised text: every whitespace character in it is a
    plain space that sits strictly inside the text between two
    non-whitespace characters. So there is no leading or trailing
    whitespace, no run of two, and no line break.
   */
  ghost predicate Normalized(t: string) {
    && (|t| > 0 ==> !IsSpace(t[0]) && !IsSpace(t[|t| - 1]))
    && (forall i :: 0 <= i < |t| && IsSpace(t[i]) ==> t[i] == ' ')
    && (forall i :: 0 <= i < |t| - 1 ==> !IsSpace(t[i]) || !IsSpace(t[i + 1]))
  }

  /** Length of the longest whitespace-free prefix of `s`. */
  function WordLen(s: string): (n: nat)
    ensures n <= |s|
    ensures NoSpace(s[..n])
    ensures n < |s| ==> IsSpace(s[n])
  {
    if s == [] || IsSpace(s[0]) then 0 else 1 + WordLen(s[1..])
  }

  /** `s.split()`: the maximal whitespace-free runs of `s`, in order. */
  function Words(s: string): (ws: seq<string>)
    ensures AllWords(ws)
    decreases |s|
  {
    if s == [] then []
    else if IsSpace(s[0]) then Words(s[1..])
    else
      var n := WordLen(s);
      [s[..n]] + Words(s[n..])
  }

  /** `' '.join(ws)`. */
  function Join(ws: seq<string>): string {
    if |ws| == 0 then ""
    else if |ws| == 1 then ws[0]
    else ws[0] + " " + Join(ws[1..])
  }

  /** `' '.join(s.strip().split())`. */
  function Normalize(s: string): string {
    Join(Words(s))
  }

  /** Normalised text has the normalised shape. */
  lemma NormalizeIsNormalized(s: string)
    ensures Normalized(Normalize(s))
  {
    JoinNormalized(Words(s));
  }

  /** Python's `t.count('\n') == 0`. */
  predicate IsSingleLine(t: string) {
    '\n' !in t
  }

  /** Joining words with single spaces yields a normalised text, empty exactly when there are no words. */
  lemma {:induction false} JoinNormalized(ws: seq<string>)
    requires AllWords(ws)
    ensures Normalized(Join(ws))
    ensures |Join(ws)| == 0 <==> |ws| == 0
  {
    if |ws| >= 2 {
      var w := ws[0];
      var r := Join(ws[1..]);
      JoinNormalized(ws[1..]);
      var s := w + " " + r;
      assert Join(ws) == s;
      forall i | 0 <= i < |s| && IsSpace(s[i])
        ensures s[i] == ' ' && 0 < i < |s| - 1 && !IsSpace(s[i - 1]) && !IsSpace(s[i + 1])
      {
        if i == |w| {
          assert s[i - 1] == w[|w| - 1];
          assert s[i + 1] == r[0];
          assert !IsSpace(r[0]);
        } else if i > |w| {
          var j := i - |w| - 1;
          assert s[i] == r[j];
          assert s[i - 1] == r[j - 1];
          assert s[i + 1] == r[j + 1];
        }
      }
    }
  }

  /** The whitespace-free prefix of `w + x` is exactly `w` when `x` is empty or starts with whitespace. */
  lemma {:induction false} WordLenOfWord(w: string, x: string)
    requires NoSpace(w)
    requires x == [] || IsSpace(x[0])
    ensures WordLen(w + x) == |w|
  {
    if w != [] {
      assert (w + x)[0] == w[0];
      assert (w + x)[1..] == w[1..] + x;
      WordLenOfWord(w[1..], x);
    } else {
      assert w + x == x;
    }
  }

  /** Round trip: splitting words joined by single spaces gives the same words back. */
  lemma {:induction false} WordsOfJoin(ws: seq<string>)
    requires AllWords(ws)
    ensures Words(Join(ws)) == ws
  {
    if |ws| == 1 {
      var w := ws[0];
      WordLenOfWord(w, []);
      assert w + [] == w;
      assert w[..|w|] == w && w[|w|..] == [];
    } else if |ws| >= 2 {
      var w := ws[0];
      var r := Join(ws[1..]);
      var s := w + " " + r;
      assert Join(ws) == s;
      WordLenOfWord(w, " " + r);
      assert s == w + (" " + r);
      assert s[..|w|] == w;
      assert s[|w|..] == " " + r;
      assert (" " + r)[1..] == r;
      assert Words(" " + r) == Words(r);
      WordsOfJoin(ws[1..]);
      assert Words(s) == [w] + ws[1..];
    }
  }

  /** After the first word and its separating space, a normalised text is still normalised. */
  lemma NormalizedTail(t: string, n: nat)
    requires Normalized(t)
    requires n < |t| && IsSpace(t[n])
    ensures 0 < n < |t| - 1 && t[n] == ' ' && !IsSpace(t[n + 1])
    ensures Normalized(t[n + 1..])
  {
  }

  /** A word, one space and a rest: the words are the word followed by the rest's words. */
  lemma WordsOfFirstWord(t: string, n: nat)
    requires 0 < n < |t| && t[n] == ' ' && WordLen(t) == n
    ensures Words(t) == [t[..n]] + Words(t[n + 1..])
  {
    var w, x, r := t[..n], t[n..], t[n + 1..];
    assert t == w + x;
    assert x == " " + r;
    WordsAfterWord(w, x);
    WordsAfterSpace(" ", r);
    assert Words(x) == Words(r);
  }

  /** Joining puts one space between the first word and the join of the others. */
  lemma JoinCons(w: string, rest: seq<string>)
    requires rest != []
    ensures Join([w] + rest) == w + " " + Join(rest)
  {
    assert ([w] + rest)[1..] == rest;
  }

  /**
    One step of the next proof: a text made of a word, one space and a rest
    that is the join of its own words is the join of its own words.
   */
  lemma JoinOfWordsStep(t: string, n: nat)
    requires 0 < n < |t| - 1 && t[n] == ' '
    requires WordLen(t) == n && !IsSpace(t[n + 1])
    requires Join(Words(t[n + 1..])) == t[n + 1..]
    ensures Join(Words(t)) == t
  {
    var rest := Words(t[n + 1..]);
    WordsOfFirstWord(t, n);
    JoinCons(t[..n], rest);
    assert t == t[..n] + " " + t[n + 1..];
  }

  /** A text that is already normalised is the single-space join of its own words. */
  lemma {:induction false} JoinOfWords(t: string)
    requires Normalized(t)
    ensures Join(Words(t)) == t
    decreases |t|
  {
    if t != [] {
      var n := WordLen(t);
      if n == |t| {
        assert t[..n] == t && t[n..] == [];
        assert Words(t) == [t];
      } else {
        NormalizedTail(t, n);
        JoinOfWords(t[n + 1..]);
        JoinOfWordsStep(t, n);
      }
    }
  }

  /** Normalisation changes a text exactly when the text is not already normalised. */
  lemma NormalizeFixedPoint(s: string)
    ensures Normalize(s) == s <==> Normalized(s)
  {
    NormalizeIsNormalized(s);
    if Normalized(s) {
      JoinOfWords(s);
    }
  }

  /** Normalising twice is the same as normalising once. */
  lemma NormalizeIdempotent(s: string)
    ensures Normalize(Normalize(s)) == Normalize(s)
  {
    NormalizeIsNormalized(s);
    NormalizeFixedPoint(Normalize(s));
  }

  /** Normalisation keeps the words, and it is the only normalised text with those words. */
  lemma NormalizeKeepsWords(s: string, t: string)
    ensures Words(Normalize(s)) == Words(s)
    ensures Normalized(t) && Words(t) == Words(s) ==> t == Normalize(s)
  {
    WordsOfJoin(Words(s));
    NormalizeIsNormalized(s);
    if Normalized(t) {
      JoinOfWords(t);
    }
  }

  /** A text has no words exactly when it is all whitespace. */
  lemma {:induction false} WordsEmpty(s: string)
    ensures Words(s) == [] <==> AllSpace(s)
    decreases |s|
  {
    if s != [] {
      WordsEmpty(s[1..]);
      if IsSpace(s[0]) {
        if AllSpace(s[1..]) {
          forall i | 0 <= i < |s| ensures IsSpace(s[i]) {
            if i > 0 { assert s[i] == s[1..][i - 1]; }
          }
        }
      }
    }
  }

  /** `gaps[0] + ws[0] + gaps[1] + ... + ws[n - 1] + gaps[n]`: words with the text around them. */
  function Interleave(gaps: seq<string>, ws: seq<string>): string
    requires |gaps| == |ws| + 1
  {
    if ws == [] then gaps[0] else gaps[0] + ws[0] + Interleave(gaps[1..], ws[1..])
  }

  /**
    Separators around `n` words: all whitespace, possibly empty at the two
    ends, never empty between two words.
   */
  predicate Separators(gaps: seq<string>, n: nat) {
    && |gaps| == n + 1
    && (forall k :: 0 <= k < |gaps| ==> AllSpace(gaps[k]))
    && (forall k :: 0 < k < n ==> gaps[k] != [])
  }

  /** Leading whitespace contributes no words. */
  lemma {:induction false} WordsAfterSpace(g: string, x: string)
    requires AllSpace(g)
    ensures Words(g + x) == Words(x)
    decreases |g|
  {
    if g == [] {
      assert g + x == x;
    } else {
      assert (g + x)[0] == g[0];
      assert (g + x)[1..] == g[1..] + x;
      assert AllSpace(g[1..]) by {
        forall i | 0 <= i < |g[1..]| ensures IsSpace(g[1..][i]) {
          assert g[1..][i] == g[i + 1];
        }
      }
      WordsAfterSpace(g[1..], x);
    }
  }

  /** A word followed by the end of the text or by whitespace is split off as one word. */
  lemma WordsAfterWord(w: string, y: string)
    requires IsWord(w)
    requires y == [] || IsSpace(y[0])
    ensures Words(w + y) == [w] + Words(y)
  {
    var s := w + y;
    assert s[0] == w[0];
    WordLenOfWord(w, y);
    assert s[..|w|] == w && s[|w|..] == y;
  }

  /**
    `split()` finds exactly the words a text is built from: whatever
    whitespace surrounds words, with at least some whitespace between two of
    them, splitting gives back those words.
   */
  lemma {:induction false} SplitOfRuns(gaps: seq<string>, ws: seq<string>)
    requires AllWords(ws) && Separators(gaps, |ws|)
    ensures Words(Interleave(gaps, ws)) == ws
    decreases |ws|
  {
    if ws == [] {
      WordsEmpty(gaps[0]);
    } else {
      var rest := Interleave(gaps[1..], ws[1..]);
      assert Separators(gaps[1..], |ws| - 1) by {
        forall k | 0 < k < |ws| - 1 ensures gaps[1..][k] != [] {
          assert gaps[1..][k] == gaps[k + 1];
        }
      }
      SplitOfRuns(gaps[1..], ws[1..]);
      if |ws| > 1 {
        assert rest == gaps[1] + ws[1] + Interleave(gaps[2..], ws[2..]) by {
          assert gaps[1..][1..] == gaps[2..] && ws[1..][1..] == ws[2..];
        }
        assert gaps[1] != [];
        assert rest[0] == gaps[1][0];
      } else {
        assert rest == gaps[1];
      }
      WordsAfterWord(ws[0], rest);
      assert Interleave(gaps, ws) == gaps[0] + (ws[0] + rest);
      WordsAfterSpace(gaps[0], ws[0] + rest);
      assert [ws[0]] + ws[1..] == ws;
    }
  }

  /** A leading whitespace character joins the first separator. */
  lemma SpaceStep(s: string, g: seq<string>) returns (gaps: seq<string>)
    requires s != [] && IsSpace(s[0])
    requires Separators(g, |Words(s[1..])|) && Interleave(g, Words(s[1..])) == s[1..]
    ensures Separators(gaps, |Words(s)|) && Interleave(gaps, Words(s)) == s
  {
    var ws := Words(s[1..]);
    gaps := [[s[0]] + g[0]] + g[1..];
    assert Words(s) == ws;
    assert gaps[1..] == g[1..];
    if ws == [] {
      assert Interleave(gaps, ws) == [s[0]] + s[1..];
    } else {
      assert Interleave(g, ws) == g[0] + ws[0] + Interleave(g[1..], ws[1..]);
      assert Interleave(gaps, ws) == [s[0]] + (g[0] + ws[0] + Interleave(g[1..], ws[1..]));
    }
    assert [s[0]] + s[1..] == s;
  }

  /** Before a word, the rest of a text that starts with whitespace has a non-empty first separator. */
  lemma FirstSeparator(rest: string, g: seq<string>, ws: seq<string>)
    requires rest != [] && IsSpace(rest[0])
    requires AllWords(ws) && ws != []
    requires |g| == |ws| + 1 && Interleave(g, ws) == rest
    ensures g[0] != []
  {
    assert rest == g[0] + ws[0] + Interleave(g[1..], ws[1..]);
    assert !IsSpace(ws[0][0]);
  }

  /** Words around a leading separator and word. */
  lemma InterleaveCons(g0: string, w: string, g: seq<string>, ws: seq<string>)
    requires |g| == |ws| + 1
    ensures Interleave([g0] + g, [w] + ws) == g0 + w + Interleave(g, ws)
  {
    assert ([g0] + g)[1..] == g && ([w] + ws)[1..] == ws;
  }

  /** A leading word is the first word, with an empty separator before it. */
  lemma WordStep(s: string, g: seq<string>) returns (gaps: seq<string>)
    requires s != [] && !IsSpace(s[0])
    requires Separators(g, |Words(s[WordLen(s)..])|) && Interleave(g, Words(s[WordLen(s)..])) == s[WordLen(s)..]
    ensures Separators(gaps, |Words(s)|) && Interleave(gaps, Words(s)) == s
  {
    var n := WordLen(s);
    var w, ws := s[..n], Words(s[n..]);
    assert Words(s) == [w] + ws;
    gaps := [[]] + g;
    if ws != [] {
      FirstSeparator(s[n..], g, ws);
    }
    assert Separators(gaps, |ws| + 1) by {
      forall k | 0 < k < |ws| + 1 ensures gaps[k] != [] {
        assert gaps[k] == g[k - 1];
      }
    }
    InterleaveCons([], w, g, ws);
    assert [] + w + s[n..] == s;
  }

  /**
    Conversely, every text is its words with whitespace around them: the
    words of `split()` are the maximal non-whitespace runs of the text, in
    order, and the returned separators are what lies between them.
   */
  lemma {:induction false} WordsAreRuns(s: string) returns (gaps: seq<string>)
    ensures Separators(gaps, |Words(s)|)
    ensures Interleave(gaps, Words(s)) == s
    decreases |s|
  {
    if s == [] {
      gaps := [[]];
    } else if IsSpace(s[0]) {
      var g := WordsAreRuns(s[1..]);
      gaps := SpaceStep(s, g);
    } else {
      var g := WordsAreRuns(s[WordLen(s)..]);
      gaps := WordStep(s, g);
    }
  }

  /** The emptiness test after normalisation drops exactly the all-whitespace texts. */
  lemma NormalizeEmpty(s: string)
    ensures Normalize(s) == "" <==> AllSpace(s)
  {
    WordsEmpty(s);
    JoinNormalized(Words(s));
  }

  /** The single-line test, applied to normalised text, can never fail. */
  lemma NormalizedIsSingleLine(s: string)
    ensures IsSingleLine(Normalize(s))
  {
    NormalizeIsNormalized(s);
  }
}
