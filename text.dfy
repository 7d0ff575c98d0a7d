/**
 * Text primitives behind every name comparison of the catalogue: Python's notion
 * of whitespace, `str.split()` with no separator, `" ".join(...)`, `str.strip()`,
 * and the per-character case mappings behind `str.lower()` and `str.casefold()`.
 */
module Text {

  /** `str.isspace()` on one character: exactly the characters that `split()` and `strip()` treat as whitespace. */
  predicate IsSpace(c: char) {
    || c == ' '
    || '\t' <= c <= '\r'
    || '\U{1c}' <= c <= '\U{1f}'
    || c == '\U{85}' || c == '\U{a0}' || c == '\U{1680}'
    || '\U{2000}' <= c <= '\U{200a}'
    || c == '\U{2028}' || c == '\U{2029}' || c == '\U{202f}' || c == '\U{205f}' || c == '\U{3000}'
  }

  predicate NoSpace(s: string) {
    forall i :: 0 <= i < |s| ==> !IsSpace(s[i])
  }

  /** `str.lower()` on one character, for the upper-case letters of Basic Latin and Latin-1. */
  function LowerChar(c: char): char {
    if 'A' <= c <= 'Z' || ('\U{c0}' <= c <= '\U{de}' && c != '\U{d7}') then (c as int + 32) as char else c
  }

  /** `str.casefold()` on one character: lower-casing, and MICRO SIGN folded to GREEK SMALL LETTER MU. */
  function FoldChar(c: char): char {
    if c == '\U{b5}' then '\U{3bc}' else LowerChar(c)
  }

  /**
   * The text is Latin-1 without SHARP S: on such text `FoldChar` agrees with
   * `str.casefold()`, which turns 'ß' into the two characters "ss".
   */
  predicate FoldsOneToOne(s: string) {
    forall i :: 0 <= i < |s| ==> s[i] <= '\U{ff}' && s[i] != '\U{df}'
  }

  /** `str.lower()`. */
  function Lower(s: string): string {
    seq(|s|, i requires 0 <= i < |s| => LowerChar(s[i]))
  }

  /** `str.casefold()`. */
  function CaseFold(s: string): string {
    seq(|s|, i requires 0 <= i < |s| => FoldChar(s[i]))
  }

  /** `str.lstrip()`: `s` without its leading whitespace. */
  function LStrip(s: string): (r: string)
    ensures |r| <= |s|
    ensures r == [] || !IsSpace(r[0])
  {
    if s != [] && IsSpace(s[0]) then LStrip(s[1..]) else s
  }

  /** `str.rstrip()`: `s` without its trailing whitespace. */
  function RStrip(s: string): (r: string)
    ensures |r| <= |s| && r == s[..|r|]
    ensures r == [] || !IsSpace(r[|r| - 1])
    ensures forall i :: |r| <= i < |s| ==> IsSpace(s[i])
  {
    if s != [] && IsSpace(s[|s| - 1]) then RStrip(s[..|s| - 1]) else s
  }

  /** `str.strip()`. */
  function Strip(s: string): string {
    RStrip(LStrip(s))
  }

  /** The longest prefix of `s` that holds no whitespace. */
  function Word(s: string): (w: string)
    ensures |w| <= |s| && NoSpace(w)
    ensures s != [] && !IsSpace(s[0]) ==> w != []
  {
    if s == [] || IsSpace(s[0]) then [] else [s[0]] + Word(s[1..])
  }

  /** Words as `split()` produces them: non-empty and free of whitespace. */
  predicate AreWords(words: seq<string>) {
    forall k :: 0 <= k < |words| ==> words[k] != [] && NoSpace(words[k])
  }

  /** `str.split()` with no separator: the maximal whitespace-free runs of `s`, in order. */
  function Split(s: string): (words: seq<string>)
    ensures AreWords(words)
    decreases |s|
  {
    var t := LStrip(s);
    if t == [] then [] else
    var w := Word(t);
    [w] + Split(t[|w|..])
  }

  /** `" ".join(words)`. */
  function Join(words: seq<string>): string {
    if words == [] then []
    else if |words| == 1 then words[0]
    else words[0] + " " + Join(words[1..])
  }

  /** `LStrip` removes a run of whitespace from the front and nothing else. */
  lemma {:induction false} LStripFacts(s: string)
    ensures LStrip(s) == s[|s| - |LStrip(s)|..]
    ensures forall i :: 0 <= i < |s| - |LStrip(s)| ==> IsSpace(s[i])
  {
    if s != [] && IsSpace(s[0]) {
      LStripFacts(s[1..]);
    }
  }

  /** A word is a whitespace-free prefix that stops at whitespace or at the end. */
  lemma {:induction false} WordFacts(s: string)
    ensures Word(s) == s[..|Word(s)|] && NoSpace(Word(s))
    ensures |Word(s)| < |s| ==> IsSpace(s[|Word(s)|])
  {
    if s != [] && !IsSpace(s[0]) {
      WordFacts(s[1..]);
    }
  }

  /** The shape of a normalised name: no whitespace at either end, and only single plain spaces inside. */
  predicate IsNormalized(s: string) {
    && (s != [] ==> !IsSpace(s[0]) && !IsSpace(s[|s| - 1]))
    && (forall i :: 0 <= i < |s| && IsSpace(s[i]) ==> s[i] == ' ')
    && (forall i :: 0 <= i < |s| - 1 && IsSpace(s[i]) ==> !IsSpace(s[i + 1]))
  }

  // ---------------------------------------------------------------------------
  // Case mappings

  lemma LowerCharFacts(c: char)
    ensures LowerChar(LowerChar(c)) == LowerChar(c)
    ensures IsSpace(LowerChar(c)) == IsSpace(c)
    ensures IsSpace(c) ==> LowerChar(c) == c
  {
  }

  lemma FoldCharFacts(c: char)
    ensures FoldChar(FoldChar(c)) == FoldChar(c)
    ensures FoldChar(LowerChar(c)) == FoldChar(c)
    ensures IsSpace(FoldChar(c)) == IsSpace(c)
    ensures IsSpace(c) ==> FoldChar(c) == c
  {
  }

  /** Lower-casing twice is lower-casing once. */
  lemma LowerIdempotent(s: string)
    ensures Lower(Lower(s)) == Lower(s)
  {
    forall i | 0 <= i < |s| ensures Lower(Lower(s))[i] == Lower(s)[i] {
      LowerCharFacts(s[i]);
    }
  }

  /** Case folding twice is case folding once, and lower-casing first changes nothing. */
  lemma CaseFoldIdempotent(s: string)
    ensures CaseFold(CaseFold(s)) == CaseFold(s)
    ensures CaseFold(Lower(s)) == CaseFold(s)
  {
    forall i | 0 <= i < |s| ensures CaseFold(CaseFold(s))[i] == CaseFold(s)[i] {
      FoldCharFacts(s[i]);
    }
    forall i | 0 <= i < |s| ensures CaseFold(Lower(s))[i] == CaseFold(s)[i] {
      FoldCharFacts(s[i]);
    }
  }

  /** Lower-casing keeps a normalised name normalised: it never creates or removes whitespace. */
  lemma LowerKeepsNormalized(s: string)
    requires IsNormalized(s)
    ensures IsNormalized(Lower(s))
  {
    forall i | 0 <= i < |s| ensures IsSpace(Lower(s)[i]) == IsSpace(s[i]) && (IsSpace(s[i]) ==> Lower(s)[i] == s[i]) {
      LowerCharFacts(s[i]);
    }
  }

  /** Case folding keeps a normalised name normalised. */
  lemma CaseFoldKeepsNormalized(s: string)
    requires IsNormalized(s)
    ensures IsNormalized(CaseFold(s))
  {
    forall i | 0 <= i < |s| ensures IsSpace(CaseFold(s)[i]) == IsSpace(s[i]) && (IsSpace(s[i]) ==> CaseFold(s)[i] == s[i]) {
      FoldCharFacts(s[i]);
    }
  }

  // ---------------------------------------------------------------------------
  // Splitting and joining

  lemma SliceAppend<T>(t: seq<T>, k: nat, x: seq<T>)
    requires k <= |t|
    ensures (t + x)[k..] == t[k..] + x
  {
  }

  lemma SliceAround<T>(s: seq<T>, k: nat)
    requires k < |s|
    ensures s == s[..k] + [s[k]] + s[k + 1..]
    ensures s[k..] == [s[k]] + s[k + 1..]
  {
  }

  /** A word ends at the first whitespace, whatever follows. */
  lemma {:induction false} WordAppend(t: string, x: string)
    requires x == [] || IsSpace(x[0])
    ensures Word(t + x) == Word(t)
  {
    if t != [] && !IsSpace(t[0]) {
      assert (t + x)[1..] == t[1..] + x;
      WordAppend(t[1..], x);
    } else if t == [] {
      assert t + x == x;
    }
  }

  lemma WordOfWord(w: string)
    requires NoSpace(w)
    ensures Word(w) == w
  {
  }

  /** Leading whitespace does not change the words. */
  lemma SplitSpaceCons(c: char, s: string)
    requires IsSpace(c)
    ensures Split([c] + s) == Split(s)
  {
    assert ([c] + s)[1..] == s;
    assert LStrip([c] + s) == LStrip(s);
  }

  lemma {:induction false} LStripAppendSpace(s: string, c: char)
    requires IsSpace(c)
    ensures LStrip(s + [c]) == if LStrip(s) == [] then [] else LStrip(s) + [c]
  {
    if s == [] {
    } else if IsSpace(s[0]) {
      assert (s + [c])[1..] == s[1..] + [c];
      LStripAppendSpace(s[1..], c);
    }
  }

  /** Trailing whitespace does not change the words. */
  lemma {:induction false} SplitAppendSpace(s: string, c: char)
    requires IsSpace(c)
    ensures Split(s + [c]) == Split(s)
    decreases |s|
  {
    LStripAppendSpace(s, c);
    var t := LStrip(s);
    if t != [] {
      var w := Word(t);
      WordAppend(t, [c]);
      var t' := t + [c];
      assert LStrip(s + [c]) == t';
      assert Word(t') == w;
      SliceAppend(t, |w|, [c]);
      SplitAppendSpace(t[|w|..], c);
      calc {
        Split(s + [c]);
        [w] + Split(t'[|w|..]);
        [w] + Split(t[|w|..]);
        Split(s);
      }
    }
  }

  lemma {:induction false} SplitRStrip(s: string)
    ensures Split(RStrip(s)) == Split(s)
  {
    if s != [] && IsSpace(s[|s| - 1]) {
      var init, last := s[..|s| - 1], s[|s| - 1];
      assert RStrip(s) == RStrip(init);
      SplitRStrip(init);
      SliceAround(s, |s| - 1);
      assert s[|s| - 1 + 1..] == [];
      assert s == init + [last];
      SplitAppendSpace(init, last);
    }
  }

  /** Stripping before splitting changes nothing: `s.strip().split() == s.split()`. */
  lemma SplitStrip(s: string)
    ensures Split(Strip(s)) == Split(s)
  {
    SplitRStrip(LStrip(s));
    assert LStrip(LStrip(s)) == LStrip(s);
  }

  /** A string splits into no words exactly when it is all whitespace. */
  lemma SplitEmpty(s: string)
    ensures Split(s) == [] <==> forall i :: 0 <= i < |s| ==> IsSpace(s[i])
  {
    var t := LStrip(s);
    LStripFacts(s);
    if t != [] {
      assert !IsSpace(s[|s| - |t|]);
    }
  }

  /** Joining words gives a normalised string, empty exactly when there are no words. */
  lemma {:induction false} JoinNormalized(words: seq<string>)
    requires AreWords(words)
    ensures IsNormalized(Join(words))
    ensures Join(words) == [] <==> words == []
  {
    if |words| > 1 {
      var w, rest := words[0], words[1..];
      JoinNormalized(rest);
      var j := Join(rest);
      var s := w + " " + j;
      assert s == Join(words);
      forall i | 0 <= i < |s| && IsSpace(s[i]) ensures s[i] == ' ' {
        if i > |w| { assert s[i] == j[i - |w| - 1]; }
      }
      forall i | 0 <= i < |s| - 1 && IsSpace(s[i]) ensures !IsSpace(s[i + 1]) {
        if i > |w| { assert s[i] == j[i - |w| - 1]; assert s[i + 1] == j[i - |w|]; }
      }
    }
  }

  /** Splitting undoes joining. */
  lemma {:induction false} SplitJoin(words: seq<string>)
    requires AreWords(words)
    ensures Split(Join(words)) == words
  {
    if |words| == 1 {
      var w := words[0];
      WordOfWord(w);
      assert w[|w|..] == [];
    } else if |words| > 1 {
      var w, rest := words[0], words[1..];
      var j := Join(rest);
      var s := w + " " + j;
      assert s == Join(words);
      assert LStrip(s) == s;
      assert s == w + (" " + j);
      WordAppend(w, " " + j);
      WordOfWord(w);
      assert s[|w|..] == [' '] + j;
      SplitSpaceCons(' ', j);
      SplitJoin(rest);
    }
  }

  /** A normalised string stays normalised after dropping a prefix that ends just before a word. */
  lemma NormalizedSuffix(s: string, k: nat)
    requires IsNormalized(s) && k < |s| && !IsSpace(s[k])
    ensures IsNormalized(s[k..])
  {
    var r := s[k..];
    forall i | 0 <= i < |r| ensures r[i] == s[k + i] { }
  }

  /** Splitting a normalised string that holds a space: the first word, then the words after that space. */
  lemma SplitNormalizedStep(s: string)
    requires IsNormalized(s) && s != [] && |Word(s)| < |s|
    ensures |Word(s)| + 1 < |s| && s[|Word(s)|] == ' '
    ensures s == Word(s) + " " + s[|Word(s)| + 1..]
    ensures Split(s) == [Word(s)] + Split(s[|Word(s)| + 1..])
  {
    var w := Word(s);
    WordFacts(s);
    assert LStrip(s) == s;
    SliceAround(s, |w|);
    SplitSpaceCons(' ', s[|w| + 1..]);
  }

  /** Joining undoes splitting on a string that is already normalised. */
  lemma {:induction false} JoinSplit(s: string)
    requires IsNormalized(s)
    ensures Join(Split(s)) == s
    decreases |s|
  {
    if s != [] {
      var w := Word(s);
      WordFacts(s);
      if |w| == |s| {
        assert LStrip(s) == s;
        assert w == s;
        assert s[|w|..] == [];
      } else {
        SplitNormalizedStep(s);
        var rest := s[|w| + 1..];
        NormalizedSuffix(s, |w| + 1);
        JoinSplit(rest);
        SplitEmpty(rest);
      }
    }
  }

  /** Stripping a normalised string changes nothing. */
  lemma StripNormalized(s: string)
    requires IsNormalized(s)
    ensures Strip(s) == s
  {
  }
}
