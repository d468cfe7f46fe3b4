/**
 * `PDFEmbeddingGenerator.preprocess_text`: replace every character that is
 * not a word character, whitespace or '.' by a space, collapse whitespace
 * runs to one space, then strip the ends.
 */
module Preprocess {
  import opened Text
  import opened Seqs

  /** The characters `[^\w\s.]` does not match, i.e. those the first substitution keeps. */
  predicate Kept(c: char) {
    IsWordChar(c) || IsSpace(c) || c == '.'
  }

  /** The characters normalised text is made of. */
  predicate CleanChar(c: char) {
    IsWordChar(c) || c == ' ' || c == '.'
  }

  predicate AllClean(s: string) {
    forall i :: 0 <= i < |s| ==> CleanChar(s[i])
  }

  /** No two adjacent spaces. */
  predicate SingleSpaced(s: string) {
    forall i, j :: 0 <= i < |s| && j == i + 1 < |s| ==> s[i] != ' ' || s[j] != ' '
  }

  /** What `preprocess_text` promises of its output. */
  predicate Normalized(s: string) {
    && AllClean(s)
    && SingleSpaced(s)
    && (s != [] ==> s[0] != ' ' && s[|s| - 1] != ' ')
  }

  /**
   * `re.sub(r'[^\w\s.]', ' ', text)`: same length, only kept characters, and
   * a character is left as it was exactly when it is one the pattern keeps.
   */
  function ReplaceDisallowed(s: string): (r: string)
    ensures |r| == |s|
    ensures forall i :: 0 <= i < |r| ==> Kept(r[i]) && (r[i] == s[i] <==> Kept(s[i]))
    ensures forall i :: 0 <= i < |s| && !Kept(s[i]) ==> r[i] == ' '
  {
    seq(|s|, i requires 0 <= i < |s| => if Kept(s[i]) then s[i] else ' ')
  }

  /** `re.sub(r'\s+', ' ', text)`: each maximal whitespace run becomes one space. */
  function CollapseSpaces(s: string): (r: string)
    ensures |r| <= |s| && (r == [] <==> s == [])
    decreases |s|
  {
    if s == [] then []
    else if IsSpace(s[0]) then
      var t := StripLeft(s);
      [' '] + CollapseSpaces(t)
    else [s[0]] + CollapseSpaces(s[1..])
  }

  /**
   * `preprocess_text(text)`: the output holds only word characters, single
   * spaces and dots, with no space at either end, and is never longer than the input.
   */
  function PreprocessText(s: string): (r: string)
    ensures Normalized(r) && |r| <= |s|
  {
    CollapseClean(ReplaceDisallowed(s));
    CollapseSingleSpaced(ReplaceDisallowed(s));
    StripNormalizes(CollapseSpaces(ReplaceDisallowed(s)));
    Strip(CollapseSpaces(ReplaceDisallowed(s)))
  }

  /** The collapse starts with a space exactly when the input starts with whitespace. */
  lemma CollapseHead(s: string)
    requires s != []
    ensures CollapseSpaces(s)[0] == ' ' <==> IsSpace(s[0])
  {
  }

  /** The collapse ends in a space exactly when the input ends in whitespace. */
  lemma {:induction false} CollapseLast(s: string)
    requires s != []
    ensures var r := CollapseSpaces(s); r[|r| - 1] == ' ' <==> IsSpace(s[|s| - 1])
    decreases |s|
  {
    var t := if IsSpace(s[0]) then StripLeft(s) else s[1..];
    if t != [] {
      CollapseLast(t);
      assert t[|t| - 1] == s[|s| - 1];
    } else if IsSpace(s[0]) {
      assert IsSpace(s[|s| - 1]);
    }
  }

  /** A word in front passes through the collapse unchanged. */
  lemma {:induction false} CollapseWord(w: string, t: string)
    requires NoSpace(w)
    ensures CollapseSpaces(w + t) == w + CollapseSpaces(t)
    decreases |w|
  {
    if w != [] {
      assert (w + t)[1..] == w[1..] + t;
      CollapseWord(w[1..], t);
      assert [w[0]] + w[1..] == w;
    } else {
      assert w + t == t;
    }
  }

  /** `re.sub(r'\s+', ' ', s).split() == s.split()`: collapsing keeps every word, in order. */
  lemma {:induction false} CollapseKeepsWords(s: string)
    ensures Words(CollapseSpaces(s)) == Words(s)
    decreases |s|
  {
    if s != [] {
      if IsSpace(s[0]) {
        var t := StripLeft(s);
        LeadingSpaceSkipped(CollapseSpaces(t));
        CollapseKeepsWords(t);
        WordsOfStripLeft(s);
      } else {
        var w := TakeWord(s);
        var t := s[|w|..];
        assert s == w + t;
        CollapseWord(w, t);
        WordsOfWord(w, t);
        if t != [] {
          CollapseHead(t);
        }
        WordsOfWord(w, CollapseSpaces(t));
        CollapseKeepsWords(t);
      }
    }
  }

  /** `preprocess_text(s).split()` is the split of `s` with every disallowed character made a space. */
  lemma PreprocessWords(s: string)
    ensures Words(PreprocessText(s)) == Words(ReplaceDisallowed(s))
  {
    WordsOfStrip(CollapseSpaces(ReplaceDisallowed(s)));
    CollapseKeepsWords(ReplaceDisallowed(s));
  }

  /** The collapse leaves no two spaces side by side. */
  lemma {:induction false} CollapseSingleSpaced(s: string)
    ensures SingleSpaced(CollapseSpaces(s))
    decreases |s|
  {
    if s != [] {
      var r := CollapseSpaces(s);
      var t := if IsSpace(s[0]) then StripLeft(s) else s[1..];
      var rest := CollapseSpaces(t);
      CollapseSingleSpaced(t);
      assert r == [r[0]] + rest;
      if IsSpace(s[0]) && t != [] {
        CollapseHead(t);
      }
      forall i, j | 0 <= i < |r| && j == i + 1 < |r| ensures r[i] != ' ' || r[j] != ' ' {
        if i > 0 {
          assert r[i] == rest[i - 1] && r[j] == rest[j - 1];
        }
      }
    }
  }

  /** Collapsing a string of kept characters leaves only clean characters. */
  lemma {:induction false} CollapseClean(s: string)
    requires forall i :: 0 <= i < |s| ==> Kept(s[i])
    ensures AllClean(CollapseSpaces(s))
    decreases |s|
  {
    if s != [] {
      var r := CollapseSpaces(s);
      var t := if IsSpace(s[0]) then StripLeft(s) else s[1..];
      forall i | 0 <= i < |t| ensures Kept(t[i]) {
        assert t[i] == s[|s| - |t| + i];
      }
      CollapseClean(t);
      var rest := CollapseSpaces(t);
      forall i | 0 <= i < |r| ensures CleanChar(r[i]) {
        if i > 0 {
          assert r[i] == rest[i - 1];
        }
      }
    }
  }

  /** A slice of a clean string is clean. */
  lemma SliceClean(s: string, k: nat, n: nat)
    requires AllClean(s) && k + n <= |s|
    ensures AllClean(s[k..k + n])
  {
    var r := s[k..k + n];
    forall i | 0 <= i < |r| ensures CleanChar(r[i]) {
      assert r[i] == s[k + i];
    }
  }

  /** A slice of a single-spaced string is single-spaced. */
  lemma SliceSingleSpaced(s: string, k: nat, n: nat)
    requires SingleSpaced(s) && k + n <= |s|
    ensures SingleSpaced(s[k..k + n])
  {
    var r := s[k..k + n];
    forall i, j | 0 <= i < |r| && j == i + 1 < |r| ensures r[i] != ' ' || r[j] != ' ' {
      assert r[i] == s[k + i] && r[j] == s[k + j];
    }
  }

  /** Stripping a clean, single-spaced string leaves a normalised one. */
  lemma StripNormalizes(s: string)
    requires AllClean(s) && SingleSpaced(s)
    ensures Normalized(Strip(s))
  {
    var r := Strip(s);
    var k := Lead(s);
    SliceClean(s, k, |r|);
    SliceSingleSpaced(s, k, |r|);
  }

  /** A clean, single-spaced string is left alone by the whitespace collapse. */
  lemma {:induction false} CollapseFixes(s: string)
    requires AllClean(s) && SingleSpaced(s)
    ensures CollapseSpaces(s) == s
    decreases |s|
  {
    if s != [] {
      CollapseFixes(s[1..]);
      if IsSpace(s[0]) {
        assert |s| > 1 ==> s[1] != ' ';
        assert StripLeft(s[1..]) == s[1..];
        assert StripLeft(s) == s[1..];
      }
      HeadAndRest(s);
    }
  }

  /** Normalised text is a fixed point of `preprocess_text`. */
  lemma {:induction false} NormalizedFixed(s: string)
    requires Normalized(s)
    ensures PreprocessText(s) == s
  {
    assert ReplaceDisallowed(s) == s;
    CollapseFixes(s);
    assert s != [] ==> !IsSpace(s[0]) && !IsSpace(s[|s| - 1]);
    assert Lead(s) == 0;
    assert SkipSpaceBack(s, |s|) == |s|;
  }

  /** `preprocess_text(preprocess_text(t)) == preprocess_text(t)`. */
  lemma PreprocessIdempotent(t: string)
    ensures PreprocessText(PreprocessText(t)) == PreprocessText(t)
  {
    NormalizedFixed(PreprocessText(t));
  }
}
