/**
 * The few Python string operations the core relies on: `str.isspace`
 * (which is also what `\s` matches in a `str` regular expression),
 * `str.strip()`, `sep.join(xs)`, `s.split(c)` and `s.split()`.
 */
module Text {

  import opened Seqs

  /** Python's `str.isspace()`: the characters `\s` matches in a `str` pattern. */
  predicate IsSpace(c: char) {
    var n := c as int;
    (9 <= n <= 13) || (28 <= n <= 32) || n == 0x85 || n == 0xA0 || n == 0x1680
    || (0x2000 <= n <= 0x200A) || n == 0x2028 || n == 0x2029 || n == 0x202F
    || n == 0x205F || n == 0x3000
  }

  /** `\w`, restricted to ASCII: letters, digits and the underscore. */
  predicate IsWordChar(c: char) {
    ('a' <= c <= 'z') || ('A' <= c <= 'Z') || ('0' <= c <= '9') || c == '_'
  }

  predicate AllSpace(s: string) {
    forall i :: 0 <= i < |s| ==> IsSpace(s[i])
  }

  /** The first index at or after `i` that holds no whitespace, or `|s|` when there is none. */
  function SkipSpace(s: string, i: nat): (j: nat)
    requires i <= |s|
    ensures i <= j <= |s|
    ensures j == |s| || !IsSpace(s[j])
    ensures forall k :: i <= k < j ==> IsSpace(s[k])
    decreases |s| - i
  {
    if i < |s| && IsSpace(s[i]) then SkipSpace(s, i + 1) else i
  }

  /** The start of the run of whitespace that ends at index `j` of `s` (possibly empty). */
  function SkipSpaceBack(s: string, j: nat): (i: nat)
    requires j <= |s|
    ensures i <= j
    ensures i == 0 || !IsSpace(s[i - 1])
    ensures forall k :: i <= k < j ==> IsSpace(s[k])
  {
    if j > 0 && IsSpace(s[j - 1]) then SkipSpaceBack(s, j - 1) else j
  }

  /** Number of leading whitespace characters of `s`. */
  function Lead(s: string): nat {
    SkipSpace(s, 0)
  }

  /** `s.lstrip()`: the suffix of `s` left after its leading whitespace. */
  function StripLeft(s: string): (r: string)
    ensures |r| <= |s| && r == s[|s| - |r|..]
    ensures r == [] || !IsSpace(r[0])
    ensures forall i :: 0 <= i < |s| - |r| ==> IsSpace(s[i])
  {
    s[Lead(s)..]
  }

  /**
   * `s.strip()`: a contiguous slice of `s` with no whitespace at either end,
   * and everything cut off on either side is whitespace.
   */
  function Strip(s: string): (r: string)
    ensures Lead(s) + |r| <= |s| && r == s[Lead(s)..Lead(s) + |r|]
    ensures r != [] ==> !IsSpace(r[0]) && !IsSpace(r[|r| - 1])
    ensures forall i :: 0 <= i < |s| && !(Lead(s) <= i < Lead(s) + |r|) ==> IsSpace(s[i])
  {
    var a := Lead(s);
    var b := SkipSpaceBack(s, |s|);
    if b <= a then "" else s[a..b]
  }

  /** `s.strip()` is empty exactly when `s` is all whitespace. */
  lemma StripEmptyIffAllSpace(s: string)
    ensures Strip(s) == [] <==> AllSpace(s)
  {
  }

  /** `sep.join(xs)`: empty for no pieces, and otherwise it starts with the first piece. */
  function JoinWith(sep: string, xs: seq<string>): (r: string)
    ensures xs == [] ==> r == ""
    ensures xs != [] ==> |xs[0]| <= |r| && r[..|xs[0]|] == xs[0]
  {
    if xs == [] then "" else if |xs| == 1 then xs[0] else xs[0] + sep + JoinWith(sep, xs[1..])
  }

  /** `s.split(c)` for a one-character separator: always at least one piece. */
  function SplitOn(c: char, s: string): (r: seq<string>)
    ensures |r| >= 1
  {
    if s == [] then [""]
    else if s[0] == c then [""] + SplitOn(c, s[1..])
    else var rest := SplitOn(c, s[1..]); [[s[0]] + rest[0]] + rest[1..]
  }

  /** The longest prefix of `s` holding no whitespace. */
  function TakeWord(s: string): (w: string)
    ensures |w| <= |s| && w == s[..|w|]
    ensures forall i :: 0 <= i < |w| ==> !IsSpace(w[i])
    ensures |w| == |s| || IsSpace(s[|w|])
  {
    if s == [] || IsSpace(s[0]) then "" else [s[0]] + TakeWord(s[1..])
  }

  /** `s.split()` with no argument: the maximal runs of non-whitespace characters. */
  function Words(s: string): (ws: seq<string>)
    ensures ws == [] <==> AllSpace(s)
    decreases |s|
  {
    var t := StripLeft(s);
    if t == [] then [] else
      var w := TakeWord(t);
      assert s[|s| - |t|] == t[0];
      [w] + Words(t[|w|..])
  }

  /** Every piece of `s.split()` is a nonempty run of non-whitespace characters. */
  lemma {:induction false} WordsAreWords(s: string)
    ensures forall k :: 0 <= k < |Words(s)| ==> Words(s)[k] != [] && NoSpace(Words(s)[k])
    decreases |s|
  {
    var t := StripLeft(s);
    if t != [] {
      var w := TakeWord(t);
      WordsAreWords(t[|w|..]);
      var ws := Words(s);
      assert ws == [w] + Words(t[|w|..]);
      forall k | 0 <= k < |ws| ensures ws[k] != [] && NoSpace(ws[k]) {
        if k > 0 { assert ws[k] == Words(t[|w|..])[k - 1]; }
      }
    }
  }

  predicate NoSpace(w: string) {
    forall i :: 0 <= i < |w| ==> !IsSpace(w[i])
  }

  predicate Excludes(c: char, s: string) {
    forall i :: 0 <= i < |s| ==> s[i] != c
  }

  /** Appending a nonempty list to a nonempty list puts one separator between the two joins. */
  lemma {:induction false} JoinAppend(sep: string, a: seq<string>, b: seq<string>)
    requires a != [] && b != []
    ensures JoinWith(sep, a + b) == JoinWith(sep, a) + sep + JoinWith(sep, b)
  {
    if |a| == 1 {
      assert (a + b)[1..] == b;
    } else {
      assert (a + b)[1..] == a[1..] + b;
      JoinAppend(sep, a[1..], b);
    }
  }

  /** Splitting a join on a separator the pieces do not contain gives the pieces back. */
  lemma {:induction false} SplitJoin(c: char, xs: seq<string>)
    requires xs != []
    requires forall k :: 0 <= k < |xs| ==> Excludes(c, xs[k])
    ensures SplitOn(c, JoinWith([c], xs)) == xs
  {
    if |xs| == 1 {
      SplitNoSep(c, xs[0], []);
    } else {
      SplitJoin(c, xs[1..]);
      SplitNoSep(c, xs[0], JoinWith([c], xs[1..]));
      assert [xs[0]] + xs[1..] == xs;
    }
  }

  /** Splitting `a`, then an optional `c` and tail `t`, where `a` has no `c`. */
  lemma {:induction false} SplitNoSep(c: char, a: string, t: string)
    requires Excludes(c, a)
    ensures SplitOn(c, a) == [a]
    ensures SplitOn(c, a + [c] + t) == [a] + SplitOn(c, t)
    decreases |a|
  {
    if a != [] {
      SplitNoSep(c, a[1..], t);
      assert (a + [c] + t)[1..] == a[1..] + [c] + t;
      assert [a[0]] + a[1..] == a;
    } else {
      assert a + [c] + t == [c] + t;
      assert ([c] + t)[1..] == t;
    }
  }

  /** Joining the pieces of a split with the separator gives the string back. */
  lemma {:induction false} JoinSplit(c: char, s: string)
    ensures JoinWith([c], SplitOn(c, s)) == s
    decreases |s|
  {
    if s != [] {
      JoinSplit(c, s[1..]);
      var rest := SplitOn(c, s[1..]);
      if s[0] == c {
        assert s == [c] + s[1..];
      } else if |rest| == 1 {
        assert s == [s[0]] + s[1..];
      } else {
        assert rest == [rest[0]] + rest[1..];
        JoinAppend([c], [rest[0]], rest[1..]);
        JoinAppend([c], [[s[0]] + rest[0]], rest[1..]);
        assert s == [s[0]] + s[1..];
      }
    }
  }

  /** `" ".join(ws).split()` gives back `ws` when every word is nonempty and holds no whitespace. */
  lemma {:induction false} WordsOfJoin(ws: seq<string>)
    requires forall k :: 0 <= k < |ws| ==> ws[k] != [] && NoSpace(ws[k])
    ensures Words(JoinWith(" ", ws)) == ws
  {
    assert Words("") == [] by { assert StripLeft("") == []; }
    if ws != [] {
      var rest := JoinWith(" ", ws[1..]);
      if |ws| == 1 {
        WordsOfWord(ws[0], "");
        assert ws[0] + "" == ws[0];
      } else {
        JoinCons(" ", ws);
        WordsOfJoin(ws[1..]);
        WordsBeforeSpace(ws[0], rest);
      }
      HeadAndRest(ws);
    }
  }

  /** A join of two or more strings starts with the first and the separator. */
  lemma JoinCons(sep: string, xs: seq<string>)
    requires |xs| > 1
    ensures JoinWith(sep, xs) == xs[0] + sep + JoinWith(sep, xs[1..])
  {
  }

  /** `(w + " " + t).split()` is `w` followed by `t.split()`. */
  lemma WordsBeforeSpace(w: string, t: string)
    requires w != [] && NoSpace(w)
    ensures Words(w + " " + t) == [w] + Words(t)
  {
    assert w + " " + t == w + (" " + t);
    WordsOfWord(w, " " + t);
    LeadingSpaceSkipped(t);
  }

  /** A word followed by nothing or by whitespace is the first word. */
  lemma WordsOfWord(w: string, t: string)
    requires w != [] && NoSpace(w)
    requires t == [] || IsSpace(t[0])
    ensures Words(w + t) == [w] + Words(t)
  {
    var s := w + t;
    assert StripLeft(s) == s;
    TakeWordOf(w, t);
    assert s[|w|..] == t;
  }

  lemma {:induction false} TakeWordOf(w: string, t: string)
    requires NoSpace(w)
    requires t == [] || IsSpace(t[0])
    ensures TakeWord(w + t) == w
    decreases |w|
  {
    if w != [] {
      TakeWordOf(w[1..], t);
      assert (w + t)[1..] == w[1..] + t;
      assert [w[0]] + w[1..] == w;
    } else {
      assert w + t == t;
    }
  }

  /** One leading space does not change `split()`. */
  lemma LeadingSpaceSkipped(t: string)
    ensures Words(" " + t) == Words(t)
  {
    assert (" " + t)[1..] == t;
    assert StripLeft(" " + t) == StripLeft(t);
  }

  /** Any one leading whitespace character does not change `split()`. */
  lemma SpaceSkipped(c: char, t: string)
    requires IsSpace(c)
    ensures Words([c] + t) == Words(t)
  {
    assert ([c] + t)[1..] == t;
    assert StripLeft([c] + t) == StripLeft(t);
  }

  /** Leading whitespace does not change `split()`. */
  lemma WordsOfStripLeft(s: string)
    ensures Words(StripLeft(s)) == Words(s)
  {
    assert StripLeft(StripLeft(s)) == StripLeft(s);
  }

  /** Trailing whitespace does not change `split()`. */
  lemma {:induction false} WordsTrailingSpace(u: string, v: string)
    requires AllSpace(v)
    ensures Words(u + v) == Words(u)
    decreases |u|
  {
    if AllSpace(u) {
      assert AllSpace(u + v);
    } else if IsSpace(u[0]) {
      assert u == [u[0]] + u[1..];
      assert u + v == [u[0]] + (u[1..] + v);
      SpaceSkipped(u[0], u[1..]);
      SpaceSkipped(u[0], u[1..] + v);
      WordsTrailingSpace(u[1..], v);
    } else {
      var w := TakeWord(u);
      var t := u[|w|..];
      assert u == w + t;
      assert u + v == w + (t + v);
      WordsOfWord(w, t);
      WordsOfWord(w, t + v);
      WordsTrailingSpace(t, v);
    }
  }

  /** `s.strip().split() == s.split()`: stripping keeps every word. */
  lemma WordsOfStrip(s: string)
    ensures Words(Strip(s)) == Words(s)
  {
    StripEmptyIffAllSpace(s);
    var r := Strip(s);
    if r != [] {
      var a := Lead(s);
      var v := s[a + |r|..];
      assert s[a..] == r + v;
      assert AllSpace(v) by {
        forall i | 0 <= i < |v| ensures IsSpace(v[i]) {
          assert v[i] == s[a + |r| + i];
        }
      }
      WordsTrailingSpace(r, v);
      WordsOfStripLeft(s);
    }
  }
}
