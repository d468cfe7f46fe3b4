/**
 * `PDFEmbeddingGenerator.chunk_text`: greedy packing of an already
 * tokenised list of sentences into chunks of about `chunk_size` characters.
 * A sentence is never split; one longer than the limit becomes a chunk of
 * its own.
 */
module Chunker {
  import opened Text
  import opened Seqs

  /** The running buffer `current_chunk` after appending the sentences of `g`, each followed by a space. */
  function Accum(g: seq<string>): string {
    if g == [] then "" else g[0] + " " + Accum(g[1..])
  }

  /** The sentences of a list of groups, in order. */
  function Flatten(gs: seq<seq<string>>): seq<string> {
    if gs == [] then [] else gs[0] + Flatten(gs[1..])
  }

  /** The loop state, one group per chunk: the chunks already closed and the sentences of `current_chunk`. */
  datatype Packing = Packing(closed: seq<seq<string>>, open: seq<string>)

  /**
   * One iteration of the loop of `chunk_text` on sentence `s`: the sentence
   * always ends the buffer, it joins the buffer when it fits, and the buffer
   * is closed as a chunk only when it is nonempty and `s` does not fit.
   */
  function Step(p: Packing, s: string, size: int): (r: Packing)
    ensures r.open != [] && r.open[|r.open| - 1] == s
    ensures |Accum(p.open)| + |s| <= size ==> r.open == p.open + [s]
    ensures r.closed == p.closed || (r.closed == p.closed + [p.open] && p.open != [] && |Accum(p.open)| + |s| > size)
  {
    if |Accum(p.open)| + |s| <= size then Packing(p.closed, p.open + [s])
    else if p.open == [] then Packing(p.closed, [s])
    else Packing(p.closed + [p.open], [s])
  }

  /** The loop state after all of `ss`. */
  function Pack(ss: seq<string>, size: int): Packing
    decreases |ss|
  {
    if ss == [] then Packing([], []) else Step(Pack(ss[..|ss| - 1], size), ss[|ss| - 1], size)
  }

  /** The sentence groups, after the final flush of a nonempty buffer: a greedy partition of `ss`. */
  function Groups(ss: seq<string>, size: int): (gs: seq<seq<string>>)
    ensures GreedyPartition(gs, ss, size)
  {
    var p := Pack(ss, size);
    PackAllOk(ss, size);
    FlattenSnoc(p.closed, p.open);
    if p.open == [] then p.closed else p.closed + [p.open]
  }

  /** The chunk a group becomes, `current_chunk.strip()`: no whitespace at either end, and shorter than the buffer. */
  function ChunkOf(g: seq<string>): (r: string)
    ensures r != [] ==> !IsSpace(r[0]) && !IsSpace(r[|r| - 1])
    ensures g != [] ==> |r| < |Accum(g)|
  {
    AccumLast(g);
    StripDropsTrailingSpace(Accum(g));
    Strip(Accum(g))
  }

  /** The chunk of each group. */
  function Render(gs: seq<seq<string>>): seq<string> {
    MapSeq(ChunkOf, gs)
  }

  /** The value of `chunk_text` for the sentences `ss` and the limit `size`: one chunk per group, and none for no sentences. */
  function Chunks(ss: seq<string>, size: int): (cs: seq<string>)
    ensures |cs| == |Groups(ss, size)|
    ensures cs == [] <==> ss == []
  {
    Render(Groups(ss, size))
  }

  /** `chunk_text(text)` with `sent_tokenize(text)` given as `sentences`. */
  method ChunkText(sentences: seq<string>, chunkSize: int) returns (chunks: seq<string>)
    ensures chunks == Chunks(sentences, chunkSize)
    ensures sentences == [] ==> chunks == []
  {
    chunks := [];
    var current := "";
    for i := 0 to |sentences|
      invariant current == Accum(Pack(sentences[..i], chunkSize).open)
      invariant chunks == Render(Pack(sentences[..i], chunkSize).closed)
    {
      ghost var p := Pack(sentences[..i], chunkSize);
      PackSnoc(sentences, i, chunkSize);
      var sentence := sentences[i];
      AccumEmpty(p.open);
      if |current| + |sentence| <= chunkSize {
        AccumSnoc(p.open, sentence);
        current := current + sentence + " ";
      } else {
        if current != "" {
          MapSnoc(ChunkOf, p.closed, p.open);
          chunks := chunks + [Strip(current)];
        }
        current := sentence + " ";
        assert Accum([sentence]) == sentence + " ";
      }
    }
    WholePrefix(sentences);
    ghost var p := Pack(sentences, chunkSize);
    AccumEmpty(p.open);
    if current != "" {
      MapSnoc(ChunkOf, p.closed, p.open);
      chunks := chunks + [Strip(current)];
    }
  }

  lemma PackSnoc(ss: seq<string>, i: nat, size: int)
    requires i < |ss|
    ensures Pack(ss[..i + 1], size) == Step(Pack(ss[..i], size), ss[i], size)
  {
    assert ss[..i + 1][..i] == ss[..i];
  }

  lemma {:induction false} AccumEmpty(g: seq<string>)
    ensures Accum(g) == "" <==> g == []
  {
    if g != [] {
      assert |Accum(g)| >= 1;
    }
  }

  lemma {:induction false} AccumSnoc(g: seq<string>, s: string)
    ensures Accum(g + [s]) == Accum(g) + s + " "
  {
    if g == [] {
      assert [s][1..] == [];
    } else {
      assert (g + [s])[1..] == g[1..] + [s];
      AccumSnoc(g[1..], s);
    }
  }

  lemma {:induction false} FlattenSnoc(gs: seq<seq<string>>, g: seq<string>)
    ensures Flatten(gs + [g]) == Flatten(gs) + g
  {
    if gs == [] {
      assert [g][1..] == [];
    } else {
      assert (gs + [g])[1..] == gs[1..] + [g];
      FlattenSnoc(gs[1..], g);
    }
  }

  /** Every sentence after the first of a group fitted into the buffer when it was appended. */
  predicate Fits(g: seq<string>, size: int) {
    forall j :: 1 <= j < |g| ==> |Accum(g[..j])| + |g[j]| <= size
  }

  /** A group was closed only because the first sentence of the next group did not fit. */
  predicate ClosedWhenFull(gs: seq<seq<string>>, size: int) {
    forall i :: 0 <= i < |gs| - 1 && gs[i + 1] != [] ==> |Accum(gs[i])| + |gs[i + 1][0]| > size
  }

  /** `gs` is a greedy packing of `ss`: order kept, no group empty, each group full until the next sentence would overflow it. */
  predicate GreedyPartition(gs: seq<seq<string>>, ss: seq<string>, size: int) {
    && Flatten(gs) == ss
    && (forall i :: 0 <= i < |gs| ==> gs[i] != [] && Fits(gs[i], size))
    && ClosedWhenFull(gs, size)
  }

  /** What the loop keeps true of its state. */
  predicate PackOk(p: Packing, ss: seq<string>, size: int) {
    && Flatten(p.closed) + p.open == ss
    && (p.open == [] ==> p.closed == [])
    && (forall i :: 0 <= i < |p.closed| ==> p.closed[i] != [] && Fits(p.closed[i], size))
    && Fits(p.open, size)
    && ClosedWhenFull(p.closed + [p.open], size)
  }

  lemma StepOk(p: Packing, ss: seq<string>, s: string, size: int)
    requires PackOk(p, ss, size)
    ensures PackOk(Step(p, s, size), ss + [s], size)
  {
    var q := Step(p, s, size);
    if |Accum(p.open)| + |s| <= size {
      var g := p.open + [s];
      forall j | 1 <= j < |g| ensures |Accum(g[..j])| + |g[j]| <= size {
        if j < |p.open| {
          assert g[..j] == p.open[..j];
        } else {
          assert g[..j] == p.open;
        }
      }
      assert Flatten(q.closed) + q.open == ss + [s];
      if p.open != [] {
        assert q.closed + [q.open] == p.closed + [g];
        forall i | 0 <= i < |q.closed + [q.open]| - 1 && (q.closed + [q.open])[i + 1] != []
          ensures |Accum((q.closed + [q.open])[i])| + |(q.closed + [q.open])[i + 1][0]| > size
        {
          assert (p.closed + [p.open])[i] == (q.closed + [q.open])[i];
          if i + 1 < |p.closed| {
            assert (p.closed + [p.open])[i + 1] == (q.closed + [q.open])[i + 1];
          } else {
            assert (p.closed + [p.open])[i + 1] == p.open;
          }
        }
      }
    } else if p.open == [] {
      assert q == Packing([], [s]);
    } else {
      FlattenSnoc(p.closed, p.open);
      var cs := p.closed + [p.open];
      assert q.closed + [q.open] == cs + [[s]];
      forall i | 0 <= i < |cs + [[s]]| - 1 && (cs + [[s]])[i + 1] != []
        ensures |Accum((cs + [[s]])[i])| + |(cs + [[s]])[i + 1][0]| > size
      {
        if i + 1 < |cs| {
          assert (cs + [[s]])[i] == cs[i] && (cs + [[s]])[i + 1] == cs[i + 1];
        }
      }
    }
  }

  /** The state after any number of sentences keeps the loop invariant, and the buffer is nonempty once a sentence was seen. */
  lemma {:induction false} PackAllOk(ss: seq<string>, size: int)
    ensures PackOk(Pack(ss, size), ss, size)
    ensures ss != [] ==> Pack(ss, size).open != []
    decreases |ss|
  {
    if ss != [] {
      var front := ss[..|ss| - 1];
      PackAllOk(front, size);
      StepOk(Pack(front, size), front, ss[|ss| - 1], size);
      FrontAndLast(ss);
    }
  }

  /** There is only one greedy partition of a list of sentences: the greedy rule determines every chunk boundary. */
  lemma {:induction false} GreedyUnique(gs: seq<seq<string>>, hs: seq<seq<string>>, ss: seq<string>, size: int)
    requires GreedyPartition(gs, ss, size) && GreedyPartition(hs, ss, size)
    ensures gs == hs
    decreases |ss|
  {
    if gs == [] || hs == [] {
      if gs != [] || hs != [] { assert false; }
    } else {
      var g, h := gs[0], hs[0];
      SameFirstGroup(gs, hs, ss, size);
      SameFirstGroup(hs, gs, ss, size);
      assert g == ss[..|g|] && h == ss[..|h|];
      var rest := ss[|g|..];
      TailGreedy(gs, ss, size);
      TailGreedy(hs, ss, size);
      GreedyUnique(gs[1..], hs[1..], rest, size);
      assert gs == [g] + gs[1..] && hs == [h] + hs[1..];
    }
  }

  /** The first group of a greedy partition is as long as the first group of any other. */
  lemma SameFirstGroup(gs: seq<seq<string>>, hs: seq<seq<string>>, ss: seq<string>, size: int)
    requires GreedyPartition(gs, ss, size) && GreedyPartition(hs, ss, size)
    requires gs != [] && hs != []
    ensures |gs[0]| >= |hs[0]|
  {
    assert ss == hs[0] + Flatten(hs[1..]);
    LongerPrefixOverflows(gs, ss, size, hs[0]);
  }

  /** Any run of sentences longer than the first greedy group would have overflowed the buffer. */
  lemma LongerPrefixOverflows(gs: seq<seq<string>>, ss: seq<string>, size: int, h: seq<string>)
    requires GreedyPartition(gs, ss, size) && gs != []
    requires |h| <= |ss| && h == ss[..|h|]
    ensures |gs[0]| < |h| ==> !Fits(h, size)
  {
    var g := gs[0];
    var n := |g|;
    if n < |h| {
      assert ss == g + Flatten(gs[1..]);
      assert h[..n] == ss[..n] == g;
      assert |gs| > 1;
      assert Flatten(gs[1..]) == gs[1] + Flatten(gs[2..]) by { assert gs[1..][1..] == gs[2..]; }
      assert gs[1][0] == ss[n] == h[n];
      assert |Accum(h[..n])| + |h[n]| > size;
    }
  }

  lemma TailGreedy(gs: seq<seq<string>>, ss: seq<string>, size: int)
    requires GreedyPartition(gs, ss, size) && gs != []
    ensures GreedyPartition(gs[1..], ss[|gs[0]|..], size)
  {
    assert ss == gs[0] + Flatten(gs[1..]);
    var t := gs[1..];
    forall i | 0 <= i < |t| - 1 && t[i + 1] != [] ensures |Accum(t[i])| + |t[i + 1][0]| > size {
      assert t[i] == gs[i + 1] && t[i + 1] == gs[i + 2];
    }
  }

  /** Every sentence of every group is one of the flattened sentences. */
  lemma {:induction false} FlattenMember(gs: seq<seq<string>>, i: nat, j: nat)
    requires i < |gs| && j < |gs[i]|
    ensures gs[i][j] in Flatten(gs)
  {
    if i == 0 {
      assert Flatten(gs)[j] == gs[0][j];
    } else {
      FlattenMember(gs[1..], i - 1, j);
      assert gs[1..][i - 1] == gs[i];
    }
  }

  /** A nonempty buffer ends in the space appended after its last sentence. */
  lemma {:induction false} AccumLast(g: seq<string>)
    ensures g != [] ==> |Accum(g)| > 0 && Accum(g)[|Accum(g)| - 1] == ' '
  {
    if |g| > 1 {
      AccumLast(g[1..]);
    }
  }

  /** Stripping removes at least the trailing space of the buffer. */
  lemma StripDropsTrailingSpace(x: string)
    ensures x != [] && IsSpace(x[|x| - 1]) ==> |Strip(x)| < |x|
  {
    var r := Strip(x);
    assert r == x[Lead(x)..Lead(x) + |r|];
  }

  /** A chunk exceeds the limit only if it is one sentence that alone exceeds it. */
  lemma GroupChunkBound(g: seq<string>, size: int)
    requires g != [] && Fits(g, size)
    ensures |Strip(Accum(g))| <= size || (|g| == 1 && |g[0]| > size)
  {
    var n := |g|;
    var front, last := g[..n - 1], g[n - 1];
    AccumSnoc(front, last);
    FrontAndLast(g);
    var buf := Accum(g);
    assert |buf| == |Accum(front)| + |last| + 1;
    assert buf[|buf| - 1] == ' ';
    StripDropsTrailingSpace(buf);
    if n > 1 {
      assert |Accum(front)| + |last| <= size;
    } else {
      assert front == [];
    }
  }

  /**
   * Every chunk has at most `size` characters, unless its group is a single
   * sentence that is itself longer than `size`.
   */
  lemma ChunkSizeBound(ss: seq<string>, size: int)
    ensures var gs := Groups(ss, size); var cs := Chunks(ss, size);
      && |cs| == |gs|
      && forall i :: 0 <= i < |cs| ==> |cs[i]| <= size || (|gs[i]| == 1 && |gs[i][0]| > size)
  {
    var gs := Groups(ss, size);
    forall i | 0 <= i < |gs| ensures |Strip(Accum(gs[i]))| <= size || (|gs[i]| == 1 && |gs[i][0]| > size) {
      GroupChunkBound(gs[i], size);
    }
  }

  /** When no sentence is empty or all whitespace, no chunk is empty. */
  lemma ChunksNonEmpty(ss: seq<string>, size: int)
    requires forall k :: 0 <= k < |ss| ==> !AllSpace(ss[k])
    ensures forall i :: 0 <= i < |Chunks(ss, size)| ==> Chunks(ss, size)[i] != ""
  {
    var gs := Groups(ss, size);
    forall i | 0 <= i < |gs| ensures Strip(Accum(gs[i])) != "" {
      var g := gs[i];
      FlattenMember(gs, i, 0);
      var j :| 0 <= j < |g[0]| && !IsSpace(g[0][j]);
      assert Accum(g)[j] == g[0][j];
      StripEmptyIffAllSpace(Accum(g));
    }
  }

  /** A sentence without whitespace at either end, as `sent_tokenize` yields them. */
  predicate Trimmed(s: string) {
    s != "" && !IsSpace(s[0]) && !IsSpace(s[|s| - 1])
  }

  lemma {:induction false} AccumIsJoin(g: seq<string>)
    requires g != []
    ensures Accum(g) == JoinWith(" ", g) + " "
  {
    if |g| > 1 {
      AccumIsJoin(g[1..]);
    }
  }

  lemma {:induction false} JoinEnds(g: seq<string>)
    requires g != [] && forall k :: 0 <= k < |g| ==> Trimmed(g[k])
    ensures Trimmed(JoinWith(" ", g))
  {
    if |g| > 1 {
      JoinEnds(g[1..]);
      var j := JoinWith(" ", g);
      assert j == g[0] + " " + JoinWith(" ", g[1..]);
      assert j[0] == g[0][0];
    }
  }

  /** `(j + " ").strip() == j` for a trimmed `j`. */
  lemma StripPadded(j: string)
    requires Trimmed(j)
    ensures Strip(j + " ") == j
  {
    var x := j + " ";
    assert Lead(x) == 0;
    assert SkipSpaceBack(x, |x| - 1) == |j|;
    assert x[..|j|] == j;
  }

  /** The chunk of a group of trimmed sentences is their `" ".join`. */
  lemma ChunkIsJoin(g: seq<string>)
    requires g != [] && forall k :: 0 <= k < |g| ==> Trimmed(g[k])
    ensures Strip(Accum(g)) == JoinWith(" ", g)
  {
    AccumIsJoin(g);
    JoinEnds(g);
    StripPadded(JoinWith(" ", g));
  }

  /** Joining the joins of nonempty groups is joining their flattening. */
  lemma {:induction false} JoinOfJoins(gs: seq<seq<string>>, cs: seq<string>)
    requires |cs| == |gs|
    requires forall i :: 0 <= i < |gs| ==> gs[i] != [] && cs[i] == JoinWith(" ", gs[i])
    ensures JoinWith(" ", cs) == JoinWith(" ", Flatten(gs))
  {
    if |gs| == 1 {
      assert gs[1..] == [];
      assert Flatten(gs) == gs[0] + Flatten([]) == gs[0];
      assert JoinWith(" ", cs) == cs[0];
    } else if |gs| > 1 {
      JoinOfJoins(gs[1..], cs[1..]);
      assert |Flatten(gs[1..])| >= |gs[1]| > 0;
      JoinAppend(" ", gs[0], Flatten(gs[1..]));
    }
  }

  /**
   * For trimmed sentences, `" ".join(chunks) == " ".join(sentences)`: no
   * sentence is dropped, duplicated or reordered.
   */
  lemma ChunksPreserveText(ss: seq<string>, size: int)
    requires forall k :: 0 <= k < |ss| ==> Trimmed(ss[k])
    ensures JoinWith(" ", Chunks(ss, size)) == JoinWith(" ", ss)
  {
    var gs := Groups(ss, size);
    forall i | 0 <= i < |gs| ensures Strip(Accum(gs[i])) == JoinWith(" ", gs[i]) {
      forall k | 0 <= k < |gs[i]| ensures Trimmed(gs[i][k]) {
        FlattenMember(gs, i, k);
      }
      ChunkIsJoin(gs[i]);
    }
    JoinOfJoins(gs, Chunks(ss, size));
  }
}
