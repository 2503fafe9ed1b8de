/**
 * The greedy paragraph packing that both document processors run over their paragraphs.
 * A buffer collects paragraphs, joined by AppendLine (the newline string nl); before a paragraph
 * that would take the buffer past MaxChunkLength, a non-empty buffer is flushed as one chunk;
 * what is left in the buffer at the end is the last chunk. Lengths are .NET lengths, counted
 * in UTF-16 code units (Utf16Length).
 *
 * The loop state is kept as paragraphs, not text: the buffer's text is Join(open, nl).
 */
module Chunking {
  import opened Strings
  import opened Seqs

  /** The size that a chunk is allowed to reach before another paragraph is added. */
  const MaxChunkLength: nat := 1000

  /** The chunks flushed so far, each as its paragraphs, and the paragraphs in the buffer. */
  datatype Packer = Packer(closed: seq<seq<string>>, open: seq<string>)

  const Start: Packer := Packer([], [])

  /** The buffer is non-empty and the paragraph would take it past the limit. */
  predicate Flushes(st: Packer, p: string, nl: string)
  {
    st.open != [] && Utf16Length(Join(st.open, nl)) + Utf16Length(p) > MaxChunkLength
  }

  /** One iteration of the paragraph loop. */
  function Step(st: Packer, p: string, nl: string): Packer
  {
    if Flushes(st, p, nl) then Packer(st.closed + [st.open], [p])
    else Packer(st.closed, st.open + [p])
  }

  /** The loop run over ps, starting from st. */
  function Feed(st: Packer, ps: seq<string>, nl: string): Packer
    decreases |ps|
  {
    if |ps| == 0 then st else Step(Feed(st, ps[..|ps| - 1], nl), ps[|ps| - 1], nl)
  }

  /** The chunks once the buffer left at the end is flushed, if it is non-empty. */
  function Finish(st: Packer): seq<seq<string>>
  {
    if st.open == [] then st.closed else st.closed + [st.open]
  }

  /** The paragraphs of each chunk the loop emits for ps. */
  function Groups(ps: seq<string>, nl: string): seq<seq<string>>
  {
    Finish(Feed(Start, ps, nl))
  }

  /** The content of each chunk the loop emits for ps. */
  function Chunks(ps: seq<string>, nl: string): seq<string>
  {
    JoinEach(Groups(ps, nl), nl)
  }

  function JoinEach(gs: seq<seq<string>>, nl: string): (r: seq<string>)
    ensures |r| == |gs| && forall k :: 0 <= k < |gs| ==> r[k] == Join(gs[k], nl)
  {
    seq(|gs|, k requires 0 <= k < |gs| => Join(gs[k], nl))
  }

  function Flatten(gs: seq<seq<string>>): seq<string>
    decreases |gs|
  {
    if |gs| == 0 then [] else Flatten(gs[..|gs| - 1]) + gs[|gs| - 1]
  }

  // ----- The reference definition: a greedy partition of the paragraphs -----

  /** No paragraph of g after the first would have caused a flush when it was added. */
  ghost predicate Fits(g: seq<string>, nl: string)
  {
    forall j :: 0 < j < |g| ==> Utf16Length(Join(g[..j], nl)) + Utf16Length(g[j]) <= MaxChunkLength
  }

  /** Adding p to a buffer holding g would take it past the limit. */
  ghost predicate Overflows(g: seq<string>, p: string, nl: string)
  {
    Utf16Length(Join(g, nl)) + Utf16Length(p) > MaxChunkLength
  }

  /**
   * gs cuts ps, in order, into non-empty groups; no group could have taken its own later
   * paragraphs without passing the limit being checked, and each group (but the last) was
   * closed only because the first paragraph of the next one did not fit.
   */
  ghost predicate IsGreedyPartition(gs: seq<seq<string>>, ps: seq<string>, nl: string)
  {
    && Flatten(gs) == ps
    && (forall k :: 0 <= k < |gs| ==> gs[k] != [] && Fits(gs[k], nl))
    && (forall k :: 0 <= k < |gs| - 1 ==> Overflows(gs[k], gs[k + 1][0], nl))
  }

  /** What the loop keeps true after consuming ps. */
  ghost predicate Inv(st: Packer, ps: seq<string>, nl: string)
  {
    && Flatten(st.closed) + st.open == ps
    && (forall k :: 0 <= k < |st.closed| ==> st.closed[k] != [] && Fits(st.closed[k], nl))
    && Fits(st.open, nl)
    && (forall k :: 0 <= k < |st.closed| - 1 ==> Overflows(st.closed[k], st.closed[k + 1][0], nl))
    && (st.closed != [] ==> st.open != [] && Overflows(st.closed[|st.closed| - 1], st.open[0], nl))
  }

  lemma FlattenSnoc(gs: seq<seq<string>>, g: seq<string>)
    ensures Flatten(gs + [g]) == Flatten(gs) + g
  {
    assert (gs + [g])[..|gs|] == gs;
  }

  lemma {:induction false} FlattenEmpty(gs: seq<seq<string>>)
    requires forall k :: 0 <= k < |gs| ==> gs[k] != []
    ensures Flatten(gs) == [] <==> gs == []
  {
  }

  lemma FitsSnoc(g: seq<string>, p: string, nl: string)
    requires Fits(g, nl)
    requires g != [] ==> Utf16Length(Join(g, nl)) + Utf16Length(p) <= MaxChunkLength
    ensures Fits(g + [p], nl)
  {
    var g' := g + [p];
    forall j | 0 < j < |g'|
      ensures Utf16Length(Join(g'[..j], nl)) + Utf16Length(g'[j]) <= MaxChunkLength
    {
      if j < |g| {
        assert g'[..j] == g[..j];
      } else {
        assert g'[..j] == g;
      }
    }
  }

  lemma FitsPrefix(g: seq<string>, nl: string)
    requires Fits(g, nl) && |g| > 0
    ensures Fits(g[..|g| - 1], nl)
  {
    var g' := g[..|g| - 1];
    forall j | 0 < j < |g'|
      ensures Utf16Length(Join(g'[..j], nl)) + Utf16Length(g'[j]) <= MaxChunkLength
    {
      assert g'[..j] == g[..j];
    }
  }

  lemma StepInv(st: Packer, ps: seq<string>, p: string, nl: string)
    requires Inv(st, ps, nl)
    ensures Inv(Step(st, p, nl), ps + [p], nl)
  {
    if Flushes(st, p, nl) {
      FlushInv(st, ps, p, nl);
    } else {
      FitsSnoc(st.open, p, nl);
    }
  }

  /** A flush closes the buffer as a group and opens a new one with p. */
  lemma FlushInv(st: Packer, ps: seq<string>, p: string, nl: string)
    requires Inv(st, ps, nl) && Flushes(st, p, nl)
    ensures Inv(Packer(st.closed + [st.open], [p]), ps + [p], nl)
  {
    FlattenSnoc(st.closed, st.open);
    var c := st.closed + [st.open];
    assert forall k :: 0 <= k < |st.closed| ==> c[k] == st.closed[k];
    assert Overflows(c[|c| - 1], p, nl);
  }

  lemma {:induction false} FeedInv(ps: seq<string>, nl: string)
    ensures Inv(Feed(Start, ps, nl), ps, nl)
    decreases |ps|
  {
    if |ps| > 0 {
      FeedInv(ps[..|ps| - 1], nl);
      FeedStepInv(ps, nl);
    }
  }

  /** The invariant holds after the last paragraph if it held before it. */
  lemma FeedStepInv(ps: seq<string>, nl: string)
    requires |ps| > 0 && Inv(Feed(Start, ps[..|ps| - 1], nl), ps[..|ps| - 1], nl)
    ensures Inv(Feed(Start, ps, nl), ps, nl)
  {
    var init, p := ps[..|ps| - 1], ps[|ps| - 1];
    var st := Feed(Start, init, nl);
    StepInv(st, init, p, nl);
    DropLastSnoc(ps);
  }

  lemma JoinEachDropLast(gs: seq<seq<string>>, nl: string)
    requires |gs| > 0
    ensures JoinEach(gs, nl)[..|gs| - 1] == JoinEach(gs[..|gs| - 1], nl)
  {
  }

  /** The buffer is empty only before the first paragraph. */
  lemma OpenEmptyIff(st: Packer, ps: seq<string>, nl: string)
    requires Inv(st, ps, nl)
    ensures st.open == [] <==> ps == []
    ensures st.open == [] ==> st.closed == []
  {
    if st.open != [] {
      assert |ps| >= |st.open|;
    }
  }

  /** The loop's output is a greedy partition of its input. */
  lemma GroupsAreGreedy(ps: seq<string>, nl: string)
    ensures IsGreedyPartition(Groups(ps, nl), ps, nl)
  {
    var st := Feed(Start, ps, nl);
    FeedInv(ps, nl);
    OpenEmptyIff(st, ps, nl);
    if st.open != [] {
      var gs := st.closed + [st.open];
      FlattenSnoc(st.closed, st.open);
      assert forall k :: 0 <= k < |st.closed| ==> gs[k] == st.closed[k];
    }
  }

  lemma FeedSnoc(ps: seq<string>, p: string, nl: string)
    ensures Feed(Start, ps + [p], nl) == Step(Feed(Start, ps, nl), p, nl)
  {
    assert (ps + [p])[..|ps|] == ps;
  }

  /** A paragraph that does not fit after the loop's groups for ps0 opens a group of its own. */
  lemma GroupsSnocAlone(ps0: seq<string>, p: string, nl: string)
    requires Groups(ps0, nl) != [] ==> Overflows(Groups(ps0, nl)[|Groups(ps0, nl)| - 1], p, nl)
    ensures Groups(ps0 + [p], nl) == Groups(ps0, nl) + [[p]]
  {
    FeedSnoc(ps0, p, nl);
    var st := Feed(Start, ps0, nl);
    FeedInv(ps0, nl);
    OpenEmptyIff(st, ps0, nl);
  }

  /** A paragraph that fits after the loop's groups for ps0 joins the last group. */
  lemma GroupsSnocJoined(ps0: seq<string>, p: string, nl: string)
    requires Groups(ps0, nl) != []
    requires Utf16Length(Join(Groups(ps0, nl)[|Groups(ps0, nl)| - 1], nl)) + Utf16Length(p) <= MaxChunkLength
    ensures var gs := Groups(ps0, nl);
      Groups(ps0 + [p], nl) == gs[..|gs| - 1] + [gs[|gs| - 1] + [p]]
  {
    FeedSnoc(ps0, p, nl);
    var st := Feed(Start, ps0, nl);
    FeedInv(ps0, nl);
    OpenEmptyIff(st, ps0, nl);
    assert Groups(ps0, nl) == st.closed + [st.open];
    assert Groups(ps0, nl)[..|Groups(ps0, nl)| - 1] == st.closed;
  }

  /** Dropping a last group of one paragraph leaves a greedy partition of the other paragraphs. */
  lemma GreedyDropLast(gs: seq<seq<string>>, ps: seq<string>, nl: string)
    requires IsGreedyPartition(gs, ps, nl) && |gs| > 0 && |gs[|gs| - 1]| == 1
    ensures |ps| > 0 && ps[|ps| - 1] == gs[|gs| - 1][0]
    ensures IsGreedyPartition(gs[..|gs| - 1], ps[..|ps| - 1], nl)
  {
    var g0 := gs[..|gs| - 1];
    assert gs == g0 + [gs[|gs| - 1]];
    FlattenSnoc(g0, gs[|gs| - 1]);
    assert ps[..|ps| - 1] == Flatten(g0);
  }

  /** Dropping the last paragraph of a last group of several leaves a greedy partition of the other paragraphs. */
  lemma GreedyShrinkLast(gs: seq<seq<string>>, ps: seq<string>, nl: string)
    requires IsGreedyPartition(gs, ps, nl) && |gs| > 0 && |gs[|gs| - 1]| > 1
    ensures var last := gs[|gs| - 1];
      && |ps| > 0 && ps[|ps| - 1] == last[|last| - 1]
      && IsGreedyPartition(gs[..|gs| - 1] + [last[..|last| - 1]], ps[..|ps| - 1], nl)
  {
    var g0, last := gs[..|gs| - 1], gs[|gs| - 1];
    var l0 := last[..|last| - 1];
    assert gs == g0 + [last];
    assert last == l0 + [last[|last| - 1]];
    FlattenSnoc(g0, last);
    FlattenSnoc(g0, l0);
    assert Flatten(g0) + l0 + [last[|last| - 1]] == ps;
    FitsPrefix(last, nl);
    var gs' := g0 + [l0];
    assert forall k :: 0 <= k < |g0| ==> gs'[k] == gs[k];
    assert l0[0] == last[0];
  }

  /** There is only one greedy partition: the one the loop produces. */
  lemma {:induction false} GreedyPartitionUnique(gs: seq<seq<string>>, ps: seq<string>, nl: string)
    requires IsGreedyPartition(gs, ps, nl)
    ensures gs == Groups(ps, nl)
    decreases |ps|, 1
  {
    FlattenEmpty(gs);
    if ps != [] {
      if |gs[|gs| - 1]| == 1 {
        UniqueWhenLastAlone(gs, ps, nl);
      } else {
        UniqueWhenLastJoined(gs, ps, nl);
      }
    }
  }

  lemma {:induction false} UniqueWhenLastAlone(gs: seq<seq<string>>, ps: seq<string>, nl: string)
    requires IsGreedyPartition(gs, ps, nl) && |gs| > 0 && |gs[|gs| - 1]| == 1
    ensures gs == Groups(ps, nl)
    decreases |ps|, 0
  {
    var n := |gs|;
    var g0, last := gs[..n - 1], gs[n - 1];
    var ps0 := ps[..|ps| - 1];
    assert last == [last[0]];
    assert gs == g0 + [[last[0]]];
    GreedyDropLast(gs, ps, nl);
    assert ps == ps0 + [last[0]];
    GreedyPartitionUnique(g0, ps0, nl);
    if g0 != [] {
      assert Overflows(gs[n - 2], gs[n - 1][0], nl);
    }
    GroupsSnocAlone(ps0, last[0], nl);
  }

  lemma {:induction false} UniqueWhenLastJoined(gs: seq<seq<string>>, ps: seq<string>, nl: string)
    requires IsGreedyPartition(gs, ps, nl) && |gs| > 0 && |gs[|gs| - 1]| > 1
    ensures gs == Groups(ps, nl)
    decreases |ps|, 0
  {
    var n := |gs|;
    var g0, last := gs[..n - 1], gs[n - 1];
    var ps0 := ps[..|ps| - 1];
    var l0 := last[..|last| - 1];
    var p := last[|last| - 1];
    assert last == l0 + [p];
    assert last[..|l0|] == l0;
    assert (g0 + [l0])[..n - 1] == g0;
    GreedyShrinkLast(gs, ps, nl);
    assert ps == ps0 + [p];
    assert gs == g0 + [l0 + [p]];
    GreedyPartitionUnique(g0 + [l0], ps0, nl);
    GroupsSnocJoined(ps0, p, nl);
  }

  /** The loop's output is characterized by the reference definition, in both directions. */
  lemma GroupsCharacterized(gs: seq<seq<string>>, ps: seq<string>, nl: string)
    ensures IsGreedyPartition(gs, ps, nl) <==> gs == Groups(ps, nl)
  {
    if IsGreedyPartition(gs, ps, nl) {
      GreedyPartitionUnique(gs, ps, nl);
    }
    if gs == Groups(ps, nl) {
      GroupsAreGreedy(ps, nl);
    }
  }

  // ----- What the greedy partition means for the chunks' text -----

  lemma {:induction false} JoinOfJoins(gs: seq<seq<string>>, nl: string)
    requires forall k :: 0 <= k < |gs| ==> gs[k] != []
    ensures Join(JoinEach(gs, nl), nl) == Join(Flatten(gs), nl)
    decreases |gs|
  {
    if |gs| > 1 {
      var g0, g := gs[..|gs| - 1], gs[|gs| - 1];
      DropLastSnoc(gs);
      JoinOfJoins(g0, nl);
      JoinEachDropLast(gs, nl);
      FlattenSnoc(g0, g);
      FlattenEmpty(g0);
      JoinAppend(Flatten(g0), g, nl);
      calc {
        Join(JoinEach(gs, nl), nl);
        Join(JoinEach(g0, nl), nl) + nl + Join(g, nl);
        Join(Flatten(g0), nl) + nl + Join(g, nl);
        Join(Flatten(g0) + g, nl);
      }
    } else if |gs| == 1 {
      assert gs[..0] == [];
      assert Flatten(gs) == gs[0];
      assert JoinEach(gs, nl) == [Join(gs[0], nl)];
    }
  }

  /** Joining the chunks with nl gives the paragraphs joined with nl: nothing is dropped, repeated or moved. */
  lemma ChunksJoin(ps: seq<string>, nl: string)
    ensures Join(Chunks(ps, nl), nl) == Join(ps, nl)
  {
    GroupsAreGreedy(ps, nl);
    JoinOfJoins(Groups(ps, nl), nl);
  }

  /** With non-empty paragraphs, no chunk is empty. */
  lemma ChunksNonEmpty(ps: seq<string>, nl: string)
    requires forall i :: 0 <= i < |ps| ==> ps[i] != ""
    ensures forall k :: 0 <= k < |Chunks(ps, nl)| ==> Chunks(ps, nl)[k] != ""
  {
    var gs := Groups(ps, nl);
    GroupsAreGreedy(ps, nl);
    forall k | 0 <= k < |gs|
      ensures Join(gs[k], nl) != ""
    {
      FlattenMember(gs, k, |gs[k]| - 1);
      JoinEndsWithLast(gs[k], nl);
    }
  }

  /** Every paragraph of every group is one of the paragraphs being grouped. */
  lemma {:induction false} FlattenMember(gs: seq<seq<string>>, k: nat, j: nat)
    requires k < |gs| && j < |gs[k]|
    ensures gs[k][j] in Flatten(gs)
    decreases |gs|
  {
    var g0 := gs[..|gs| - 1];
    if k < |gs| - 1 {
      FlattenMember(g0, k, j);
      assert g0[k] == gs[k];
    }
  }

  /** Each chunk but the last was flushed because the next chunk's first paragraph did not fit after it. */
  lemma ChunksGreedy(ps: seq<string>, nl: string)
    ensures forall k :: 0 <= k < |Groups(ps, nl)| - 1 ==>
      Groups(ps, nl)[k + 1] != [] && Utf16Length(Chunks(ps, nl)[k]) + Utf16Length(Groups(ps, nl)[k + 1][0]) > MaxChunkLength
  {
    GroupsAreGreedy(ps, nl);
  }

  /** A chunk is a single (possibly oversized) paragraph, or no longer than MaxChunkLength plus the newline. */
  lemma ChunksBounded(ps: seq<string>, nl: string)
    ensures forall k :: 0 <= k < |Chunks(ps, nl)| ==>
      |Groups(ps, nl)[k]| == 1 || Utf16Length(Chunks(ps, nl)[k]) <= MaxChunkLength + Utf16Length(nl)
  {
    var gs := Groups(ps, nl);
    GroupsAreGreedy(ps, nl);
    forall k | 0 <= k < |gs| && |gs[k]| > 1
      ensures Utf16Length(Join(gs[k], nl)) <= MaxChunkLength + Utf16Length(nl)
    {
      var g := gs[k];
      var g0 := g[..|g| - 1];
      assert Join(g, nl) == Join(g0, nl) + nl + g[|g| - 1];
      assert Utf16Length(Join(g0, nl)) + Utf16Length(g[|g| - 1]) <= MaxChunkLength by {
        assert g[..|g| - 1] == g0;
      }
      Utf16LengthConcat(Join(g0, nl) + nl, g[|g| - 1]);
      Utf16LengthConcat(Join(g0, nl), nl);
    }
  }

  /** The loop emits no chunk exactly when it is given no paragraph. */
  lemma ChunksEmptyIff(ps: seq<string>, nl: string)
    ensures Chunks(ps, nl) == [] <==> ps == []
  {
    GroupsAreGreedy(ps, nl);
    FlattenEmpty(Groups(ps, nl));
  }

  /** Running the loop over a + b is running it over a and then, from where it stopped, over b. */
  lemma {:induction false} FeedConcat(st: Packer, a: seq<string>, b: seq<string>, nl: string)
    ensures Feed(st, a + b, nl) == Feed(Feed(st, a, nl), b, nl)
    decreases |b|
  {
    if |b| == 0 {
      assert a + b == a;
    } else {
      var b0 := b[..|b| - 1];
      assert (a + b)[..|a + b| - 1] == a + b0;
      FeedConcat(st, a, b0, nl);
    }
  }

  /** The buffer text after one iteration, as the loop's StringBuilder computes it. */
  lemma BufferStep(st: Packer, p: string, nl: string)
    ensures Join(Step(st, p, nl).open, nl) ==
      if Flushes(st, p, nl) || st.open == [] then p else Join(st.open, nl) + nl + p
  {
    if !Flushes(st, p, nl) && st.open != [] {
      assert (st.open + [p])[..|st.open|] == st.open;
    }
  }
}
