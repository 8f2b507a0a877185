/** The paragraph chunker (`chunking/semantic_chunker.py`).  The matches of the
    blank-line pattern are an input: disjoint, in order, whitespace only. */
module ParagraphChunker {
  import opened Chunks
  import opened Packing

  predicate AreSeparators(text: string, space: char -> bool, seps: seq<Span>) {
    && InOrder(seps)
    && forall k | 0 <= k < |seps| :: seps[k].end <= |text| && Blank(space, text[seps[k].start..seps[k].end])
  }

  /** The span of a non-empty gap between separators. */
  predicate IsGap(text: string, seps: seq<Span>, s: Span) {
    && s.start < s.end <= |text|
    && (s.start == 0 || exists k | 0 <= k < |seps| :: seps[k].end == s.start)
    && (s.end == |text| || exists k | 0 <= k < |seps| :: seps[k].start == s.end)
    && forall k | 0 <= k < |seps| :: seps[k].end <= s.start || s.end <= seps[k].start
  }

  /** Paragraphs: the gaps that are not blank; every other character is blank. */
  predicate AreParagraphs(text: string, space: char -> bool, seps: seq<Span>, spans: seq<Span>) {
    && InOrder(spans)
    && (forall k | 0 <= k < |spans| :: IsGap(text, seps, spans[k]) && !Blank(space, text[spans[k].start..spans[k].end]))
    && (forall i | 0 <= i < |text| && !space(text[i]) :: Covered(spans, i))
  }

  /** Everything left of `pos` has been looked at. */
  predicate SplitUpTo(text: string, space: char -> bool, seps: seq<Span>, spans: seq<Span>, pos: nat) {
    && InOrder(spans)
    && (forall k | 0 <= k < |spans| ::
        IsGap(text, seps, spans[k]) && !Blank(space, text[spans[k].start..spans[k].end]) && spans[k].end <= pos)
    && (forall i | 0 <= i < |text| && i < pos && !space(text[i]) :: Covered(spans, i))
  }

  lemma NotInBlank(text: string, space: char -> bool, a: nat, b: nat, i: nat)
    requires a <= i < b <= |text| && Blank(space, text[a..b])
    ensures space(text[i])
  {
    assert text[a..b][i - a] == text[i];
  }

  lemma SkipGap(text: string, space: char -> bool, seps: seq<Span>, spans: seq<Span>, pos: nat, end: nat)
    requires SplitUpTo(text, space, seps, spans, pos) && pos <= end <= |text|
    requires Blank(space, text[pos..end])
    ensures SplitUpTo(text, space, seps, spans, end)
  {
    forall i | pos <= i < end
      ensures space(text[i])
    {
      NotInBlank(text, space, pos, end, i);
    }
  }

  lemma TakeGap(text: string, space: char -> bool, seps: seq<Span>, spans: seq<Span>, pos: nat, end: nat)
    requires SplitUpTo(text, space, seps, spans, pos)
    requires IsGap(text, seps, Span(pos, end)) && !Blank(space, text[pos..end])
    ensures SplitUpTo(text, space, seps, spans + [Span(pos, end)], end)
  {
    var next := spans + [Span(pos, end)];
    forall k | 0 <= k < |next|
      ensures IsGap(text, seps, next[k]) && !Blank(space, text[next[k].start..next[k].end]) && next[k].end <= end
    {
      if k < |spans| { assert next[k] == spans[k]; }
    }
    forall i: nat | i < end && !space(text[i])
      ensures Covered(next, i)
    {
      if i < pos {
        CoveredStill(spans, Span(pos, end), i);
      } else {
        assert next[|spans|].start <= i < next[|spans|].end;
      }
    }
  }

  lemma CoveredStill(spans: seq<Span>, s: Span, i: nat)
    requires Covered(spans, i)
    ensures Covered(spans + [s], i)
  {
    var k :| 0 <= k < |spans| && spans[k].start <= i < spans[k].end;
    assert (spans + [s])[k] == spans[k];
  }

  /** `_split_paragraphs`; the blank gaps are dropped as they are met rather than
      in a last pass over the list. */
  method SplitParagraphs(text: string, space: char -> bool, seps: seq<Span>) returns (spans: seq<Span>)
    requires AreSeparators(text, space, seps)
    ensures AreParagraphs(text, space, seps, spans)
  {
    spans := [];
    var pos, k := 0, 0;
    while k <= |seps|
      invariant 0 <= k <= |seps| + 1
      invariant pos == (if k == 0 then 0 else if k <= |seps| then seps[k - 1].end else |text|)
      invariant pos <= |text| && SplitUpTo(text, space, seps, spans, pos)
    {
      var end := if k < |seps| then seps[k].start else |text|;
      if Blank(space, text[pos..end]) {
        SkipGap(text, space, seps, spans, pos, end);
      } else {
        TakeGap(text, space, seps, spans, pos, end);
        spans := spans + [Span(pos, end)];
      }
      if k < |seps| {
        SkipGap(text, space, seps, spans, end, seps[k].end);
        pos := seps[k].end;
      } else {
        pos := |text|;
      }
      k := k + 1;
    }
  }

  // ----- packing

  function Join(parts: seq<string>): string {
    if parts == [] then "" else Join(parts[..|parts| - 1]) + parts[|parts| - 1]
  }

  lemma JoinTwo(parts: seq<string>, a: string, b: string)
    ensures Join(parts + [a] + [b]) == Join(parts) + a + b
  {
    assert (parts + [a])[..|parts|] == parts;
    assert (parts + [a] + [b])[..|parts| + 1] == parts + [a];
  }

  predicate Inside(text: string, runs: seq<Span>) {
    forall k | 0 <= k < |runs| :: runs[k].start <= runs[k].end <= |text|
  }

  /** One chunk for each run: the slice of the text between its offsets, with the token
      estimate max(1, length / 4). */
  predicate AreChunks(text: string, runs: seq<Span>, chunks: seq<Chunk>)
    requires Inside(text, runs)
  {
    && |chunks| == |runs|
    && forall j | 0 <= j < |chunks| ::
      && chunks[j].index == j
      && chunks[j].charStart == runs[j].start && chunks[j].charEnd == runs[j].end
      && chunks[j].text == text[runs[j].start..runs[j].end]
      && chunks[j].tokenCount == if |chunks[j].text| < 4 then 1 else |chunks[j].text| / 4
  }

  class Packer {
    const text: string
    const maxChars: nat
    var chunks: seq<Chunk>
    var open: bool             // buf_start is not None
    var bufStart: nat
    var bufEnd: nat
    var bufText: seq<string>

    constructor (text: string, maxChars: nat, ghost spans: seq<Span>)
      ensures this.text == text && this.maxChars == maxChars
      ensures Reached(spans, Progress([0], false), 0)
    {
      this.text, this.maxChars := text, maxChars;
      chunks, open, bufStart, bufEnd, bufText := [], false, 0, 0, [];
    }

    /** The buffer holds the slice of the text that its offsets name. */
    ghost predicate Buffered(run: Span)
      reads this
    {
      && open && bufStart == run.start && bufEnd == run.end && run.start <= run.end <= |text|
      && bufText != [] && Join(bufText) == text[run.start..run.end]
    }

    /** The packer has made the decisions `p` on the first `i` spans. */
    ghost predicate Reached(spans: seq<Span>, p: Progress, i: nat)
      reads this
    {
      && IsProgress(spans, maxChars, p, i) && Borders(spans, p.cuts)
      && Inside(text, Runs(spans, p.cuts)) && AreChunks(text, Runs(spans, p.cuts), chunks)
      && open == p.open
      && (open ==> Buffered(Extent(spans, p.Last(), i)))
    }

    method Append(run: Span, body: string, ghost runs: seq<Span>)
      requires run.start <= run.end <= |text| && body == text[run.start..run.end]
      requires Inside(text, runs) && AreChunks(text, runs, chunks)
      modifies this`chunks
      ensures Inside(text, runs + [run]) && AreChunks(text, runs + [run], chunks)
    {
      chunks := chunks + [Chunk(|chunks|, body, run.start, run.end, if |body| / 4 < 1 then 1 else |body| / 4)];
    }

    /** `flush` */
    method Flush(ghost spans: seq<Span>, ghost p: Progress, ghost i: nat)
      requires InOrder(spans) && Reached(spans, p, i)
      requires p.open && i < |spans| ==> spans[i].end - spans[p.Last()].start > maxChars
      modifies this`chunks, this`open, this`bufStart, this`bufEnd, this`bufText
      ensures Reached(spans, Close(p, i), i)
    {
      if !open || bufText == [] {
        return;
      }
      ghost var closed := Close(p, i);
      CloseKeeps(spans, maxChars, p, i);
      BordersOfProgress(spans, maxChars, closed, i);
      AddRun(spans, p.cuts, i);
      var run := Span(bufStart, bufEnd);
      assert run == Extent(spans, p.Last(), i);
      Append(run, Join(bufText), Runs(spans, p.cuts));
      open, bufStart, bufEnd, bufText := false, 0, 0, [];
    }

    /** A paragraph larger than the budget, on its own. */
    method EmitAlone(span: Span, ghost spans: seq<Span>, ghost p: Progress, ghost i: nat)
      requires InOrder(spans) && Reached(spans, p, i) && !p.open
      requires i < |spans| && span == spans[i] && span.end <= |text| && span.end - span.start > maxChars
      modifies this`chunks
      ensures Reached(spans, Progress(p.cuts + [i + 1], false), i + 1)
    {
      AloneKeeps(spans, maxChars, p, i);
      BordersOfProgress(spans, maxChars, Progress(p.cuts + [i + 1], false), i + 1);
      AddOneSpan(spans, p.cuts, i);
      Append(span, text[span.start..span.end], Runs(spans, p.cuts));
    }

    method StartBuffer(span: Span, ghost spans: seq<Span>, ghost p: Progress, ghost i: nat)
      requires InOrder(spans) && Reached(spans, p, i) && !p.open
      requires i < |spans| && span == spans[i] && span.end <= |text| && span.end - span.start <= maxChars
      modifies this`open, this`bufStart, this`bufEnd, this`bufText
      ensures Reached(spans, Progress(p.cuts, true), i + 1)
    {
      open, bufStart, bufEnd, bufText := true, span.start, span.end, [text[span.start..span.end]];
      assert bufText[..0] == [];
      assert Join(bufText) == "" + bufText[0];
    }

    /** Append the separator and the paragraph to the buffer. */
    method Extend(span: Span, ghost spans: seq<Span>, ghost p: Progress, ghost i: nat)
      requires InOrder(spans) && Reached(spans, p, i) && p.open
      requires i < |spans| && span == spans[i] && span.end <= |text| && span.end - bufStart <= maxChars
      modifies this`bufEnd, this`bufText
      ensures Reached(spans, p, i + 1)
    {
      assert spans[i - 1].end <= spans[i].start;
      var sep, para := text[bufEnd..span.start], text[span.start..span.end];
      JoinTwo(bufText, sep, para);
      assert text[bufStart..bufEnd] + sep + para == text[bufStart..span.end];
      bufText := bufText + [sep] + [para];
      bufEnd := span.end;
    }

    /** Flush, and then a chunk for the large paragraph. */
    method FlushAndEmit(span: Span, ghost spans: seq<Span>, ghost p: Progress, ghost i: nat)
      requires InOrder(spans) && Reached(spans, p, i)
      requires i < |spans| && span == spans[i] && span.end <= |text| && span.end - span.start > maxChars
      modifies this`chunks, this`open, this`bufStart, this`bufEnd, this`bufText
      ensures Reached(spans, Progress(Close(p, i).cuts + [i + 1], false), i + 1)
    {
      assert open ==> spans[p.Last()].end <= spans[i].start;
      Flush(spans, p, i);
      EmitAlone(span, spans, Close(p, i), i);
    }

    /** Flush, and then a new buffer. */
    method FlushAndStart(span: Span, ghost spans: seq<Span>, ghost p: Progress, ghost i: nat)
      requires InOrder(spans) && Reached(spans, p, i) && p.open
      requires i < |spans| && span == spans[i] && span.end <= |text| && span.end - span.start <= maxChars
      requires span.end - bufStart > maxChars
      modifies this`chunks, this`open, this`bufStart, this`bufEnd, this`bufText
      ensures Reached(spans, Progress(Close(p, i).cuts, true), i + 1)
    {
      Flush(spans, p, i);
      StartBuffer(span, spans, Close(p, i), i);
    }

    /** The body of the loop: one more paragraph. */
    method Add(span: Span, ghost spans: seq<Span>, ghost p: Progress, ghost i: nat)
      requires InOrder(spans) && Reached(spans, p, i)
      requires i < |spans| && span == spans[i] && span.end <= |text|
      modifies this`chunks, this`open, this`bufStart, this`bufEnd, this`bufText
      ensures Reached(spans, Advance(spans, maxChars, p, i), i + 1)
    {
      if span.end - span.start > maxChars {
        FlushAndEmit(span, spans, p, i);
      } else if !open {
        StartBuffer(span, spans, p, i);
      } else if span.end - bufStart > maxChars {
        FlushAndStart(span, spans, p, i);
      } else {
        Extend(span, spans, p, i);
      }
    }

    /** The next paragraph, and the decisions with it. */
    method Take(spans: seq<Span>, ghost p: Progress, i: nat) returns (ghost next: Progress)
      requires InOrder(spans) && Inside(text, spans) && i < |spans| && Reached(spans, p, i)
      modifies this`chunks, this`open, this`bufStart, this`bufEnd, this`bufText
      ensures Reached(spans, next, i + 1)
    {
      Add(spans[i], spans, p, i);
      next := Advance(spans, maxChars, p, i);
    }

    /** The last flush. */
    method Finish(ghost spans: seq<Span>, ghost p: Progress) returns (packed: seq<Chunk>, ghost closed: Progress)
      requires InOrder(spans) && Reached(spans, p, |spans|)
      modifies this`chunks, this`open, this`bufStart, this`bufEnd, this`bufText
      ensures IsProgress(spans, maxChars, closed, |spans|) && !closed.open && Borders(spans, closed.cuts)
      ensures Inside(text, Runs(spans, closed.cuts)) && AreChunks(text, Runs(spans, closed.cuts), packed)
    {
      Flush(spans, p, |spans|);
      closed := Close(p, |spans|);
      packed := chunks;
    }
  }

  /** `i` is in exactly one of the runs. */
  predicate InExactlyOne(runs: seq<Span>, i: nat) {
    exists j | 0 <= j < |runs| :: runs[j].start <= i < runs[j].end && OnlyIn(runs, i, j)
  }

  predicate OnlyIn(runs: seq<Span>, i: nat, j: nat) {
    forall k | 0 <= k < |runs| && k != j :: !(runs[k].start <= i < runs[k].end)
  }

  lemma CoveredOnce(runs: seq<Span>, i: nat)
    requires InOrder(runs) && Covered(runs, i)
    ensures InExactlyOne(runs, i)
  {
    var j :| 0 <= j < |runs| && runs[j].start <= i < runs[j].end;
    assert OnlyIn(runs, i, j);
  }

  /** No split of the paragraphs into runs that fit has fewer runs. */
  ghost predicate Fewest(spans: seq<Span>, budget: nat, count: nat) {
    forall cuts | IsSplit(cuts, |spans|) && AllFit(spans, budget, cuts) :: count <= |cuts| - 1
  }

  /** What the chunks over `runs` promise. */
  ghost predicate IsPacking(text: string, space: char -> bool, paragraphs: seq<Span>, budget: nat, runs: seq<Span>) {
    // the runs are apart and in order
    && InOrder(runs) && Inside(text, runs)
    // nothing but whitespace is lost or repeated
    && (forall i | 0 <= i < |text| && !space(text[i]) :: InExactlyOne(runs, i))
    // no run is blank
    && (forall r | r in runs :: exists i :: r.start <= i < r.end && !space(text[i]))
    // a run is within the budget unless it is a single paragraph
    && (forall r | r in runs :: r.end - r.start <= budget || r in paragraphs)
    // no packing needs fewer chunks
    && Fewest(paragraphs, budget, |runs|)
  }

  /** `chunk_by_paragraphs`: every chunk is the slice of the text that its offsets
      name, and together they pack the paragraphs in as few chunks as possible. */
  method ChunkByParagraphs(text: string, space: char -> bool, seps: seq<Span>, maxChars: int)
    returns (result: ChunkResult, ghost paragraphs: seq<Span>, ghost runs: seq<Span>)
    requires AreSeparators(text, space, seps)
    ensures maxChars <= 0 <==> result == ValueError
    ensures result.Ok? ==>
      && AreParagraphs(text, space, seps, paragraphs)
      && IsPacking(text, space, paragraphs, maxChars, runs)
      && |result.chunks| == |runs|
      && forall j | 0 <= j < |runs| ::
        && result.chunks[j].index == j
        && result.chunks[j].charStart == runs[j].start && result.chunks[j].charEnd == runs[j].end
        && result.chunks[j].text == text[runs[j].start..runs[j].end]
        && result.chunks[j].tokenCount == if |result.chunks[j].text| < 4 then 1 else |result.chunks[j].text| / 4
  {
    paragraphs, runs := [], [];
    if maxChars <= 0 {
      return ValueError, paragraphs, runs;
    }
    var spans := SplitParagraphs(text, space, seps);
    paragraphs := spans;
    assert Inside(text, spans) by { assert forall k | 0 <= k < |spans| :: IsGap(text, seps, spans[k]); }
    var chunks, p := Pack(text, spans, maxChars);
    runs := Runs(spans, p.cuts);
    Packed(text, space, seps, spans, maxChars, p);
    return Ok(chunks), paragraphs, runs;
  }

  /** The loop over the paragraphs and the last flush. */
  method Pack(text: string, spans: seq<Span>, budget: nat) returns (chunks: seq<Chunk>, ghost p: Progress)
    requires InOrder(spans) && Inside(text, spans)
    ensures IsProgress(spans, budget, p, |spans|) && !p.open && Borders(spans, p.cuts)
    ensures Inside(text, Runs(spans, p.cuts)) && AreChunks(text, Runs(spans, p.cuts), chunks)
  {
    var packer := new Packer(text, budget, spans);
    p := Progress([0], false);
    var i := 0;
    while i < |spans|
      invariant 0 <= i <= |spans| && packer.text == text && packer.maxChars == budget
      invariant packer.Reached(spans, p, i)
    {
      p := packer.Take(spans, p, i);
      i := i + 1;
    }
    chunks, p := packer.Finish(spans, p);
  }

  lemma Packed(text: string, space: char -> bool, seps: seq<Span>, spans: seq<Span>, budget: nat, p: Progress)
    requires AreParagraphs(text, space, seps, spans)
    requires IsProgress(spans, budget, p, |spans|) && !p.open && Borders(spans, p.cuts)
    requires Inside(text, Runs(spans, p.cuts))
    ensures IsPacking(text, space, spans, budget, Runs(spans, p.cuts))
  {
    var runs := Runs(spans, p.cuts);
    RunsInOrder(spans, p.cuts);
    RunsWithinBudget(spans, budget, p.cuts);
    RunAt(spans, p.cuts, 0);
    forall r | r in runs
      ensures exists i :: r.start <= i < r.end && !space(text[i])
    {
      var i := RunIsNotBlank(text, space, seps, spans, p.cuts, r);
    }
    forall k | 0 <= k < |text| && !space(text[k])
      ensures InExactlyOne(runs, k)
    {
      RunsCover(spans, p.cuts, k);
      CoveredOnce(runs, k);
    }
    FewestRuns(spans, budget, p);
  }

  lemma SliceHasInk(text: string, space: char -> bool, start: nat, end: nat) returns (i: nat)
    requires start <= end <= |text| && !Blank(space, text[start..end])
    ensures start <= i < end && !space(text[i])
  {
    var k :| 0 <= k < end - start && !space(text[start..end][k]);
    i := start + k;
  }

  lemma ParagraphHasInk(text: string, space: char -> bool, seps: seq<Span>, spans: seq<Span>, k: nat) returns (i: nat)
    requires AreParagraphs(text, space, seps, spans) && k < |spans|
    ensures spans[k].start <= i < spans[k].end && i < |text| && !space(text[i])
  {
    assert IsGap(text, seps, spans[k]) && !Blank(space, text[spans[k].start..spans[k].end]);
    i := SliceHasInk(text, space, spans[k].start, spans[k].end);
  }

  /** A run begins with a paragraph, which holds a character that is not white space. */
  lemma RunIsNotBlank(
      text: string, space: char -> bool, seps: seq<Span>, spans: seq<Span>, cuts: seq<nat>, r: Span) returns (i: nat)
    requires AreParagraphs(text, space, seps, spans) && Borders(spans, cuts) && cuts != []
    requires r in Runs(spans, cuts)
    ensures r.start <= i < r.end && i < |text| && !space(text[i])
  {
    var k := FirstOfRun(spans, cuts, r);
    i := ParagraphHasInk(text, space, seps, spans, k);
  }

  lemma FewestRuns(spans: seq<Span>, budget: nat, p: Progress)
    requires InOrder(spans) && IsProgress(spans, budget, p, |spans|) && !p.open
    ensures Fewest(spans, budget, |p.cuts| - 1)
  {
    forall other | IsSplit(other, |spans|) && AllFit(spans, budget, other)
      ensures |p.cuts| - 1 <= |other| - 1
    {
      FinishIsOptimal(spans, budget, p, other);
    }
  }
}
