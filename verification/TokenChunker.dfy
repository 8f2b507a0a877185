/** The token chunker (`chunking/token_chunker.py`).  The tokenizer is an input:
    any encoding and any decoding function. */
module TokenChunker {
  import opened Basics
  import opened Chunks

  datatype Token = Token(id: nat)

  /** The windows start `step` tokens apart. */
  function Window(tokens: seq<Token>, size: nat, step: nat, j: nat): seq<Token>
    requires j * step <= |tokens|
  {
    tokens[j * step..Min(j * step + size, |tokens|)]
  }

  /** How many windows `n` tokens take. */
  function Count(n: nat, size: nat, step: nat): nat
    requires step > 0
  {
    if n <= size then 1 else 1 + (n - size + step - 1) / step
  }

  lemma CeilingIs(m: nat, step: nat, j: nat)
    requires step > 0 && j > 0 && (j - 1) * step < m <= j * step
    ensures (m + step - 1) / step == j
  {
    var q, r := (m + step - 1) / step, (m + step - 1) % step;
    assert m + step - 1 == q * step + r;
    assert (j - 1) * step == j * step - step && (j + 1) * step == j * step + step;
    if q < j {
      MonotoneTimes(q, j - 1, step);
    }
    if q > j {
      MonotoneTimes(j + 1, q, step);
    }
  }

  lemma MonotoneTimes(a: nat, b: nat, step: nat)
    requires a <= b
    ensures a * step <= b * step
  {
  }

  /** The chunk of the window that starts at a token: its text is the decoded window,
      and it is placed after the decoded prefix. */
  predicate IsWindowChunk(
      c: Chunk, tokens: seq<Token>, decode: seq<Token> -> string, size: nat, index: nat, at: nat)
    requires at <= |tokens|
  {
    var window := tokens[at..if at + size <= |tokens| then at + size else |tokens|];
    && c.index == index
    && c.text == decode(window)
    && c.charStart == (if at > 0 then |decode(tokens[..at])| else 0)
    && c.charEnd == c.charStart + |c.text|
    && c.tokenCount == |window|
  }

  lemma WindowsStartInside(n: nat, size: nat, step: nat, j: nat)
    requires 0 < step <= size && 0 < n && j < Count(n, size, step)
    ensures j * step < n
    ensures j + 1 < Count(n, size, step) ==> j * step + size < n
    ensures j + 1 == Count(n, size, step) ==> j * step + size >= n
  {
    if n > size {
      var q := (n - size + step - 1) / step;
      var r := (n - size + step - 1) % step;
      assert n - size + step - 1 == q * step + r && 0 <= r < step;
      if j < q {
        MonotoneTimes(j + 1, q, step);
        assert (j + 1) * step == j * step + step;
      } else {
        assert j == q && j * step == q * step;
      }
    } else {
      assert j == 0;
    }
  }

  /** The chunks are those of the first windows, which start `step` tokens apart. */
  ghost predicate AreWindows(
      tokens: seq<Token>, decode: seq<Token> -> string, size: nat, step: nat, chunks: seq<Chunk>)
  {
    forall k: nat | k < |chunks| ::
      k * step < |tokens| && IsWindowChunk(chunks[k], tokens, decode, size, k, k * step)
  }

  /** After a window there is another one, or the count is reached. */
  lemma CountOrNext(n: nat, size: nat, step: nat, j: nat)
    requires 0 < step <= size && j * step < n && (j > 0 ==> j * step - step + size < n)
    ensures (j + 1) * step == j * step + step
    ensures j * step + size >= n ==> j + 1 == Count(n, size, step)
  {
    NextStart(j + 1, step);
    if j * step + size >= n && j > 0 {
      NextStart(j, step);
      CeilingIs(n - size, step, j);
    }
  }

  /** The loop is at the start of the next window. */
  ghost predicate AtWindow(
      tokens: seq<Token>, decode: seq<Token> -> string, size: nat, step: nat, chunks: seq<Chunk>, i: nat)
  {
    && i < |tokens| && i == |chunks| * step && AreWindows(tokens, decode, size, step, chunks)
    && (chunks != [] ==> i - step + size < |tokens|)
  }

  lemma FirstWindow(tokens: seq<Token>, decode: seq<Token> -> string, size: nat, step: nat)
    requires tokens != []
    ensures AtWindow(tokens, decode, size, step, [], 0)
  {
  }

  lemma NextWindow(
      tokens: seq<Token>, decode: seq<Token> -> string, size: nat, step: nat, chunks: seq<Chunk>, i: nat,
      c: Chunk, more: seq<Chunk>)
    requires 0 < step <= size && AtWindow(tokens, decode, size, step, chunks, i)
    requires more == chunks + [c] && IsWindowChunk(c, tokens, decode, size, |chunks|, i)
    ensures AreWindows(tokens, decode, size, step, more)
    ensures i + size >= |tokens| ==> |more| == Count(|tokens|, size, step)
    ensures i + size < |tokens| ==> AtWindow(tokens, decode, size, step, more, i + step)
  {
    CountOrNext(|tokens|, size, step, |chunks|);
  }

  /** The loop of `chunk_by_tokens`. */
  method Windows(tokens: seq<Token>, decode: seq<Token> -> string, size: nat, overlap: nat) returns (chunks: seq<Chunk>)
    requires overlap < size && tokens != []
    ensures |chunks| == Count(|tokens|, size, size - overlap)
    ensures AreWindows(tokens, decode, size, size - overlap, chunks)
  {
    chunks := [];
    var step := size - overlap;
    var i := 0;
    FirstWindow(tokens, decode, size, step);
    while i < |tokens|
      invariant AtWindow(tokens, decode, size, step, chunks, i)
      decreases |tokens| - i
    {
      ghost var before := chunks;
      var window := tokens[i..Min(i + size, |tokens|)];
      var body := decode(window);
      var start := if i > 0 then |decode(tokens[..i])| else 0;
      var chunk := Chunk(|chunks|, body, start, start + |body|, |window|);
      chunks := chunks + [chunk];
      NextWindow(tokens, decode, size, step, before, i, chunk, chunks);
      if i + size >= |tokens| {
        return;
      }
      i := i + step;
    }
    assert false;
  }

  /** `chunk_by_tokens` */
  method ChunkByTokens(
      text: string, space: char -> bool, encode: string -> seq<Token>, decode: seq<Token> -> string, size: int,
      overlap: int)
    returns (result: ChunkResult)
    ensures result.ValueError? <==> size <= 0 || overlap < 0 || overlap >= size
    ensures result.Ok? && ((forall i | 0 <= i < |text| :: space(text[i])) || encode(text) == []) ==> result.chunks == []
    ensures result.Ok? && (exists i :: 0 <= i < |text| && !space(text[i])) && encode(text) != [] ==>
      var n, step := |encode(text)|, size - overlap;
      && |result.chunks| == (if n <= size then 1 else 1 + (n - size + step - 1) / step)
      && AreWindows(encode(text), decode, size, size - overlap, result.chunks)
  {
    if size <= 0 || overlap < 0 || overlap >= size {
      return ValueError;
    }
    if Blank(space, text) {
      return Ok([]);
    }
    var tokens := encode(text);
    if tokens == [] {
      return Ok([]);
    }
    var chunks := Windows(tokens, decode, size, overlap);
    result := Ok(chunks);
  }

  lemma NextStart(j: nat, step: nat)
    requires j > 0
    ensures (j - 1) * step + step == j * step
  {
  }

  /** Every window after the first repeats the `size - step` tokens of overlap
      and then goes on. */
  lemma {:induction false} LaterWindowsAreLonger(tokens: seq<Token>, size: nat, step: nat, j: nat)
    requires 0 < step <= size && tokens != [] && 0 < j < Count(|tokens|, size, step)
    ensures j * step < |tokens| && |Window(tokens, size, step, j)| > size - step
  {
    WindowsStartInside(|tokens|, size, step, j);
    WindowsStartInside(|tokens|, size, step, j - 1);
    NextStart(j, step);
  }

  /** The first `m` windows, each after the first without its overlap. */
  function Rebuilt(tokens: seq<Token>, size: nat, step: nat, m: nat): seq<Token>
    requires 0 < step <= size && tokens != [] && m <= Count(|tokens|, size, step)
  {
    if m == 0 then []
    else
      WindowsStartInside(|tokens|, size, step, m - 1);
      var w := Window(tokens, size, step, m - 1);
      if m == 1 then w
      else
        LaterWindowsAreLonger(tokens, size, step, m - 1);
        Rebuilt(tokens, size, step, m - 1) + w[size - step..]
  }

  /** Where the window before the j-th ends. */
  lemma PreviousEnd(n: nat, size: nat, step: nat, j: nat)
    requires 0 < step <= size && 0 < n && 0 < j < Count(n, size, step)
    ensures Min((j - 1) * step + size, n) == j * step + size - step < n
  {
    WindowsStartInside(n, size, step, j - 1);
    NextStart(j, step);
  }

  lemma AddWindow(tokens: seq<Token>, size: nat, step: nat, m: nat, at: nat)
    requires 0 < step <= size && tokens != [] && 1 < m <= Count(|tokens|, size, step)
    requires at == (m - 1) * step && at + size - step < |tokens|
    requires Rebuilt(tokens, size, step, m - 1) == tokens[..at + size - step]
    ensures Rebuilt(tokens, size, step, m) == tokens[..Min(at + size, |tokens|)]
  {
    LaterWindowsAreLonger(tokens, size, step, m - 1);
    Overlap(tokens, at, size, step);
  }

  lemma {:induction false} RebuiltPrefix(tokens: seq<Token>, size: nat, step: nat, m: nat)
    requires 0 < step <= size && tokens != [] && 0 < m <= Count(|tokens|, size, step)
    ensures (m - 1) * step < |tokens|
    ensures Rebuilt(tokens, size, step, m) == tokens[..Min((m - 1) * step + size, |tokens|)]
    decreases m
  {
    WindowsStartInside(|tokens|, size, step, m - 1);
    var at := (m - 1) * step;
    if m > 1 {
      RebuiltPrefix(tokens, size, step, m - 1);
      PreviousEnd(|tokens|, size, step, m - 1);
      AddWindow(tokens, size, step, m, at);
    } else {
      assert tokens[0..Min(size, |tokens|)] == tokens[..Min(size, |tokens|)];
    }
  }

  lemma Overlap(tokens: seq<Token>, at: nat, size: nat, step: nat)
    requires 0 < step <= size && at + size - step < |tokens|
    ensures tokens[..at + size - step] + tokens[at..Min(at + size, |tokens|)][size - step..]
        == tokens[..Min(at + size, |tokens|)]
  {
  }

  /** The chunks, overlaps dropped, are the token list: nothing is lost and
      nothing repeated. */
  lemma {:induction false} WindowsRebuildTokens(tokens: seq<Token>, size: nat, step: nat)
    requires 0 < step <= size && tokens != []
    ensures Rebuilt(tokens, size, step, Count(|tokens|, size, step)) == tokens
  {
    var m := Count(|tokens|, size, step);
    WindowsStartInside(|tokens|, size, step, m - 1);
    RebuiltPrefix(tokens, size, step, m);
  }

  ghost predicate Distributes(decode: seq<Token> -> string) {
    decode([]) == "" && forall a, b :: decode(a + b) == decode(a) + decode(b)
  }

  /** The offsets are exact for a decoder that distributes over concatenation. */
  lemma OffsetsExact(tokens: seq<Token>, decode: seq<Token> -> string, size: nat, step: nat, j: nat, c: Chunk)
    requires Distributes(decode) && j * step <= |tokens|
    requires IsWindowChunk(c, tokens, decode, size, j, j * step)
    ensures c.charStart <= c.charEnd <= |decode(tokens)| && decode(tokens)[c.charStart..c.charEnd] == c.text
    ensures c.text == decode(Window(tokens, size, step, j))
  {
    var i := j * step;
    var e := Min(i + size, |tokens|);
    var a, b, rest := tokens[..i], tokens[i..e], tokens[e..];
    assert tokens == a + (b + rest) && i == 0 ==> a == [];
    assert decode(tokens) == decode(a) + (decode(b) + decode(rest)) by {
      assert decode(a + (b + rest)) == decode(a) + decode(b + rest);
      assert tokens == a + (b + rest);
    }
  }
}
