/** The chunk record shared by the chunkers (`chunking/schemas.py`). */
module Chunks {
  datatype Chunk = Chunk(index: nat, text: string, charStart: nat, charEnd: nat, tokenCount: nat)

  datatype ChunkResult = Ok(chunks: seq<Chunk>) | ValueError

  /** `not text.strip()`; `space` says which characters strip removes. */
  predicate Blank(space: char -> bool, s: string) {
    forall i | 0 <= i < |s| :: space(s[i])
  }
}
