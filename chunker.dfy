/**
 * chunk_text: cut a string into consecutive raw slices of chunk_size
 * characters, the last one possibly shorter.
 */
module Chunker {
  import opened Base

  /** chunk_text's default chunk size, the one analyze_url uses. */
  const DefaultChunkSize: nat := 512

  /** The pieces written one after another. */
  function Concat(pieces: seq<string>): string {
    if pieces == [] then "" else pieces[0] + Concat(pieces[1..])
  }

  /** The text cut into consecutive pieces of size characters, for size > 0.
      No piece is empty or longer than size; all but the last have exactly size characters; and their
      number c is the least with c * size >= |text| (so empty text has none). */
  function Chunks(text: string, size: nat): (r: seq<string>)
    requires size > 0
    ensures forall i :: 0 <= i < |r| ==> 0 < |r[i]| <= size
    ensures forall i :: 0 <= i < |r| - 1 ==> |r[i]| == size
    ensures |text| > 0 <==> |r| > 0
    decreases |text|
  {
    if |text| == 0 then []
    else if |text| <= size then [text]
    else
      [text[..size]] + Chunks(text[size..], size)
  }

  /** chunk_text(text, chunk_size) for any integer chunk size: range() raises
      ValueError for a zero step (None here) and is empty for a negative step. */
  function ChunkText(text: string, chunkSize: int): (r: Option<seq<string>>)
    ensures r.None? <==> chunkSize == 0
    ensures chunkSize < 0 ==> r == Some([])
    ensures chunkSize > 0 ==> r.Some? && Concat(r.value) == text
  {
    if chunkSize == 0 then None
    else if chunkSize < 0 then Some([])
    else
      ChunksConcat(text, chunkSize);
      Some(Chunks(text, chunkSize))
  }

  /** Round trip: the chunks written one after another are the text. */
  lemma {:induction false} ChunksConcat(text: string, size: nat)
    requires size > 0
    ensures Concat(Chunks(text, size)) == text
    decreases |text|
  {
    if |text| > size {
      var rest := Chunks(text[size..], size);
      ChunksConcat(text[size..], size);
      assert ([text[..size]] + rest)[1..] == rest;
      assert text == text[..size] + text[size..];
    }
  }

  /** Chunk k is exactly the slice text[k*size : (k+1)*size], clamped to the
      end of the text, as the comprehension's index arithmetic says. */
  lemma ChunkOffsets(text: string, size: nat, k: nat)
    requires size > 0 && k < |Chunks(text, size)|
    ensures k * size < |text|
    ensures Chunks(text, size)[k] == text[k * size..Min(k * size + size, |text|)]
  {
    ChunkAt(text, size, k);
    StartIsProduct(k, size);
  }

  /** The number of chunks c is ceil(|text| / size): the least c with
      c * size >= |text|. */
  lemma ChunkCount(text: string, size: nat)
    requires size > 0
    ensures |Chunks(text, size)| * size >= |text|
    ensures |Chunks(text, size)| > 0 ==> (|Chunks(text, size)| - 1) * size < |text|
  {
    var c := |Chunks(text, size)|;
    if c > 0 {
      ChunkAt(text, size, c - 1);
      StartIsProduct(c - 1, size);
      assert c * size == (c - 1) * size + size;
    }
  }

  /** With the default size, the count is ceil(|text| / 512) in Dafny's
      integer division. */
  lemma DefaultChunkCount(text: string)
    ensures |Chunks(text, DefaultChunkSize)| == (|text| + DefaultChunkSize - 1) / DefaultChunkSize
  {
    ChunkCount(text, DefaultChunkSize);
  }

  /** The start index of chunk k: size added k times. */
  function Start(k: nat, size: nat): nat {
    if k == 0 then 0 else Start(k - 1, size) + size
  }

  lemma {:induction false} StartIsProduct(k: nat, size: nat)
    ensures Start(k, size) == k * size
  {
    if k > 0 {
      StartIsProduct(k - 1, size);
      assert k * size == (k - 1) * size + size;
    }
  }

  lemma {:induction false} ChunkAt(text: string, size: nat, k: nat)
    requires size > 0 && k < |Chunks(text, size)|
    ensures Start(k, size) < |text|
    ensures k == |Chunks(text, size)| - 1 ==> Start(k, size) + size >= |text|
    ensures Chunks(text, size)[k] == text[Start(k, size)..Min(Start(k, size) + size, |text|)]
    decreases k
  {
    if k > 0 {
      var tail := text[size..];
      ChunksTail(text, size, k);
      ChunkAt(tail, size, k - 1);
      var off := Start(k - 1, size);
      var end := Min(off + size, |tail|);
      assert |text| == |tail| + size;
      if off + size <= |tail| {
        assert end == off + size;
      } else {
        assert end == |tail|;
      }
      SliceOfDrop(text, size, off, end);
    }
  }

  lemma ChunksTail(text: string, size: nat, k: nat)
    requires size > 0 && 0 < k < |Chunks(text, size)|
    ensures |text| > size
    ensures |Chunks(text[size..], size)| == |Chunks(text, size)| - 1
    ensures Chunks(text, size)[k] == Chunks(text[size..], size)[k - 1]
  {
  }

  lemma SliceOfDrop(text: string, d: nat, lo: nat, hi: nat)
    requires d <= |text| && lo <= hi <= |text| - d
    ensures text[d..][lo..hi] == text[lo + d..hi + d]
  {
  }
}
