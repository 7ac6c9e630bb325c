/**
 Chunk objects: each raw chunk is given the position at which it is next found in the document,
 searching from the end of the previous one.
 */
module ChunkSpans {
  import opened Text
  import opened SimpleSplit

  datatype DocumentChunk = DocumentChunk(content: string, index: nat, startChar: nat, endChar: nat, totalChunks: nat)

  function NextStart(content: string, chunk: string, pos: nat): nat {
    var found := Find(content, chunk, pos);
    if found == -1 then pos else found
  }

  /** `objects` belong to the first chunks of `chunks`, each searched for from the end of the one before. */
  ghost predicate PlacedSoFar(chunks: seq<string>, content: string, objects: seq<DocumentChunk>) {
    && |objects| <= |chunks|
    && (objects != [] ==> objects[0].startChar == NextStart(content, chunks[0], 0))
    && (forall j, k :: 0 <= j < |objects| && k == j + 1 < |objects| ==>
          objects[k].startChar == NextStart(content, chunks[k], objects[j].endChar))
    && (forall k :: 0 <= k < |objects| ==>
          objects[k] ==
            DocumentChunk(Strip(chunks[k]), k, objects[k].startChar, objects[k].startChar + |chunks[k]|, |chunks|))
  }

  ghost predicate Placed(chunks: seq<string>, content: string, objects: seq<DocumentChunk>) {
    |objects| == |chunks| && PlacedSoFar(chunks, content, objects)
  }

  /** One more chunk, found from the end of the last one. */
  lemma PlacedMore(chunks: seq<string>, content: string, objects: seq<DocumentChunk>, pos: nat)
    requires PlacedSoFar(chunks, content, objects) && |objects| < |chunks|
    requires pos == if objects == [] then 0 else objects[|objects| - 1].endChar
    ensures var i := |objects|;
            var start := NextStart(content, chunks[i], pos);
            PlacedSoFar(chunks, content,
              objects + [DocumentChunk(Strip(chunks[i]), i, start, start + |chunks[i]|, |chunks|)])
  {
  }

  method CreateChunkObjects(chunks: seq<string>, content: string) returns (objects: seq<DocumentChunk>)
    ensures Placed(chunks, content, objects)
  {
    objects := [];
    var currentPos: nat := 0;
    for i := 0 to |chunks|
      invariant |objects| == i && PlacedSoFar(chunks, content, objects)
      invariant currentPos == if i == 0 then 0 else objects[i - 1].endChar
    {
      PlacedMore(chunks, content, objects, currentPos);
      var startPos := Find(content, chunks[i], currentPos);
      if startPos == -1 {
        startPos := currentPos;
      }
      var endPos := startPos + |chunks[i]|;
      objects := objects + [DocumentChunk(Strip(chunks[i]), i, startPos, endPos, |chunks|)];
      currentPos := endPos;
    }
  }

  /** Recovered spans have their chunks' lengths, come in order and never overlap, for any chunks of any document. */
  lemma {:induction false} SpansInOrder(
    chunks: seq<string>, content: string, objects: seq<DocumentChunk>, i: nat, j: nat)
    requires Placed(chunks, content, objects) && i < j < |objects|
    ensures objects[i].endChar == objects[i].startChar + |chunks[i]| <= objects[j].startChar
  {
    if i + 1 < j {
      SpansInOrder(chunks, content, objects, i, j - 1);
    }
    assert objects[j - 1].endChar <= objects[j].startChar;
  }

  /** The end of a span leaves room for every chunk up to it. */
  lemma {:induction false} RoomForAll(chunks: seq<string>, content: string, objects: seq<DocumentChunk>, k: nat)
    requires Placed(chunks, content, objects) && k < |objects|
    ensures objects[k].startChar + TotalLength(chunks[k..]) <= objects[|objects| - 1].endChar
    decreases |objects| - k
  {
    assert chunks[k..][1..] == chunks[k + 1..];
    if k + 1 < |objects| {
      RoomForAll(chunks, content, objects, k + 1);
      assert objects[k].endChar <= objects[k + 1].startChar;
    }
  }

  /** Every span slices the document to the very chunk it was made for. */
  ghost predicate Faithful(chunks: seq<string>, content: string, objects: seq<DocumentChunk>)
    requires |objects| == |chunks|
  {
    forall k :: 0 <= k < |chunks| ==> OccursAt(content, chunks[k], objects[k].startChar)
  }

  /** The spans follow one another without a gap, from the beginning to the end of the document. */
  ghost predicate Tile(content: string, objects: seq<DocumentChunk>) {
    && (if objects == [] then content == ""
         else objects[0].startChar == 0 && objects[|objects| - 1].endChar == |content|)
    && forall k :: 0 <= k < |objects| - 1 ==> objects[k + 1].startChar == objects[k].endChar
  }

  /**
   Without overlap the search finds each chunk no later than where it was cut, and exactly there if
   nothing is skipped.
   */
  lemma {:induction false} FoundWhereCut(
    c: ChunkingConfig, text: string, chunks: seq<string>, cuts: seq<Cut>, objects: seq<DocumentChunk>, k: nat)
    requires c.chunkOverlap <= 0 && CutsFrom(c, text, 0, chunks, cuts) && Placed(chunks, text, objects) && k < |cuts|
    ensures objects[k].startChar <= cuts[k].start && OccursAt(text, chunks[k], objects[k].startChar)
    ensures c.chunkOverlap == 0 ==> objects[k].startChar == cuts[k].start
  {
    assert OccursAt(text, chunks[k], cuts[k].start);
    FindsFirst(text, chunks[k], if k == 0 then 0 else objects[k - 1].endChar);
    if k > 0 {
      FoundWhereCut(c, text, chunks, cuts, objects, k - 1);
      assert cuts[k].start == cuts[k - 1].end - c.chunkOverlap;
    }
  }

  lemma TwoChunks(c: ChunkingConfig, text: string)
    requires Validated(c) && Advances(c) && 0 < c.chunkOverlap && 0 < c.chunkSize < |text|
    ensures |Chunks(c, text, 0)| >= 2
  {
    var e := Unfold(c, text, 0);
    assert Chunks(c, text, e - c.chunkOverlap) != [];
  }

  lemma PositiveProduct(n: int, k: int)
    requires 0 < n && 0 < k
    ensures 0 < n * k
  {
  }

  /** From the end of the one before on, a chunk's span begins where it first occurs, or right there if nowhere. */
  lemma BeginsAtFirst(chunks: seq<string>, content: string, objects: seq<DocumentChunk>, k: nat)
    requires Placed(chunks, content, objects) && k < |chunks|
    ensures var pos := if k == 0 then 0 else objects[k - 1].endChar;
            var start := objects[k].startChar;
            && pos <= start && (forall i :: pos <= i < start ==> !OccursAt(content, chunks[k], i))
            && (!OccursAt(content, chunks[k], start) ==>
                  start == pos && forall i :: pos <= i ==> !OccursAt(content, chunks[k], i))
  {
    FindsFirst(content, chunks[k], if k == 0 then 0 else objects[k - 1].endChar);
  }

  /** An overlap makes the chunks longer than the document together. */
  lemma OverlapOverflows(c: ChunkingConfig, text: string, chunks: seq<string>)
    requires Validated(c) && Advances(c) && 0 < c.chunkOverlap && 0 < c.chunkSize < |text|
    requires chunks == Chunks(c, text, 0)
    ensures chunks != [] && TotalLength(chunks) > |text|
  {
    TwoChunks(c, text);
    var cuts := Chains(c, text, 0);
    TotalOfChain(c.chunkOverlap, text, chunks, cuts);
    PositiveProduct(|cuts| - 1, c.chunkOverlap);
  }

  /**
   Recovered spans are not faithful in general. On the simple path they are exactly when there is
   no positive overlap or the whole text is one chunk: with an overlap, spans that never overlap
   cannot fit the document. With overlap 0 they tile it.
   */
  lemma FaithfulExactlyWhen(c: ChunkingConfig, text: string, objects: seq<DocumentChunk>)
    requires Validated(c) && Advances(c) && 0 < c.chunkSize && Placed(Chunks(c, text, 0), text, objects)
    ensures Faithful(Chunks(c, text, 0), text, objects) <==> c.chunkOverlap <= 0 || |text| <= c.chunkSize
    ensures c.chunkOverlap == 0 ==> Tile(text, objects)
  {
    var chunks := Chunks(c, text, 0);
    var cuts := Cuts(c, text, 0);
    if c.chunkOverlap <= 0 {
      forall k | 0 <= k < |chunks| ensures OccursAt(text, chunks[k], objects[k].startChar) {
        FoundWhereCut(c, text, chunks, cuts, objects, k);
      }
      if c.chunkOverlap == 0 {
        ZeroOverlapTiles(c, text, chunks, cuts, objects);
      }
    } else if |text| <= c.chunkSize {
      assert OccursAt(text, text, 0);
      FindsFirst(text, text, 0);
    } else {
      OverlapOverflows(c, text, chunks);
      assert chunks[0..] == chunks;
      RoomForAll(chunks, text, objects, 0);
    }
  }

  lemma ZeroOverlapTiles(
    c: ChunkingConfig, text: string, chunks: seq<string>, cuts: seq<Cut>, objects: seq<DocumentChunk>)
    requires c.chunkOverlap == 0 && CutsFrom(c, text, 0, chunks, cuts) && Placed(chunks, text, objects)
    ensures Tile(text, objects)
  {
    forall k | 0 <= k < |objects| ensures objects[k].startChar == cuts[k].start && objects[k].endChar == cuts[k].end {
      FoundWhereCut(c, text, chunks, cuts, objects, k);
    }
    forall k | 0 <= k < |objects| - 1 ensures objects[k + 1].startChar == objects[k].endChar {
      assert cuts[k + 1].start == cuts[k].end;
    }
  }

  // ---- A chunk size that is not positive ----

  lemma {:induction false} PlacedExists(chunks: seq<string>, content: string, n: nat)
    returns (objects: seq<DocumentChunk>)
    requires n <= |chunks|
    ensures |objects| == n && PlacedSoFar(chunks, content, objects)
  {
    objects := [];
    if n > 0 {
      objects := PlacedExists(chunks, content, n - 1);
      var pos := if objects == [] then 0 else objects[|objects| - 1].endChar;
      PlacedMore(chunks, content, objects, pos);
      var start := NextStart(content, chunks[n - 1], pos);
      objects := objects + [DocumentChunk(Strip(chunks[n - 1]), n - 1, start, start + |chunks[n - 1]|, |chunks|)];
    }
  }

  /** With so small a size no boundary is looked for. */
  lemma NegativeStep(c: ChunkingConfig, text: string, start: nat)
    requires Validated(c) && Advances(c) && c.chunkSize <= 0 && start < |text|
    ensures 1 <= c.chunkSize - c.chunkOverlap
    ensures Chunks(c, text, start) ==
              [Slice(text, start, start + c.chunkSize)] + Chunks(c, text, start + c.chunkSize - c.chunkOverlap)
  {
    StepAdvances(c, text, start);
  }

  /** Cursors far enough from the beginning cut nothing. */
  lemma {:induction false} EmptyFrom(c: ChunkingConfig, text: string, start: nat, k: nat)
    requires Validated(c) && Advances(c) && c.chunkSize <= 0 <= start + c.chunkSize && k < |Chunks(c, text, start)|
    ensures Chunks(c, text, start)[k] == ""
    decreases k
  {
    NegativeStep(c, text, start);
    if k > 0 {
      EmptyFrom(c, text, start + c.chunkSize - c.chunkOverlap, k - 1);
    }
  }

  /** A prefix and empty chunks after it are all found. */
  lemma {:induction false} FoundEmpty(chunks: seq<string>, content: string, objects: seq<DocumentChunk>, k: nat)
    requires Placed(chunks, content, objects) && k < |chunks| && OccursAt(content, chunks[0], 0)
    requires forall j :: 0 < j < |chunks| ==> chunks[j] == ""
    ensures OccursAt(content, chunks[k], objects[k].startChar) && objects[k].endChar <= |content|
  {
    if k == 0 {
      assert Find(content, chunks[0], 0) == 0;
    } else {
      FoundEmpty(chunks, content, objects, k - 1);
      assert OccursAt(content, "", objects[k - 1].endChar);
    }
  }

  /** The second chunk wraps around to nearly the whole text, which no longer fits after the first. */
  lemma WrapsAround(c: ChunkingConfig) returns (text: string, objects: seq<DocumentChunk>)
    requires Validated(c) && Advances(c) && c.chunkSize <= 0 && 2 * c.chunkSize < c.chunkOverlap
    ensures Placed(Chunks(c, text, 0), text, objects) && !Faithful(Chunks(c, text, 0), text, objects)
  {
    var second := c.chunkSize - c.chunkOverlap;
    text := seq(second + 1 - 2 * c.chunkSize, _ => 'a');
    var chunks := Chunks(c, text, 0);
    NegativeStep(c, text, 0);
    NegativeStep(c, text, second);
    assert |chunks[0]| == |text| + c.chunkSize && |chunks[1]| == |text| + c.chunkSize;
    objects := PlacedExists(chunks, text, |chunks|);
    assert OccursAt(text, chunks[0], 0);
    assert objects[0].startChar == 0;
    assert !OccursAt(text, chunks[1], objects[1].startChar);
  }

  /**
   Then the spans of every text are faithful exactly when the overlap is at most twice the size, so
   that only the first chunk is not empty.
   */
  lemma FaithfulWithoutSizeExactlyWhen(c: ChunkingConfig)
    requires Validated(c) && Advances(c) && c.chunkSize <= 0
    ensures (forall text, objects :: Placed(Chunks(c, text, 0), text, objects) ==>
              Faithful(Chunks(c, text, 0), text, objects))
            <==> c.chunkOverlap <= 2 * c.chunkSize
  {
    if c.chunkOverlap <= 2 * c.chunkSize {
      forall text, objects | Placed(Chunks(c, text, 0), text, objects)
        ensures Faithful(Chunks(c, text, 0), text, objects)
      {
        OnlyFirstCuts(c, text, objects);
      }
    } else {
      var text, objects := WrapsAround(c);
    }
  }

  lemma OnlyFirstCuts(c: ChunkingConfig, text: string, objects: seq<DocumentChunk>)
    requires Validated(c) && Advances(c) && c.chunkSize <= 0 && c.chunkOverlap <= 2 * c.chunkSize
    requires Placed(Chunks(c, text, 0), text, objects)
    ensures Faithful(Chunks(c, text, 0), text, objects)
  {
    var chunks := Chunks(c, text, 0);
    if text != "" {
      NegativeStep(c, text, 0);
      forall j | 0 < j < |chunks| ensures chunks[j] == "" {
        EmptyFrom(c, text, c.chunkSize - c.chunkOverlap, j - 1);
      }
      assert OccursAt(text, chunks[0], 0);
      forall k | 0 <= k < |chunks| ensures OccursAt(text, chunks[k], objects[k].startChar) {
        FoundEmpty(chunks, text, objects, k);
      }
    }
  }
}
