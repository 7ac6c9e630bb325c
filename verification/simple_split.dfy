/**
 The overlap splitter: a cursor walks the text, each chunk prefers to end just after a sentence
 boundary, and the cursor steps back by the overlap. Configurations that pass validation can make
 the cursor stand still, so the loop is first modelled as the transition it is (`Step`), with
 Python's negative indices; the loop itself is `Split`, for any text on which it ends. The recursive
 `Chunks` is for the configurations under which it always does, which `TerminatesExactlyWhen` finds.
 */
module SimpleSplit {
  import opened Wrappers
  import opened Basics

  datatype ChunkingConfig = ChunkingConfig(chunkSize: int, chunkOverlap: int, maxChunkSize: int, minChunkSize: int)

  /** What the configuration's own validation accepts. */
  predicate Validated(c: ChunkingConfig) {
    c.chunkOverlap < c.chunkSize && 0 < c.minChunkSize
  }

  predicate IsBoundary(c: char) { c == '.' || c == '!' || c == '?' || c == '\n' }

  /** Distance from the cursor to the (exclusive) low end of the boundary search. */
  function Floor(c: ChunkingConfig): int { Max(c.minChunkSize, c.chunkSize - 200) }

  /** `text[i]`, which counts from the end for negative `i` and raises beyond either end. */
  function CharAt(text: string, i: int): Option<char> {
    if 0 <= i < |text| then Some(text[i])
    else if -|text| <= i < 0 then Some(text[|text| + i])
    else None
  }

  /** `text[a:b]`. */
  function Slice(text: string, a: int, b: int): string {
    var n := |text|;
    var lo := Min(Max(if a < 0 then a + n else a, 0), n);
    var hi := Min(Max(if b < 0 then b + n else b, 0), n);
    if lo <= hi then text[lo..hi] else ""
  }

  /** Negative places count from the end; one that is out of range raises as an index but is cut off in a slice. */
  lemma PlacesFromEnd(text: string, a: int, b: int)
    ensures CharAt(text, a) ==
              if !(-|text| <= a < |text|) then None else Some(text[if a < 0 then |text| + a else a])
    ensures 0 <= a <= b <= |text| ==> Slice(text, a, b) == text[a..b]
    ensures b <= a && (0 <= b || a < 0) ==> Slice(text, a, b) == ""
    ensures a < 0 ==> Slice(text, a, b) == Slice(text, if a + |text| < 0 then 0 else a + |text|, b)
    ensures b < 0 ==> Slice(text, a, b) == Slice(text, a, if b + |text| < 0 then 0 else b + |text|)
    ensures b > |text| ==> Slice(text, a, b) == Slice(text, a, |text|)
  {
  }

  /** The backward search for a boundary in `(lo, i]`: the end of the chunk, or None if an index is out of range. */
  function SearchBack(text: string, i: int, lo: int, otherwise: int): Option<int>
    decreases i - lo
  {
    if i <= lo then Some(otherwise)
    else match CharAt(text, i)
      case None => None
      case Some(ch) => if IsBoundary(ch) then Some(i + 1) else SearchBack(text, i - 1, lo, otherwise)
  }

  // ---- The loop as a transition on its cursor ----

  datatype Progress = At(start: int) | Exited | Raised

  function Step(c: ChunkingConfig, text: string, start: int): Progress {
    var end := start + c.chunkSize;
    if start >= |text| || end >= |text| then Exited
    else match SearchBack(text, end, start + Floor(c), end)
      case None => Raised
      case Some(chunkEnd) => At(chunkEnd - c.chunkOverlap)
  }

  /** Where the loop is after `n` iterations. */
  function After(c: ChunkingConfig, text: string, n: nat): Progress {
    if n == 0 then At(0)
    else match After(c, text, n - 1)
      case At(start) => Step(c, text, start)
      case p => p
  }

  ghost predicate Terminates(c: ChunkingConfig, text: string) {
    exists n: nat :: After(c, text, n) == Exited
  }

  /** The loop ends, or an index out of range raises. */
  ghost predicate Halts(c: ChunkingConfig, text: string) {
    exists n: nat :: !After(c, text, n).At?
  }

  /** What the iteration at `start` appends. */
  function Emission(c: ChunkingConfig, text: string, start: int): seq<string> {
    var end := start + c.chunkSize;
    if start >= |text| then []
    else if end >= |text| then [Slice(text, start, |text|)]
    else match SearchBack(text, end, start + Floor(c), end)
      case None => []
      case Some(chunkEnd) => [Slice(text, start, chunkEnd)]
  }

  /** The chunks appended in the first `n` iterations. */
  function Emitted(c: ChunkingConfig, text: string, n: nat): seq<string> {
    if n == 0 then []
    else match After(c, text, n - 1)
      case At(start) => Emitted(c, text, n - 1) + Emission(c, text, start)
      case _ => Emitted(c, text, n - 1)
  }

  /** The chunks of a text on which the loop ends. */
  ghost function Splits(c: ChunkingConfig, text: string): seq<string> {
    if Terminates(c, text) then
      var n :| After(c, text, n) == Exited;
      Emitted(c, text, n)
    else []
  }

  lemma {:induction false} Stays(c: ChunkingConfig, text: string, m: nat, n: nat)
    requires m <= n && !After(c, text, m).At?
    ensures After(c, text, n) == After(c, text, m) && Emitted(c, text, n) == Emitted(c, text, m)
    decreases n - m
  {
    if m < n {
      Stays(c, text, m, n - 1);
    }
  }

  lemma SplitsAt(c: ChunkingConfig, text: string, n: nat)
    requires !After(c, text, n).At?
    ensures Terminates(c, text) <==> After(c, text, n) == Exited
    ensures Terminates(c, text) ==> Splits(c, text) == Emitted(c, text, n)
  {
    if Terminates(c, text) {
      forall m: nat | After(c, text, m) == Exited
        ensures After(c, text, n) == Exited && Emitted(c, text, m) == Emitted(c, text, n)
      {
        Stays(c, text, if m <= n then m else n, if m <= n then n else m);
      }
    }
  }

  /** Every iteration moves the cursor forward. */
  predicate Advances(c: ChunkingConfig) {
    c.minChunkSize >= c.chunkSize || c.chunkOverlap <= Floor(c) + 1
  }

  /** The least distance the cursor moves in one iteration. */
  function Stride(c: ChunkingConfig): int {
    (if c.minChunkSize < c.chunkSize then Min(c.chunkSize, Floor(c) + 2) else c.chunkSize) - c.chunkOverlap
  }

  /** Where the chunk that starts at `start` ends. */
  function ChunkEnd(c: ChunkingConfig, text: string, start: nat): (r: int)
    requires 0 < c.minChunkSize && start + c.chunkSize < |text|
    ensures SearchBack(text, start + c.chunkSize, start + Floor(c), start + c.chunkSize) == Some(r)
    ensures r == start + c.chunkSize || start + Floor(c) + 2 <= r <= start + c.chunkSize + 1
    ensures c.minChunkSize >= c.chunkSize ==> r == start + c.chunkSize
  {
    SearchBackInRange(text, start + c.chunkSize, start + Floor(c), start + c.chunkSize);
    SearchBack(text, start + c.chunkSize, start + Floor(c), start + c.chunkSize).value
  }

  lemma SearchBackInRange(text: string, i: int, lo: int, otherwise: int)
    requires 0 <= lo && i < |text|
    ensures var r := SearchBack(text, i, lo, otherwise);
            r.Some? && (r.value == otherwise || lo + 2 <= r.value <= i + 1)
    ensures i <= lo ==> SearchBack(text, i, lo, otherwise) == Some(otherwise)
    decreases i - lo
  {
  }

  lemma BoundaryIs(ch: char)
    ensures IsBoundary(ch) <==> ch in ".!?\n"
  {
    assert ".!?\n" == ['.', '!', '?', '\n'];
  }

  /** The chunk ends just after the last boundary in the search window, or at full size if there is none. */
  lemma EndsAfterLastBoundary(c: ChunkingConfig, text: string, start: nat)
    requires 0 < c.minChunkSize && start + c.chunkSize < |text|
    ensures var r, end := ChunkEnd(c, text, start), start + c.chunkSize;
            var lo := if end - 200 < start + c.minChunkSize then start + c.minChunkSize else end - 200;
            || (r == end && forall i :: lo < i <= end ==> text[i] !in ".!?\n")
            || (lo < r - 1 <= end && text[r - 1] in ".!?\n" && forall i :: r <= i <= end ==> text[i] !in ".!?\n")
  {
    forall i | 0 <= i < |text| ensures IsBoundary(text[i]) <==> text[i] in ".!?\n" {
      BoundaryIs(text[i]);
    }
    SearchBackMeaning(text, start + c.chunkSize, start + Floor(c), start + c.chunkSize);
  }

  lemma {:induction false} SearchBackMeaning(text: string, from: int, lo: int, otherwise: int)
    requires 0 <= lo && from < |text|
    ensures var r := SearchBack(text, from, lo, otherwise);
            && r.Some?
            && (|| (r.value == otherwise && forall i :: lo < i <= from ==> !IsBoundary(text[i]))
                || (lo < r.value - 1 <= from && IsBoundary(text[r.value - 1])
                    && forall i :: r.value <= i <= from ==> !IsBoundary(text[i])))
    decreases from - lo
  {
    if from > lo && !IsBoundary(text[from]) {
      SearchBackMeaning(text, from - 1, lo, otherwise);
    }
  }

  /** Under `Advances`, one iteration moves a nonnegative cursor by at least the stride, which is positive. */
  lemma StepAdvances(c: ChunkingConfig, text: string, start: nat)
    requires Validated(c) && Advances(c) && start + c.chunkSize < |text|
    ensures 1 <= Stride(c)
    ensures Stride(c) <= ChunkEnd(c, text, start) - c.chunkOverlap - start
  {
  }

  /** A text whose only boundary is the first one the search can accept. */
  function Trap(c: ChunkingConfig): string
    requires Validated(c) && c.minChunkSize < c.chunkSize
  {
    seq(c.chunkSize + 1, i => if i == Floor(c) + 1 then '.' else 'a')
  }

  lemma {:induction false} TrapSearch(c: ChunkingConfig, i: int, lo: int, otherwise: int)
    requires Validated(c) && c.minChunkSize < c.chunkSize
    requires 0 <= lo < Floor(c) + 1 <= i <= c.chunkSize || (lo < 0 && lo < Floor(c) + 1 <= i <= c.chunkSize)
    ensures SearchBack(Trap(c), i, lo, otherwise) == Some(Floor(c) + 2)
    decreases i
  {
    if i != Floor(c) + 1 {
      TrapSearch(c, i - 1, lo, otherwise);
    }
  }

  /** Without `Advances`, the trap sends the cursor to one place at or before 0 and keeps it there. */
  lemma {:induction false} TrapHolds(c: ChunkingConfig, n: nat)
    requires Validated(c) && !Advances(c) && 1 <= n
    ensures After(c, Trap(c), n) == At(Floor(c) + 2 - c.chunkOverlap)
  {
    var s := if n == 1 then 0 else Floor(c) + 2 - c.chunkOverlap;
    if n > 1 {
      TrapHolds(c, n - 1);
    }
    TrapSearch(c, s + c.chunkSize, s + Floor(c), s + c.chunkSize);
  }

  /**
   Validation does not imply termination. Of the validated configurations, exactly those with
   `Advances` end on every text.
   */
  lemma TerminatesExactlyWhen(c: ChunkingConfig)
    requires Validated(c)
    ensures (forall text :: Terminates(c, text)) <==> Advances(c)
  {
    if Advances(c) {
      forall text ensures Terminates(c, text) {
        var n := RunsToExit(c, text, 0, 0);
      }
    } else {
      forall n: nat ensures After(c, Trap(c), n) != Exited {
        if n > 0 {
          TrapHolds(c, n);
        }
      }
      assert !Terminates(c, Trap(c));
    }
  }

  /** A validated configuration, and a text of 301 characters, on which the cursor never leaves 0. */
  lemma StandsStill(n: nat)
    ensures var c := ChunkingConfig(300, 102, 2000, 100);
            var text: string := seq(301, i => if i == 101 then '.' else 'a');
            Validated(c) && After(c, text, n) == At(0)
  {
    var c := ChunkingConfig(300, 102, 2000, 100);
    var text: string := seq(301, i => if i == 101 then '.' else 'a');
    assert text == Trap(c);
    if n > 0 {
      TrapHolds(c, n);
    }
  }

  // ---- What the loop returns ----

  /** The chunks cut from `start` on. */
  function Chunks(c: ChunkingConfig, text: string, start: nat): seq<string>
    requires Validated(c) && Advances(c)
    decreases |text| - start
  {
    if start >= |text| then []
    else if start + c.chunkSize >= |text| then [text[start..]]
    else
      StepAdvances(c, text, start);
      var chunkEnd := ChunkEnd(c, text, start);
      [Slice(text, start, chunkEnd)] + Chunks(c, text, chunkEnd - c.chunkOverlap)
  }

  /** What an iteration emits, and the chunks from its cursor on. */
  lemma EmissionIsChunks(c: ChunkingConfig, text: string, start: nat)
    requires Validated(c) && Advances(c)
    ensures start >= |text| || start + c.chunkSize >= |text| ==> Emission(c, text, start) == Chunks(c, text, start)
    ensures start < |text| && start + c.chunkSize < |text| ==>
              var chunkEnd := ChunkEnd(c, text, start);
              && 0 <= chunkEnd - c.chunkOverlap && Emission(c, text, start) == [Slice(text, start, chunkEnd)]
              && Chunks(c, text, start) == [Slice(text, start, chunkEnd)] + Chunks(c, text, chunkEnd - c.chunkOverlap)
  {
    if start < |text| {
      assert text[start..|text|] == text[start..];
      if start + c.chunkSize < |text| {
        StepAdvances(c, text, start);
      }
    }
  }

  lemma OneIteration(c: ChunkingConfig, text: string, n: nat, start: int)
    requires After(c, text, n) == At(start)
    ensures After(c, text, n + 1) == Step(c, text, start)
    ensures Emitted(c, text, n + 1) == Emitted(c, text, n) + Emission(c, text, start)
  {
  }

  lemma LastIteration(c: ChunkingConfig, text: string, n: nat, start: nat)
    requires Validated(c) && Advances(c) && After(c, text, n) == At(start)
    requires start >= |text| || start + c.chunkSize >= |text|
    ensures After(c, text, n + 1) == Exited
    ensures Emitted(c, text, n + 1) == Emitted(c, text, n) + Chunks(c, text, start)
  {
    EmissionIsChunks(c, text, start);
    OneIteration(c, text, n, start);
  }

  lemma NextIteration(c: ChunkingConfig, text: string, n: nat, start: nat) returns (chunk: string, next: nat)
    requires Validated(c) && Advances(c) && After(c, text, n) == At(start)
    requires start < |text| && start + c.chunkSize < |text|
    ensures After(c, text, n + 1) == At(next) && start < next
    ensures Emitted(c, text, n + 1) == Emitted(c, text, n) + [chunk]
    ensures Chunks(c, text, start) == [chunk] + Chunks(c, text, next)
  {
    EmissionIsChunks(c, text, start);
    OneIteration(c, text, n, start);
    StepAdvances(c, text, start);
    chunk, next := Slice(text, start, ChunkEnd(c, text, start)), ChunkEnd(c, text, start) - c.chunkOverlap;
  }

  /** From a cursor reached after `n` iterations the loop runs to its end, emitting the chunks from there on. */
  lemma {:induction false} RunsToExit(c: ChunkingConfig, text: string, n: nat, start: nat) returns (m: nat)
    requires Validated(c) && Advances(c) && After(c, text, n) == At(start)
    ensures After(c, text, m) == Exited && Emitted(c, text, m) == Emitted(c, text, n) + Chunks(c, text, start)
    decreases |text| - start
  {
    if start < |text| && start + c.chunkSize < |text| {
      var chunk, next := NextIteration(c, text, n, start);
      m := RunsToExit(c, text, n + 1, next);
      Regroup(Emitted(c, text, n), chunk, Chunks(c, text, next));
    } else {
      LastIteration(c, text, n, start);
      m := n + 1;
    }
  }

  lemma SplitsAreChunks(c: ChunkingConfig, text: string)
    requires Validated(c) && Advances(c)
    ensures Terminates(c, text) && Splits(c, text) == Chunks(c, text, 0)
  {
    var n := RunsToExit(c, text, 0, 0);
    SplitsAt(c, text, n);
    assert Emitted(c, text, 0) + Chunks(c, text, 0) == Chunks(c, text, 0);
  }

  /** The inner loop: look back from `end` for a boundary; None if an index is out of range. */
  method FindChunkEnd(c: ChunkingConfig, text: string, start: int) returns (chunkEnd: Option<int>)
    ensures chunkEnd == SearchBack(text, start + c.chunkSize, start + Floor(c), start + c.chunkSize)
  {
    var end := start + c.chunkSize;
    var i := end;
    while i > Max(start + c.minChunkSize, end - 200)
      invariant SearchBack(text, i, start + Floor(c), end) == SearchBack(text, end, start + Floor(c), end)
    {
      var ch := CharAt(text, i);
      if ch.None? {
        return None;
      }
      if IsBoundary(ch.value) {
        return Some(i + 1);
      }
      i := i - 1;
    }
    return Some(end);
  }

  /** The splitter's loop, on any text on which it ends or raises. */
  method Split(c: ChunkingConfig, text: string) returns (chunks: seq<string>, raised: bool)
    requires Halts(c, text)
    ensures raised <==> !Terminates(c, text)
    ensures !raised ==> chunks == Splits(c, text)
  {
    chunks := [];
    var start := 0;
    ghost var i: nat := 0;
    ghost var steps: nat :| !After(c, text, steps).At?;
    while start < |text|
      invariant i <= steps && After(c, text, i) == At(start) && chunks == Emitted(c, text, i)
      decreases steps - i
    {
      i := i + 1;
      var end := start + c.chunkSize;
      if end >= |text| {
        SplitsAt(c, text, i);
        return chunks + [Slice(text, start, |text|)], false;
      }
      var chunkEnd := FindChunkEnd(c, text, start);
      if chunkEnd.None? {
        SplitsAt(c, text, i);
        return chunks, true;
      }
      chunks := chunks + [Slice(text, start, chunkEnd.value)];
      start := chunkEnd.value - c.chunkOverlap;
    }
    SplitsAt(c, text, i + 1);
    return chunks, false;
  }

  /** The first chunk followed by each later chunk without its first `overlap` characters. */
  function Rebuild(chunks: seq<string>, overlap: int): string {
    if chunks == [] then "" else chunks[0] + RebuildRest(chunks[1..], overlap)
  }

  function RebuildRest(chunks: seq<string>, overlap: int): string {
    if chunks == [] then ""
    else Slice(chunks[0], Max(overlap, 0), |chunks[0]|) + RebuildRest(chunks[1..], overlap)
  }

  function TotalLength(chunks: seq<string>): nat {
    if chunks == [] then 0 else |chunks[0]| + TotalLength(chunks[1..])
  }

  /** One iteration's worth of `Chunks`. */
  lemma Unfold(c: ChunkingConfig, text: string, start: nat) returns (e: nat)
    requires Validated(c) && Advances(c) && 0 < c.chunkSize && start + c.chunkSize < |text|
    ensures e == ChunkEnd(c, text, start) && start < e <= |text| && e <= start + c.chunkSize + 1
    ensures start + 1 <= start + Stride(c) <= e - c.chunkOverlap
    ensures Chunks(c, text, start) == [text[start..e]] + Chunks(c, text, e - c.chunkOverlap)
  {
    StepAdvances(c, text, start);
    e := ChunkEnd(c, text, start);
  }

  /** A chunk's place in the text. */
  datatype Cut = Cut(start: nat, end: nat)

  /** `cuts` are where `chunks` were taken from, with everything the loop guarantees about them. */
  ghost predicate CutsFrom(c: ChunkingConfig, text: string, start: nat, chunks: seq<string>, cuts: seq<Cut>) {
    && |cuts| == |chunks|
    && (cuts == [] <==> start >= |text|)
    && (cuts != [] ==>
          var last := cuts[|cuts| - 1];
          && cuts[0].start == start
          && (|text| <= last.end - c.chunkOverlap || (last.end == |text| && |text| <= last.start + c.chunkSize)))
    && (forall k :: 0 <= k < |cuts| ==>
          && cuts[k].start < cuts[k].end <= |text| && cuts[k].end <= cuts[k].start + c.chunkSize + 1
          && chunks[k] == text[cuts[k].start..cuts[k].end])
    && (forall j, k :: 0 <= j < |cuts| && k == j + 1 < |cuts| ==>
          && cuts[k].start == cuts[j].end - c.chunkOverlap
          && cuts[j].start < cuts[j].start + Stride(c) <= cuts[k].start)
  }

  lemma {:induction false} Cuts(c: ChunkingConfig, text: string, start: nat) returns (cuts: seq<Cut>)
    requires Validated(c) && Advances(c) && 0 < c.chunkSize
    ensures CutsFrom(c, text, start, Chunks(c, text, start), cuts)
    decreases |text| - start
  {
    if start >= |text| {
      cuts := [];
    } else if start + c.chunkSize >= |text| {
      cuts := LastCut(c, text, start);
    } else {
      var e := Unfold(c, text, start);
      var rest := Cuts(c, text, e - c.chunkOverlap);
      cuts := [Cut(start, e)] + rest;
      CutsCons(c, text, Cut(start, e), Chunks(c, text, e - c.chunkOverlap), rest);
    }
  }

  lemma LastCut(c: ChunkingConfig, text: string, start: nat) returns (cuts: seq<Cut>)
    requires 0 < c.chunkSize && start < |text| <= start + c.chunkSize
    ensures CutsFrom(c, text, start, [text[start..]], cuts)
  {
    cuts := [Cut(start, |text|)];
    assert text[start..] == text[start..|text|];
  }

  lemma CutsCons(c: ChunkingConfig, text: string, cut: Cut, chunks: seq<string>, cuts: seq<Cut>)
    requires 0 <= cut.end - c.chunkOverlap && CutsFrom(c, text, cut.end - c.chunkOverlap, chunks, cuts)
    requires cut.start < cut.end <= |text| && cut.end <= cut.start + c.chunkSize + 1
    requires cut.start + 1 <= cut.start + Stride(c) <= cut.end - c.chunkOverlap
    ensures CutsFrom(c, text, cut.start, [text[cut.start..cut.end]] + chunks, [cut] + cuts)
  {
  }

  lemma Product(n: int, k: int)
    ensures n * k == (n - 1) * k + k
  {
  }

  lemma {:induction false} StrideSteps(c: ChunkingConfig, text: string, chunks: seq<string>, cuts: seq<Cut>, k: nat)
    requires CutsFrom(c, text, 0, chunks, cuts) && k < |cuts|
    ensures k * Stride(c) <= cuts[k].start
  {
    if k > 0 {
      StrideSteps(c, text, chunks, cuts, k - 1);
      Product(k, Stride(c));
    }
  }

  /** No chunk is empty or longer than `chunk_size + 1`, and the stride bounds their number. */
  ghost predicate Bounded(c: ChunkingConfig, text: string)
    requires Validated(c) && Advances(c)
  {
    var chunks := Chunks(c, text, 0);
    && (forall i :: 0 <= i < |chunks| ==> 0 < |chunks[i]| <= c.chunkSize + 1)
    && 1 <= Stride(c)
    && (text != "" ==> (|chunks| - 1) * Stride(c) < |text|)
  }

  lemma ChunkBounds(c: ChunkingConfig, text: string)
    requires Validated(c) && Advances(c) && 0 < c.chunkSize
    ensures Bounded(c, text)
  {
    var cuts := Cuts(c, text, 0);
    if text != "" {
      StrideSteps(c, text, Chunks(c, text, 0), cuts, |cuts| - 1);
    }
  }

  /**
   A chunk size that is not positive is accepted with a yet smaller overlap; the bounds hold for
   every text exactly when it is positive.
   */
  lemma ChunkBoundsExactlyWhen(c: ChunkingConfig)
    requires Validated(c) && Advances(c)
    ensures (forall text :: Bounded(c, text)) <==> 0 < c.chunkSize
  {
    if 0 < c.chunkSize {
      forall text ensures Bounded(c, text) {
        ChunkBounds(c, text);
      }
    } else {
      assert Chunks(c, "a", 0)[0] == "";
      assert !Bounded(c, "a");
    }
  }

  /** Places of successive chunks up to the end of the text, each from `overlap` before the end of the last. */
  predicate Chain(overlap: int, text: string, chunks: seq<string>, cuts: seq<Cut>) {
    && |cuts| == |chunks|
    && (cuts != [] ==>
          && cuts[0].start < cuts[0].end <= |text| && chunks[0] == text[cuts[0].start..cuts[0].end]
          && (if |cuts| == 1 then cuts[0].end == |text| else cuts[0].start < cuts[1].start == cuts[0].end - overlap)
          && Chain(overlap, text, chunks[1..], cuts[1..]))
  }

  lemma {:induction false} Chains(c: ChunkingConfig, text: string, start: nat) returns (cuts: seq<Cut>)
    requires Validated(c) && Advances(c) && 0 <= c.chunkOverlap
    ensures Chain(c.chunkOverlap, text, Chunks(c, text, start), cuts)
    ensures if start < |text| then cuts != [] && cuts[0].start == start else cuts == []
    decreases |text| - start
  {
    if start >= |text| {
      cuts := [];
    } else if start + c.chunkSize >= |text| {
      cuts := [Cut(start, |text|)];
      assert text[start..] == text[start..|text|];
    } else {
      var e := Unfold(c, text, start);
      var rest := Chains(c, text, e - c.chunkOverlap);
      cuts := [Cut(start, e)] + rest;
      ChainCons(c.chunkOverlap, text, Cut(start, e), Chunks(c, text, e - c.chunkOverlap), rest);
    }
  }

  lemma ChainCons(overlap: int, text: string, cut: Cut, chunks: seq<string>, cuts: seq<Cut>)
    requires Chain(overlap, text, chunks, cuts) && cut.start < cut.end <= |text|
    requires if cuts == [] then cut.end == |text| else cut.start < cuts[0].start == cut.end - overlap
    ensures Chain(overlap, text, [text[cut.start..cut.end]] + chunks, [cut] + cuts)
  {
    assert ([cut] + cuts)[1..] == cuts && ([text[cut.start..cut.end]] + chunks)[1..] == chunks;
  }

  /** The lengths add up to what is left plus one overlap for each later chunk. */
  lemma {:induction false} TotalOfChain(overlap: nat, text: string, chunks: seq<string>, cuts: seq<Cut>)
    requires Chain(overlap, text, chunks, cuts) && cuts != []
    ensures TotalLength(chunks) == |text| - cuts[0].start + (|cuts| - 1) * overlap
  {
    if |cuts| > 1 {
      TotalOfChain(overlap, text, chunks[1..], cuts[1..]);
      Product(|cuts| - 1, overlap);
    }
  }

  /** Dropping the overlap from each later chunk leaves the rest of the text. */
  lemma {:induction false} RebuildChain(overlap: nat, text: string, chunks: seq<string>, cuts: seq<Cut>)
    requires Chain(overlap, text, chunks, cuts) && cuts != []
    ensures RebuildRest(chunks[1..], overlap) == text[cuts[0].end..]
  {
    if |cuts| > 1 {
      RebuildChain(overlap, text, chunks[1..], cuts[1..]);
      DropOverlap(text, cuts[1].start, cuts[1].end, overlap);
    }
  }

  lemma DropOverlap(text: string, start: nat, end: nat, overlap: nat)
    requires start + overlap <= end <= |text|
    ensures Slice(text[start..end], overlap, end - start) + text[end..] == text[start + overlap..]
  {
    assert text[start..end][overlap..] + text[end..] == text[start + overlap..];
  }

  lemma RebuildsWhole(c: ChunkingConfig, text: string)
    requires Validated(c) && Advances(c) && 0 <= c.chunkOverlap
    ensures Rebuild(Chunks(c, text, 0), c.chunkOverlap) == text
  {
    var cuts := Chains(c, text, 0);
    if text != "" {
      RebuildChain(c.chunkOverlap, text, Chunks(c, text, 0), cuts);
      assert text[0..cuts[0].end] + text[cuts[0].end..] == text;
    }
  }

  /**
   Validation also accepts a negative overlap, which makes the splitter skip text. Of the
   configurations that end on every text, exactly those with a nonnegative overlap lose nothing.
   */
  lemma LosslessExactlyWhen(c: ChunkingConfig)
    requires Validated(c) && Advances(c)
    ensures (forall text :: Rebuild(Chunks(c, text, 0), c.chunkOverlap) == text) <==> 0 <= c.chunkOverlap
  {
    if 0 <= c.chunkOverlap {
      forall text ensures Rebuild(Chunks(c, text, 0), c.chunkOverlap) == text {
        RebuildsWhole(c, text);
      }
    } else {
      SkipsLastCharacter(c);
    }
  }

  lemma SkipsLastCharacter(c: ChunkingConfig)
    requires Validated(c) && Advances(c) && c.chunkOverlap < 0
    ensures var text: string := seq(Max(c.chunkSize, 0) + 1, _ => 'a');
            Rebuild(Chunks(c, text, 0), c.chunkOverlap) != text
  {
    var text: string := seq(Max(c.chunkSize, 0) + 1, _ => 'a');
    NoBoundary(text, c.chunkSize, Floor(c), c.chunkSize);
    assert ChunkEnd(c, text, 0) == c.chunkSize;
    var chunks := Chunks(c, text, 0);
    StepAdvances(c, text, 0);
    assert Chunks(c, text, c.chunkSize - c.chunkOverlap) == [];
    assert chunks == [Slice(text, 0, c.chunkSize)];
    assert chunks[1..] == [];
    assert |Rebuild(chunks, c.chunkOverlap)| < |text|;
  }

  lemma {:induction false} NoBoundary(text: string, i: int, lo: int, otherwise: int)
    requires 0 <= lo && i < |text| && forall k :: 0 <= k < |text| ==> !IsBoundary(text[k])
    ensures SearchBack(text, i, lo, otherwise) == Some(otherwise)
    decreases i - lo
  {
    if i > lo {
      NoBoundary(text, i - 1, lo, otherwise);
    }
  }
}
