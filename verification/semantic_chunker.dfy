/**
 The semantic chunker: split on structure, pack sections up to the chunk size, hand oversized
 sections to a language model, fall back to the overlap splitter. Where a pattern matches and what
 the model replies are parameters: any matches, and any string or none.
 */
module SemanticChunker {
  import opened Wrappers
  import opened Basics
  import opened Text
  import opened SimpleSplit
  import opened ChunkSpans

  /** Where a match of the `i`-th pattern at a position of a text ends; there is none if not beyond the position. */
  type Matcher = (nat, string, nat) -> nat

  /** The model's reply for the `i`-th section; None stands for a timeout or any other exception. */
  type Model = (nat, string) -> Option<string>

  const PATTERNS: nat := 6
  const GAP: string := "\n\n"
  const MARKER: string := "---CHUNK---"
  const MAX_SEMANTIC: nat := 500000
  const MAX_MODEL_INPUT: nat := 20000

  function Concat(parts: seq<string>): string {
    if parts == [] then "" else parts[0] + Concat(parts[1..])
  }

  lemma {:induction false} ConcatAppend(a: seq<string>, b: seq<string>)
    ensures Concat(a + b) == Concat(a) + Concat(b)
  {
    if a == [] {
      assert a + b == b;
    } else {
      assert (a + b)[1..] == a[1..] + b;
      ConcatAppend(a[1..], b);
    }
  }

  // ---- _split_on_structure ----

  function NonBlank(parts: seq<string>): seq<string> {
    if parts == [] then []
    else (if Strip(parts[0]) == "" then [] else [parts[0]]) + NonBlank(parts[1..])
  }

  function MatchEnd(m: Matcher, i: nat, text: string, at: nat): (e: nat)
    requires at < |text|
    ensures e == 0 || at < e <= |text|
  {
    var e := m(i, text, at);
    if at < e <= |text| then e else 0
  }

  /**
   `re.split("(pattern i)", text)`, from a part begun at `start` and a scan come to `at`: the parts
   with the matches between them.
   */
  function Parts(m: Matcher, i: nat, text: string, start: nat, at: nat): seq<string>
    requires start <= at <= |text|
    decreases |text| - at
  {
    if at == |text| then [text[start..]]
    else
      var e := MatchEnd(m, i, text, at);
      if e == 0 then Parts(m, i, text, start, at + 1)
      else [text[start..at]] + ([text[at..e]] + Parts(m, i, text, e, e))
  }

  /** Whatever the pattern, splitting with the separators kept loses no character. */
  lemma {:induction false} PartsKeepText(m: Matcher, i: nat, text: string, start: nat, at: nat)
    requires start <= at <= |text|
    ensures Concat(Parts(m, i, text, start, at)) == text[start..]
    decreases |text| - at
  {
    if at == |text| {
      ConcatOne(text[start..]);
    } else {
      var e := MatchEnd(m, i, text, at);
      if e == 0 {
        PartsKeepText(m, i, text, start, at + 1);
      } else {
        PartsKeepText(m, i, text, e, e);
        ConcatCons(text[at..e], Parts(m, i, text, e, e));
        ConcatCons(text[start..at], [text[at..e]] + Parts(m, i, text, e, e));
        assert text[at..e] + text[e..] == text[at..];
        assert text[start..at] + text[at..] == text[start..];
      }
    }
  }

  lemma ConcatCons(part: string, parts: seq<string>)
    ensures Concat([part] + parts) == part + Concat(parts)
  {
    assert ([part] + parts)[1..] == parts;
  }

  function SplitAll(m: Matcher, i: nat, sections: seq<string>): seq<string> {
    if sections == [] then [] else NonBlank(Parts(m, i, sections[0], 0, 0)) + SplitAll(m, i, sections[1..])
  }

  /** The sections after patterns `0..n`. */
  function Sections(m: Matcher, content: string, n: nat): seq<string> {
    if n == 0 then [content] else SplitAll(m, n - 1, Sections(m, content, n - 1))
  }

  method SplitOnStructure(m: Matcher, content: string) returns (sections: seq<string>)
    ensures sections == Sections(m, content, PATTERNS)
  {
    sections := [content];
    for i := 0 to PATTERNS
      invariant sections == Sections(m, content, i)
    {
      var newSections := [];
      for j := 0 to |sections|
        invariant newSections + SplitAll(m, i, sections[j..]) == SplitAll(m, i, sections)
      {
        assert sections[j..][1..] == sections[j + 1..];
        var parts := Parts(m, i, sections[j], 0, 0);
        Reassociate(newSections, NonBlank(parts), SplitAll(m, i, sections[j + 1..]));
        newSections := newSections + NonBlank(parts);
      }
      sections := newSections;
    }
  }

  lemma {:induction false} NonBlankInk(parts: seq<string>)
    ensures Ink(Concat(NonBlank(parts))) == Ink(Concat(parts))
  {
    if parts != [] {
      NonBlankInk(parts[1..]);
      InkConcat(parts[0], Concat(parts[1..]));
      if Strip(parts[0]) == "" {
        InkStrip(parts[0]);
        assert NonBlank(parts) == NonBlank(parts[1..]);
      } else {
        InkConcat(parts[0], Concat(NonBlank(parts[1..])));
        assert NonBlank(parts)[1..] == NonBlank(parts[1..]);
      }
    }
  }

  ghost predicate NoneBlank(parts: seq<string>) { forall k :: 0 <= k < |parts| ==> Strip(parts[k]) != "" }

  lemma {:induction false} NonBlankIsNoneBlank(parts: seq<string>)
    ensures NoneBlank(NonBlank(parts))
  {
    if parts != [] {
      NonBlankIsNoneBlank(parts[1..]);
    }
  }

  lemma {:induction false} SplitAllNotBlank(m: Matcher, i: nat, sections: seq<string>)
    ensures NoneBlank(SplitAll(m, i, sections))
  {
    if sections != [] {
      NonBlankIsNoneBlank(Parts(m, i, sections[0], 0, 0));
      SplitAllNotBlank(m, i, sections[1..]);
    }
  }

  lemma {:induction false} SplitAllInk(m: Matcher, i: nat, sections: seq<string>)
    ensures Ink(Concat(SplitAll(m, i, sections))) == Ink(Concat(sections))
  {
    if sections != [] {
      var parts := Parts(m, i, sections[0], 0, 0);
      var rest := SplitAll(m, i, sections[1..]);
      PartsKeepText(m, i, sections[0], 0, 0);
      SplitAllInk(m, i, sections[1..]);
      NonBlankInk(parts);
      ConcatAppend(NonBlank(parts), rest);
      InkConcat(Concat(NonBlank(parts)), Concat(rest));
      InkConcat(sections[0], Concat(sections[1..]));
    }
  }

  lemma ConcatOne(s: string)
    ensures Concat([s]) == s
  {
    assert [s][1..] == [] && s + "" == s;
  }

  /** Splitting on structure keeps every character but white space, in order. */
  lemma {:induction false} SectionsInk(m: Matcher, content: string, n: nat)
    ensures Ink(Concat(Sections(m, content, n))) == Ink(content)
  {
    if n == 0 {
      ConcatOne(content);
    } else {
      SectionsInk(m, content, n - 1);
      SplitAllInk(m, n - 1, Sections(m, content, n - 1));
    }
  }

  /** It yields no blank section. */
  lemma SectionsNotBlank(m: Matcher, content: string, n: nat)
    requires n > 0
    ensures NoneBlank(Sections(m, content, n))
  {
    SplitAllNotBlank(m, n - 1, Sections(m, content, n - 1));
  }

  // ---- _is_tabular_data and _split_long_section ----

  /** `s.split(sep)`. */
  function SplitOn(s: string, sep: string): seq<string>
    requires sep != ""
    decreases |s|
  {
    var i := Find(s, sep, 0);
    if i == -1 then [s] else [s[..i]] + SplitOn(s[i + |sep|..], sep)
  }

  function Count(s: string, c: char): nat {
    if s == "" then 0 else (if s[0] == c then 1 else 0) + Count(s[1..], c)
  }

  function TotalCount(lines: seq<string>, c: char): nat {
    if lines == [] then 0 else Count(lines[0], c) + TotalCount(lines[1..], c)
  }

  /** At least three tabs, or three commas, a line on average over the nonblank ones of the first ten lines. */
  predicate IsTabular(text: string) {
    var all := SplitOn(text, "\n");
    var lines := NonBlank(if |all| <= 10 then all else all[..10]);
    |all| >= 2 && lines != [] && (TotalCount(lines, '\t') >= 3 * |lines| || TotalCount(lines, ',') >= 3 * |lines|)
  }

  /** The stripped parts of a reply whose length is within the configured bounds. */
  function ValidParts(c: ChunkingConfig, parts: seq<string>): seq<string> {
    if parts == [] then []
    else
      var p := Strip(parts[|parts| - 1]);
      ValidParts(c, parts[..|parts| - 1]) + if c.minChunkSize <= |p| <= c.maxChunkSize then [p] else []
  }

  /** Whether a long section goes to the overlap splitter rather than being cut by the model's reply. */
  predicate NeedsSplitter(c: ChunkingConfig, section: string, reply: Option<string>) {
    IsTabular(section) || |section| > MAX_MODEL_INPUT || reply.None?
      || ValidParts(c, SplitOn(reply.value, MARKER)) == []
  }

  ghost function SplitLong(c: ChunkingConfig, section: string, reply: Option<string>): seq<string> {
    if NeedsSplitter(c, section, reply) then Splits(c, section) else ValidParts(c, SplitOn(reply.value, MARKER))
  }

  // ---- _semantic_chunk ----

  /** What the packing loop has emitted, and the chunk it is filling. */
  datatype Packing = Packing(chunks: seq<string>, current: string) {
    function Flush(): seq<string> {
      if current == "" then chunks else chunks + [Strip(current)]
    }
  }

  function Potential(packing: Packing, section: string): string {
    if packing.current == "" then section else packing.current + GAP + section
  }

  /** How the `i`-th section is cut if it is too long. */
  type Cutter = (nat, string) -> seq<string>

  ghost function ByModel(c: ChunkingConfig, model: Model): Cutter {
    (i: nat, section: string) => SplitLong(c, section, model(i, section))
  }

  /** `pieces` is what the section is cut into if it is too long. */
  function PackOne(c: ChunkingConfig, packing: Packing, section: string, pieces: seq<string>): Packing {
    var potential := Potential(packing, section);
    if |potential| <= c.chunkSize then packing.(current := potential)
    else if |section| > c.maxChunkSize then Packing(packing.Flush() + pieces, "")
    else Packing(packing.Flush(), section)
  }

  /** The packing after the first `n` sections. */
  function PackFirst(c: ChunkingConfig, cut: Cutter, sections: seq<string>, n: nat): Packing
    requires n <= |sections|
  {
    if n == 0 then Packing([], "")
    else PackOne(c, PackFirst(c, cut, sections, n - 1), sections[n - 1], cut(n - 1, sections[n - 1]))
  }

  /** The packed chunks, before the minimum-size filter. */
  function Packed(c: ChunkingConfig, cut: Cutter, sections: seq<string>): seq<string> {
    PackFirst(c, cut, sections, |sections|).Flush()
  }

  /** The section is handed to the overlap splitter. */
  predicate IsHanded(c: ChunkingConfig, packing: Packing, section: string, reply: Option<string>) {
    |Potential(packing, section)| > c.chunkSize && |section| > c.maxChunkSize && NeedsSplitter(c, section, reply)
  }

  /** So is the `k`-th of all the sections. */
  ghost predicate Handed(c: ChunkingConfig, model: Model, sections: seq<string>, k: nat)
    requires k < |sections|
  {
    IsHanded(c, PackFirst(c, ByModel(c, model), sections, k), sections[k], model(k, sections[k]))
  }

  ghost predicate HaltsAt(c: ChunkingConfig, model: Model, sections: seq<string>, k: nat)
    requires k < |sections|
  {
    Handed(c, model, sections, k) ==> Halts(c, sections[k])
  }

  /** Every section handed to the overlap splitter is one on which its loop ends or raises. */
  ghost predicate AllHalt(c: ChunkingConfig, model: Model, sections: seq<string>) {
    forall k :: 0 <= k < |sections| ==> HaltsAt(c, model, sections, k)
  }

  /** Of the first `n` sections, some are handed to it and make it raise. */
  ghost predicate SomeRaise(c: ChunkingConfig, model: Model, sections: seq<string>, n: nat)
    requires n <= |sections|
  {
    n > 0
    && (SomeRaise(c, model, sections, n - 1)
        || (Handed(c, model, sections, n - 1) && !Terminates(c, sections[n - 1])))
  }

  lemma {:induction false} RaisesLater(c: ChunkingConfig, model: Model, sections: seq<string>, n: nat, k: nat)
    requires k <= n <= |sections|
    ensures SomeRaise(c, model, sections, k) ==> SomeRaise(c, model, sections, n)
    decreases n - k
  {
    if k < n {
      RaisesLater(c, model, sections, n - 1, k);
    }
  }

  function LongEnough(c: ChunkingConfig, chunks: seq<string>): seq<string> {
    if chunks == [] then []
    else (if |Strip(chunks[0])| >= c.minChunkSize then [chunks[0]] else []) + LongEnough(c, chunks[1..])
  }

  ghost function SemanticChunks(c: ChunkingConfig, m: Matcher, model: Model, content: string): seq<string> {
    LongEnough(c, Packed(c, ByModel(c, model), Sections(m, content, PATTERNS)))
  }

  ghost predicate SectionsHalt(c: ChunkingConfig, m: Matcher, model: Model, content: string) {
    var sections := Sections(m, content, PATTERNS);
    AllHalt(c, model, sections)
  }

  ghost predicate SectionsRaise(c: ChunkingConfig, m: Matcher, model: Model, content: string) {
    var sections := Sections(m, content, PATTERNS);
    SomeRaise(c, model, sections, |sections|)
  }

  method SemanticChunk(c: ChunkingConfig, m: Matcher, model: Model, content: string)
    returns (chunks: seq<string>, raised: bool)
    requires SectionsHalt(c, m, model, content)
    ensures raised <==> SectionsRaise(c, m, model, content)
    ensures !raised ==> chunks == SemanticChunks(c, m, model, content)
  {
    var sections := SplitOnStructure(m, content);
    chunks := [];
    var current := "";
    for i := 0 to |sections|
      invariant Packing(chunks, current) == PackFirst(c, ByModel(c, model), sections, i)
      invariant !SomeRaise(c, model, sections, i)
    {
      NextSection(c, model, sections, i, Packing(chunks, current));
      chunks, current, raised := AddSection(c, chunks, current, sections[i], model(i, sections[i]));
      if raised {
        RaisesLater(c, model, sections, |sections|, i + 1);
        return;
      }
    }
    if current != "" {
      chunks := chunks + [Strip(current)];
    }
    return LongEnough(c, chunks), false;
  }

  lemma NextSection(c: ChunkingConfig, model: Model, sections: seq<string>, i: nat, packing: Packing)
    requires i < |sections| && packing == PackFirst(c, ByModel(c, model), sections, i)
    requires AllHalt(c, model, sections) && !SomeRaise(c, model, sections, i)
    ensures IsHanded(c, packing, sections[i], model(i, sections[i])) ==> Halts(c, sections[i])
    ensures SomeRaise(c, model, sections, i + 1) <==>
              IsHanded(c, packing, sections[i], model(i, sections[i])) && !Terminates(c, sections[i])
    ensures PackFirst(c, ByModel(c, model), sections, i + 1)
              == PackOne(c, packing, sections[i], SplitLong(c, sections[i], model(i, sections[i])))
  {
    assert HaltsAt(c, model, sections, i);
    HandedNext(c, model, sections, i, packing);
    PackNext(c, ByModel(c, model), sections, i);
  }

  lemma HandedNext(c: ChunkingConfig, model: Model, sections: seq<string>, i: nat, packing: Packing)
    requires i < |sections| && packing == PackFirst(c, ByModel(c, model), sections, i)
    ensures Handed(c, model, sections, i) <==> IsHanded(c, packing, sections[i], model(i, sections[i]))
    ensures SomeRaise(c, model, sections, i + 1) <==>
              SomeRaise(c, model, sections, i) || (Handed(c, model, sections, i) && !Terminates(c, sections[i]))
  {
  }

  lemma PackNext(c: ChunkingConfig, cut: Cutter, sections: seq<string>, i: nat)
    requires i < |sections|
    ensures PackFirst(c, cut, sections, i + 1) ==
              PackOne(c, PackFirst(c, cut, sections, i), sections[i], cut(i, sections[i]))
  {
  }

  /** The body of the loop. */
  method AddSection(c: ChunkingConfig, before: seq<string>, filling: string, section: string, reply: Option<string>)
    returns (chunks: seq<string>, current: string, raised: bool)
    requires IsHanded(c, Packing(before, filling), section, reply) ==> Halts(c, section)
    ensures raised <==> IsHanded(c, Packing(before, filling), section, reply) && !Terminates(c, section)
    ensures !raised ==>
              Packing(chunks, current) == PackOne(c, Packing(before, filling), section, SplitLong(c, section, reply))
  {
    chunks, current, raised := before, filling, false;
    var potential := if current != "" then current + GAP + section else section;
    if |potential| <= c.chunkSize {
      current := potential;
    } else {
      if current != "" {
        chunks := chunks + [Strip(current)];
        current := "";
      }
      if |section| > c.maxChunkSize {
        var subChunks, failed := SplitLongSection(c, section, reply);
        chunks, raised := chunks + subChunks, failed;
      } else {
        current := section;
      }
    }
  }

  method SplitLongSection(c: ChunkingConfig, section: string, reply: Option<string>)
    returns (chunks: seq<string>, raised: bool)
    requires NeedsSplitter(c, section, reply) ==> Halts(c, section)
    ensures raised <==> NeedsSplitter(c, section, reply) && !Terminates(c, section)
    ensures !raised ==> chunks == SplitLong(c, section, reply)
  {
    if !IsTabular(section) && |section| <= MAX_MODEL_INPUT && reply.Some? {
      chunks := KeepValid(c, SplitOn(reply.value, MARKER));
      if chunks != [] {
        return chunks, false;
      }
    }
    chunks, raised := Split(c, section);
  }

  method KeepValid(c: ChunkingConfig, parts: seq<string>) returns (valid: seq<string>)
    ensures valid == ValidParts(c, parts)
  {
    valid := [];
    for i := 0 to |parts|
      invariant valid == ValidParts(c, parts[..i])
    {
      assert parts[..i + 1][..i] == parts[..i];
      var chunk := Strip(parts[i]);
      if c.minChunkSize <= |chunk| <= c.maxChunkSize {
        valid := valid + [chunk];
      }
    }
    assert parts[..|parts|] == parts;
  }

  // ---- Bounds, for any structure and any replies ----

  function Bound(c: ChunkingConfig): int { Max(c.chunkSize + 1, c.maxChunkSize) }

  ghost predicate AllWithin(chunks: seq<string>, bound: int) {
    forall k :: 0 <= k < |chunks| ==> |chunks[k]| <= bound
  }

  lemma {:induction false} ValidPartsWithin(c: ChunkingConfig, parts: seq<string>)
    ensures forall k :: 0 <= k < |ValidParts(c, parts)| ==>
              c.minChunkSize <= |ValidParts(c, parts)[k]| <= c.maxChunkSize
  {
    if parts != [] {
      ValidPartsWithin(c, parts[..|parts| - 1]);
    }
  }

  /** With a size of 0 every chunk is empty, with a positive one `ChunkBounds` holds. */
  lemma SplitsWithin(c: ChunkingConfig, text: string)
    requires Validated(c) && Advances(c) && 0 <= c.chunkSize
    ensures AllWithin(Splits(c, text), c.chunkSize + 1)
  {
    SplitsAreChunks(c, text);
    if c.chunkSize == 0 {
      forall k | 0 <= k < |Chunks(c, text, 0)| ensures Chunks(c, text, 0)[k] == "" {
        EmptyFrom(c, text, 0, k);
      }
    } else {
      ChunkBounds(c, text);
    }
  }

  lemma SplitLongWithin(c: ChunkingConfig, section: string, reply: Option<string>)
    requires Validated(c) && Advances(c) && 0 <= c.chunkSize
    ensures AllWithin(SplitLong(c, section, reply), Bound(c))
  {
    SplitsWithin(c, section);
    if reply.Some? {
      ValidPartsWithin(c, SplitOn(reply.value, MARKER));
    }
  }

  ghost predicate CutsWithin(c: ChunkingConfig, cut: Cutter) {
    forall i: nat, section :: AllWithin(cut(i, section), Bound(c))
  }

  ghost predicate PackingWithin(packing: Packing, bound: int) {
    AllWithin(packing.chunks, bound) && |packing.current| <= bound
  }

  lemma PackOneWithin(c: ChunkingConfig, packing: Packing, section: string, pieces: seq<string>)
    requires PackingWithin(packing, Bound(c)) && AllWithin(pieces, Bound(c))
    ensures PackingWithin(PackOne(c, packing, section, pieces), Bound(c))
  {
    StripShorter(packing.current);
  }

  lemma {:induction false} PackFirstWithin(c: ChunkingConfig, cut: Cutter, sections: seq<string>, n: nat)
    requires n <= |sections| && CutsWithin(c, cut) && 0 <= Bound(c)
    ensures PackingWithin(PackFirst(c, cut, sections, n), Bound(c))
  {
    if n > 0 {
      PackFirstWithin(c, cut, sections, n - 1);
      PackOneWithin(c, PackFirst(c, cut, sections, n - 1), sections[n - 1], cut(n - 1, sections[n - 1]));
    }
  }

  lemma StripShorter(s: string)
    ensures |Strip(s)| <= |s|
  {
    var a, b := StripCuts(s);
  }

  lemma {:induction false} LongEnoughKeeps(c: ChunkingConfig, chunks: seq<string>, bound: int)
    requires AllWithin(chunks, bound)
    ensures AllWithin(LongEnough(c, chunks), bound)
    ensures NoneShort(c, LongEnough(c, chunks))
  {
    if chunks != [] {
      LongEnoughKeeps(c, chunks[1..], bound);
    }
  }

  /** Every chunk is between the minimum size and the larger of `chunk_size + 1` and `max_chunk_size`. */
  ghost predicate InBounds(c: ChunkingConfig, chunks: seq<string>) {
    AllWithin(chunks, Bound(c)) && NoneShort(c, chunks)
  }

  lemma PackedWithin(c: ChunkingConfig, cut: Cutter, sections: seq<string>)
    requires CutsWithin(c, cut) && 0 <= Bound(c)
    ensures InBounds(c, LongEnough(c, Packed(c, cut, sections)))
  {
    PackFirstWithin(c, cut, sections, |sections|);
    StripShorter(PackFirst(c, cut, sections, |sections|).current);
    LongEnoughKeeps(c, Packed(c, cut, sections), Bound(c));
  }

  lemma SemanticChunksWithin(c: ChunkingConfig, m: Matcher, model: Model, content: string)
    requires Validated(c) && Advances(c) && 0 <= c.chunkSize
    ensures InBounds(c, SemanticChunks(c, m, model, content))
  {
    var sections, cut := Sections(m, content, PATTERNS), ByModel(c, model);
    forall i: nat, section ensures AllWithin(cut(i, section), Bound(c)) {
      SplitLongWithin(c, section, model(i, section));
    }
    PackedWithin(c, cut, sections);
  }

  /**
   Whatever matches and whatever the model replies, the semantic chunks keep these bounds: exactly
   when the chunk size is not negative.
   */
  lemma SemanticChunksWithinExactlyWhen(c: ChunkingConfig)
    requires Validated(c) && Advances(c)
    ensures (forall m: Matcher, model: Model, content :: InBounds(c, SemanticChunks(c, m, model, content))) <==>
              0 <= c.chunkSize
  {
    if 0 <= c.chunkSize {
      forall m: Matcher, model: Model, content ensures InBounds(c, SemanticChunks(c, m, model, content)) {
        SemanticChunksWithin(c, m, model, content);
      }
    } else {
      SemanticTooLong(c);
    }
  }

  const NO_MATCH: Matcher := (i, text, at) => 0

  /** A text whose first piece, cut off from the end by a negative size, is still over the bound. */
  function Endless(c: ChunkingConfig): string
    requires c.chunkSize < 0
  {
    seq(Max(c.maxChunkSize, 0) + Max(c.minChunkSize, 0) + 1 - c.chunkSize, _ => 'a')
  }

  lemma StripLetters(s: string)
    requires forall i :: 0 <= i < |s| ==> s[i] == 'a'
    ensures Strip(s) == s
  {
    StripFixpoint(s);
  }

  lemma {:induction false} WholePart(i: nat, text: string, at: nat)
    requires at <= |text|
    ensures Parts(NO_MATCH, i, text, 0, at) == [text]
    decreases |text| - at
  {
    if at < |text| {
      WholePart(i, text, at + 1);
    }
  }

  lemma {:induction false} OneSection(text: string, n: nat)
    requires Strip(text) != ""
    ensures Sections(NO_MATCH, text, n) == [text]
  {
    if n > 0 {
      OneSection(text, n - 1);
      WholePart(n - 1, text, 0);
      assert [text][1..] == [] && NonBlank([text]) == [text] + [];
      assert SplitAll(NO_MATCH, n - 1, [text]) == [text] + [];
    }
  }

  lemma FirstPieceTooLong(c: ChunkingConfig)
    requires Validated(c) && Advances(c) && c.chunkSize < 0
    ensures var text := Endless(c);
            && Strip(text) == text != "" && Splits(c, text) != []
            && |Splits(c, text)[0]| > Bound(c) && |Strip(Splits(c, text)[0])| >= c.minChunkSize
  {
    var text := Endless(c);
    StripLetters(text);
    SplitsAreChunks(c, text);
    NegativeStep(c, text, 0);
    StripLetters(Slice(text, 0, c.chunkSize));
  }

  lemma OnePacked(c: ChunkingConfig, cut: Cutter, text: string)
    requires |text| > c.chunkSize && |text| > c.maxChunkSize
    ensures Packed(c, cut, [text]) == cut(0, text)
  {
    PackNext(c, cut, [text], 0);
    assert [] + cut(0, text) == cut(0, text);
  }

  /** A model that never answers. */
  function NoReply(): Model { (i, section) => None }

  lemma CutWithoutReply(c: ChunkingConfig, text: string)
    ensures ByModel(c, NoReply())(0, text) == Splits(c, text)
  {
    assert NoReply()(0, text) == None;
    assert NeedsSplitter(c, text, None);
  }

  lemma SemanticTooLong(c: ChunkingConfig)
    requires Validated(c) && Advances(c) && c.chunkSize < 0
    ensures !InBounds(c, SemanticChunks(c, NO_MATCH, NoReply(), Endless(c)))
  {
    var text := Endless(c);
    FirstPieceTooLong(c);
    OneSection(text, PATTERNS);
    OnePacked(c, ByModel(c, NoReply()), text);
    CutWithoutReply(c, text);
    assert LongEnough(c, Splits(c, text))[0] == Splits(c, text)[0];
  }

  // ---- What packing and filtering keep ----

  ghost predicate NoOversize(c: ChunkingConfig, sections: seq<string>) {
    forall k :: 0 <= k < |sections| ==> |sections[k]| <= c.maxChunkSize
  }

  lemma InkGap(a: string, gap: string, b: string)
    requires Blank(gap)
    ensures Ink(a + gap + b) == Ink(a) + Ink(b)
  {
    InkConcat(a + gap, b);
    InkConcat(a, gap);
    InkBlank(gap);
  }

  lemma {:induction false} ConcatSnocInk(parts: seq<string>, p: string)
    ensures Ink(Concat(parts + [p])) == Ink(Concat(parts)) + Ink(p)
  {
    ConcatAppend(parts, [p]);
    ConcatOne(p);
    InkConcat(Concat(parts), p);
  }

  lemma FlushInk(packing: Packing)
    ensures Ink(Concat(packing.Flush())) == Ink(Concat(packing.chunks)) + Ink(packing.current)
  {
    if packing.current != "" {
      ConcatSnocInk(packing.chunks, Strip(packing.current));
      InkStrip(packing.current);
    }
  }

  /** The ink emitted and held so far. */
  function Inked(chunks: seq<string>, current: string): string {
    Ink(Concat(chunks)) + Ink(current)
  }

  lemma PackOneInk(
    c: ChunkingConfig, chunks: seq<string>, current: string, section: string, pieces: seq<string>, next: Packing)
    requires |section| <= c.maxChunkSize && next == PackOne(c, Packing(chunks, current), section, pieces)
    ensures Inked(next.chunks, next.current) == Inked(chunks, current) + Ink(section)
  {
    if current == "" {
      assert Inked(chunks, current) == Ink(Concat(chunks));
    } else if |current + GAP + section| <= c.chunkSize {
      JoinInk(chunks, current, section);
    } else {
      FlushInk(Packing(chunks, current));
    }
  }

  lemma JoinInk(chunks: seq<string>, current: string, section: string)
    ensures Inked(chunks, current + GAP + section) == Inked(chunks, current) + Ink(section)
  {
    assert Blank(GAP);
    InkGap(current, GAP, section);
  }

  lemma PackNextInk(c: ChunkingConfig, cut: Cutter, sections: seq<string>, n: nat, before: Packing, packing: Packing)
    requires n < |sections| && |sections[n]| <= c.maxChunkSize
    requires before == PackFirst(c, cut, sections, n) && packing == PackFirst(c, cut, sections, n + 1)
    ensures Inked(packing.chunks, packing.current) == Inked(before.chunks, before.current) + Ink(sections[n])
  {
    PackNext(c, cut, sections, n);
    PackOneInk(c, before.chunks, before.current, sections[n], cut(n, sections[n]), packing);
  }

  lemma {:induction false} PackFirstInk(c: ChunkingConfig, cut: Cutter, sections: seq<string>, n: nat, packing: Packing)
    requires n <= |sections| && NoOversize(c, sections) && packing == PackFirst(c, cut, sections, n)
    ensures Inked(packing.chunks, packing.current) == Ink(Concat(sections[..n]))
  {
    if n > 0 {
      var before := PackFirst(c, cut, sections, n - 1);
      PackFirstInk(c, cut, sections, n - 1, before);
      PackNextInk(c, cut, sections, n - 1, before, packing);
      SnocInk(sections, n);
    } else {
      assert sections[..0] == [];
    }
  }

  lemma SnocInk(sections: seq<string>, n: nat)
    requires 0 < n <= |sections|
    ensures Ink(Concat(sections[..n])) == Ink(Concat(sections[..n - 1])) + Ink(sections[n - 1])
  {
    assert sections[..n] == sections[..n - 1] + [sections[n - 1]];
    ConcatSnocInk(sections[..n - 1], sections[n - 1]);
  }

  /** With no oversized section, packing keeps every character but white space, in order. */
  lemma PackedInk(c: ChunkingConfig, m: Matcher, model: Model, content: string)
    requires NoOversize(c, Sections(m, content, PATTERNS))
    ensures Ink(Concat(Packed(c, ByModel(c, model), Sections(m, content, PATTERNS)))) == Ink(content)
  {
    SectionsInk(m, content, PATTERNS);
    AllPackedInk(c, ByModel(c, model), Sections(m, content, PATTERNS));
  }

  lemma AllPackedInk(c: ChunkingConfig, cut: Cutter, sections: seq<string>)
    requires NoOversize(c, sections)
    ensures Ink(Concat(Packed(c, cut, sections))) == Ink(Concat(sections))
  {
    var packing := PackFirst(c, cut, sections, |sections|);
    PackFirstInk(c, cut, sections, |sections|, packing);
    FlushInk(packing);
    assert sections[..|sections|] == sections;
  }

  ghost predicate AllInked(chunks: seq<string>) {
    forall k :: 0 <= k < |chunks| ==> Ink(chunks[k]) != ""
  }

  lemma InkOfNonBlank(s: string)
    requires Strip(s) != ""
    ensures Ink(s) != ""
  {
    InkStrip(s);
    var a, b := StripCuts(s);
  }

  ghost predicate PackingInked(packing: Packing) {
    AllInked(packing.chunks) && (packing.current != "" ==> Ink(packing.current) != "")
  }

  lemma PackOneInked(c: ChunkingConfig, packing: Packing, section: string, pieces: seq<string>)
    requires PackingInked(packing) && Strip(section) != "" && |section| <= c.maxChunkSize
    ensures PackingInked(PackOne(c, packing, section, pieces))
  {
    InkOfNonBlank(section);
    InkStrip(packing.current);
    assert Blank(GAP);
    InkGap(packing.current, GAP, section);
  }

  /** With no oversized section, no packed chunk is blank. */
  lemma {:induction false} PackFirstInked(c: ChunkingConfig, cut: Cutter, sections: seq<string>, n: nat)
    requires n <= |sections| && NoOversize(c, sections) && NoneBlank(sections)
    ensures PackingInked(PackFirst(c, cut, sections, n))
  {
    if n > 0 {
      PackFirstInked(c, cut, sections, n - 1);
      PackOneInked(c, PackFirst(c, cut, sections, n - 1), sections[n - 1], cut(n - 1, sections[n - 1]));
    }
  }

  /** Every chunk passes the filter. */
  ghost predicate NoneShort(c: ChunkingConfig, chunks: seq<string>) {
    forall k :: 0 <= k < |chunks| ==> |Strip(chunks[k])| >= c.minChunkSize
  }

  lemma NoneShortCons(c: ChunkingConfig, chunks: seq<string>)
    requires chunks != []
    ensures NoneShort(c, chunks) <==> |Strip(chunks[0])| >= c.minChunkSize && NoneShort(c, chunks[1..])
  {
    assert forall k :: 0 < k < |chunks| ==> chunks[k] == chunks[1..][k - 1];
  }

  /** Filtering loses ink exactly when it drops a chunk. */
  lemma {:induction false} LongEnoughInk(c: ChunkingConfig, chunks: seq<string>)
    requires AllInked(chunks)
    ensures |Ink(Concat(LongEnough(c, chunks)))| <= |Ink(Concat(chunks))|
    ensures |Ink(Concat(LongEnough(c, chunks)))| == |Ink(Concat(chunks))| <==> NoneShort(c, chunks)
    ensures NoneShort(c, chunks) ==> LongEnough(c, chunks) == chunks
  {
    if chunks != [] {
      var rest := chunks[1..];
      NoneShortCons(c, chunks);
      LongEnoughInk(c, rest);
      InkConcat(chunks[0], Concat(rest));
      if |Strip(chunks[0])| >= c.minChunkSize {
        InkConcat(chunks[0], Concat(LongEnough(c, rest)));
        assert LongEnough(c, chunks)[1..] == LongEnough(c, rest);
        assert chunks == [chunks[0]] + rest;
      } else {
        assert LongEnough(c, chunks) == LongEnough(c, rest);
      }
    }
  }

  /**
   The minimum-size filter drops text. With no oversized section, the chunks carry all of the
   document's characters but white space exactly when no packed chunk is below the minimum.
   */
  lemma LosslessExactlyWhenNothingShort(c: ChunkingConfig, m: Matcher, model: Model, content: string)
    requires NoOversize(c, Sections(m, content, PATTERNS))
    ensures Ink(Concat(SemanticChunks(c, m, model, content))) == Ink(content) <==>
              NoneShort(c, Packed(c, ByModel(c, model), Sections(m, content, PATTERNS)))
  {
    SectionsNotBlank(m, content, PATTERNS);
    PackedInk(c, m, model, content);
    FilterInk(c, ByModel(c, model), Sections(m, content, PATTERNS));
  }

  // ---- A document that loses its last line ----

  /** Of the patterns, only the first matches, and only a single `#`. */
  const HASHES: Matcher :=
    (i: nat, text: string, at: nat) => if i == 0 && at < |text| && text[at] == '#' then at + 1 else 0

  lemma {:induction false} NoMatch(i: nat, text: string, at: nat)
    requires at <= |text| && (i == 0 ==> '#' !in text)
    ensures Parts(HASHES, i, text, 0, at) == [text]
    decreases |text| - at
  {
    if at == |text| {
      assert text[0..] == text;
    } else {
      NoMatch(i, text, at + 1);
    }
  }

  lemma {:induction false} OneMatch(x: string, at: nat)
    requires '#' !in x && at <= |x|
    ensures Parts(HASHES, 0, x + "#", 0, at) == [x, "#", ""]
    decreases |x| - at
  {
    var text := x + "#";
    if at < |x| {
      OneMatch(x, at + 1);
    } else {
      assert text[0..at] == x && text[at..at + 1] == "#" && text[at + 1..] == "";
    }
  }

  lemma OneIsKept(x: string)
    requires Strip(x) != ""
    ensures NonBlank([x]) == [x]
  {
    assert [x][1..] == [];
  }

  lemma SplitOne(i: nat, x: string)
    requires Strip(x) != "" && i > 0
    ensures SplitAll(HASHES, i, [x]) == [x]
  {
    NoMatch(i, x, 0);
    OneIsKept(x);
    assert [x][1..] == [];
  }

  lemma SplitTwo(i: nat, x: string, y: string)
    requires Strip(x) != "" && Strip(y) != "" && i > 0
    ensures SplitAll(HASHES, i, [x, y]) == [x, y]
  {
    NoMatch(i, x, 0);
    OneIsKept(x);
    SplitOne(i, y);
    assert [x, y][1..] == [y];
  }

  lemma SplitFirst(x: string)
    requires '#' !in x && Strip(x) != "" && Strip("#") != ""
    ensures SplitAll(HASHES, 0, [x + "#"]) == [x, "#"]
  {
    OneMatch(x, 0);
    assert [x + "#"][1..] == [];
    assert [x, "#", ""][1..] == ["#", ""] && ["#", ""][1..] == [""] && [""][1..] == [];
    assert NonBlank([""]) == [];
    assert NonBlank(["#", ""]) == ["#"];
  }

  lemma {:induction false} TwoSections(x: string, n: nat)
    requires '#' !in x && Strip(x) != "" && n > 0
    ensures Sections(HASHES, x + "#", n) == [x, "#"]
  {
    StripFixpoint("#");
    if n > 1 {
      TwoSections(x, n - 1);
      SplitTwo(n - 1, x, "#");
    } else {
      SplitFirst(x);
      assert Sections(HASHES, x + "#", 0) == [x + "#"];
    }
  }

  lemma LongEnoughTwo(c: ChunkingConfig, x: string, y: string)
    requires |Strip(y)| < c.minChunkSize <= |Strip(x)|
    ensures LongEnough(c, [x, y]) == [x]
  {
    assert [x, y][1..] == [y] && [y][1..] == [];
    assert LongEnough(c, [y]) == [];
  }

  lemma PackedTwo(c: ChunkingConfig, cut: Cutter, x: string, y: string)
    requires x != "" && y != "" && |x| == c.chunkSize <= c.maxChunkSize && |y| <= c.maxChunkSize
    ensures Packed(c, cut, [x, y]) == [Strip(x), Strip(y)]
  {
    assert PackFirst(c, cut, [x, y], 0) == Packing([], "");
    assert PackFirst(c, cut, [x, y], 1) == Packing([], x);
    assert PackFirst(c, cut, [x, y], 2) == Packing([Strip(x)], y);
  }

  /** With any model: a section that fills a chunk, then one too short to be a chunk of its own. */
  lemma ShortTailIsLost(c: ChunkingConfig, model: Model)
    requires Validated(c) && 1 < c.minChunkSize <= c.chunkSize <= c.maxChunkSize
    ensures var x: string := seq(c.chunkSize, _ => 'a');
            SemanticChunks(c, HASHES, model, x + "#") == [x]
  {
    var x: string := seq(c.chunkSize, _ => 'a');
    StripFixpoint(x);
    StripFixpoint("#");
    TwoSections(x, PATTERNS);
    PackedTwo(c, ByModel(c, model), x, "#");
    LongEnoughTwo(c, x, "#");
  }

  lemma FilterInk(c: ChunkingConfig, cut: Cutter, sections: seq<string>)
    requires NoOversize(c, sections) && NoneBlank(sections)
    ensures var packed := Packed(c, cut, sections);
            Ink(Concat(LongEnough(c, packed))) == Ink(Concat(packed)) <==> NoneShort(c, packed)
  {
    var packing := PackFirst(c, cut, sections, |sections|);
    PackFirstInked(c, cut, sections, |sections|);
    InkStrip(packing.current);
    LongEnoughInk(c, Packed(c, cut, sections));
  }

  // ---- chunk_document ----

  /** Whether the semantic attempt is made at all. */
  predicate IsAttempted(c: ChunkingConfig, semantic: bool, content: string) {
    !IsTabular(content) && |content| < MAX_SEMANTIC && semantic && |content| > c.chunkSize
  }

  /** The attempt gives chunks: it is not cut short by the timeout or an exception, and comes to some. */
  ghost predicate Succeeds(c: ChunkingConfig, m: Matcher, model: Model, interrupted: bool, content: string) {
    !interrupted && !SectionsRaise(c, m, model, content) && SemanticChunks(c, m, model, content) != []
  }

  /** The raw chunks of a document: semantic if attempted with success, else from the overlap splitter. */
  ghost function RawChunks(
    c: ChunkingConfig, semantic: bool, m: Matcher, model: Model, interrupted: bool, content: string): seq<string>
  {
    if Strip(content) == "" then []
    else if IsAttempted(c, semantic, content) && Succeeds(c, m, model, interrupted, content) then
      SemanticChunks(c, m, model, content)
    else Splits(c, content)
  }

  /**
   `SemanticChunker.chunk_document`, for documents on which the overlap splitter ends or raises
   wherever it is used.
   */
  method ChunkDocument(c: ChunkingConfig, semantic: bool, m: Matcher, model: Model, interrupted: bool, content: string)
    returns (objects: seq<DocumentChunk>, raised: bool)
    requires IsAttempted(c, semantic, content) && !interrupted ==> SectionsHalt(c, m, model, content)
    requires !(IsAttempted(c, semantic, content) && Succeeds(c, m, model, interrupted, content)) ==> Halts(c, content)
    ensures raised <==>
              && Strip(content) != ""
              && !(IsAttempted(c, semantic, content) && Succeeds(c, m, model, interrupted, content))
              && !Terminates(c, content)
    ensures !raised ==> Placed(RawChunks(c, semantic, m, model, interrupted, content), content, objects)
  {
    if Strip(content) == "" {
      return [], false;
    }
    if !IsTabular(content) && |content| < MAX_SEMANTIC && semantic && |content| > c.chunkSize && !interrupted {
      var semanticChunks, failed := SemanticChunk(c, m, model, content);
      if !failed && semanticChunks != [] {
        objects := CreateChunkObjects(semanticChunks, content);
        return objects, false;
      }
    }
    var chunks, failed := Split(c, content);
    if failed {
      return [], true;
    }
    objects := CreateChunkObjects(chunks, content);
    return objects, false;
  }

  /** Whatever matches and whatever the model replies, a document gets chunks exactly when it is not blank. */
  lemma EveryDocumentIsChunked(
    c: ChunkingConfig, semantic: bool, m: Matcher, model: Model, interrupted: bool, content: string)
    requires Validated(c) && Advances(c)
    ensures RawChunks(c, semantic, m, model, interrupted, content) == [] <==> Strip(content) == ""
  {
    SplitsAreChunks(c, content);
    assert Strip("") == "";
  }

  /** None of them is over the bound exactly when the chunk size is not negative. */
  lemma RawChunksWithinExactlyWhen(c: ChunkingConfig)
    requires Validated(c) && Advances(c)
    ensures (forall semantic, m: Matcher, model: Model, interrupted, content ::
               AllWithin(RawChunks(c, semantic, m, model, interrupted, content), Bound(c))) <==> 0 <= c.chunkSize
  {
    if 0 <= c.chunkSize {
      forall semantic, m: Matcher, model: Model, interrupted, content
        ensures AllWithin(RawChunks(c, semantic, m, model, interrupted, content), Bound(c))
      {
        SplitsWithin(c, content);
        SemanticChunksWithin(c, m, model, content);
      }
    } else {
      FirstPieceTooLong(c);
      assert !AllWithin(RawChunks(c, false, NO_MATCH, NoReply(), false, Endless(c)), Bound(c));
    }
  }
}
