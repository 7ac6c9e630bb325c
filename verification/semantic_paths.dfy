/** Which way a document and a long section take through the semantic chunker, and what a reply is cut into. */
module SemanticPaths {
  import opened Wrappers
  import opened Text
  import opened SimpleSplit
  import opened SemanticChunker

  // ---- Splitting at a separator ----

  /** No occurrence of the separator begins before the end of the part, in the part with what follows it. */
  ghost predicate Breaks(part: string, sep: string, follows: string) {
    forall i :: 0 <= i < |part| ==> !OccursAt(part + follows, sep, i)
  }

  /** The parts make up the text with the separator between them, and each ends where the separator first occurs. */
  ghost predicate IsSplit(s: string, sep: string, parts: seq<string>) {
    && parts != [] && Join(sep, parts) == s
    && (forall k :: 0 <= k < |parts| - 1 ==> Breaks(parts[k], sep, sep))
    && Breaks(parts[|parts| - 1], sep, "")
  }

  lemma IsSplitCons(part: string, sep: string, rest: seq<string>)
    requires rest != [] && IsSplit(Join(sep, rest), sep, rest)
    ensures IsSplit(part + sep + Join(sep, rest), sep, [part] + rest) <==> Breaks(part, sep, sep)
  {
    var parts := [part] + rest;
    assert parts[1..] == rest && parts[|parts| - 1] == rest[|rest| - 1];
    assert parts[0] == part;
    forall k | 0 < k < |parts| - 1 ensures Breaks(parts[k], sep, sep) {
      assert parts[k] == rest[k - 1];
    }
  }

  /** The separator's first occurrence in a text is the first in what it ends. */
  lemma FirstBreaks(s: string, sep: string, i: nat)
    requires OccursAt(s, sep, i) && forall j :: 0 <= j < i ==> !OccursAt(s, sep, j)
    ensures Breaks(s[..i], sep, sep) && s == s[..i] + sep + s[i + |sep|..]
  {
    var t := s[..i] + sep;
    assert t == s[..i + |sep|] && s == t + s[i + |sep|..];
    forall j | 0 <= j < i ensures !OccursAt(t, sep, j) {
      if OccursAt(t, sep, j) {
        assert t[j..j + |sep|] == s[j..j + |sep|];
        assert OccursAt(s, sep, j);
      }
    }
  }

  lemma {:induction false} SplitIsSplit(s: string, sep: string)
    requires sep != ""
    ensures IsSplit(s, sep, SplitOn(s, sep))
    decreases |s|
  {
    var i := Find(s, sep, 0);
    FindsFirst(s, sep, 0);
    if i == -1 {
      assert s + "" == s;
    } else {
      FirstBreaks(s, sep, i);
      SplitIsSplit(s[i + |sep|..], sep);
      IsSplitCons(s[..i], sep, SplitOn(s[i + |sep|..], sep));
    }
  }

  lemma UnbrokenIsWhole(s: string, sep: string)
    requires sep != "" && Breaks(s, sep, "")
    ensures SplitOn(s, sep) == [s]
  {
    FindsFirst(s, sep, 0);
    assert s + "" == s;
    var i := Find(s, sep, 0);
    assert i == -1 || !OccursAt(s, sep, i);
  }

  lemma SplitAtBreak(part: string, sep: string, rest: string)
    requires sep != "" && Breaks(part, sep, sep)
    ensures SplitOn(part + sep + rest, sep) == [part] + SplitOn(rest, sep)
  {
    var s := part + sep + rest;
    FoundAtBreak(s, part, sep, rest);
    assert s[..|part|] == part && s[|part| + |sep|..] == rest;
  }

  lemma {:induction false} SplitIsUnique(s: string, sep: string, parts: seq<string>)
    requires sep != "" && IsSplit(s, sep, parts)
    ensures SplitOn(s, sep) == parts
    decreases |parts|
  {
    if |parts| == 1 {
      UnbrokenIsWhole(s, sep);
    } else {
      var rest := Join(sep, parts[1..]);
      RestIsSplit(s, sep, parts);
      SplitIsUnique(rest, sep, parts[1..]);
      SplitAtBreak(parts[0], sep, rest);
    }
  }

  lemma RestIsSplit(s: string, sep: string, parts: seq<string>)
    requires IsSplit(s, sep, parts) && |parts| > 1
    ensures IsSplit(Join(sep, parts[1..]), sep, parts[1..])
  {
    var rest := parts[1..];
    forall k | 0 <= k < |rest| - 1 ensures Breaks(rest[k], sep, sep) {
      assert rest[k] == parts[k + 1];
    }
    assert rest[|rest| - 1] == parts[|parts| - 1];
  }

  lemma FoundAtBreak(s: string, part: string, sep: string, rest: string)
    requires sep != "" && s == part + sep + rest && Breaks(part, sep, sep)
    ensures Find(s, sep, 0) == |part|
  {
    FindsFirst(s, sep, 0);
    assert OccursAt(s, sep, |part|);
    var i := Find(s, sep, 0);
    if 0 <= i < |part| {
      assert OccursAt(s, sep, i);
      assert (part + sep)[i..i + |sep|] == s[i..i + |sep|];
      assert OccursAt(part + sep, sep, i);
    }
  }

  /** Splitting gives the one way to cut the text at the separator, from the left. */
  lemma SplitExactly(s: string, sep: string, parts: seq<string>)
    requires sep != ""
    ensures SplitOn(s, sep) == parts <==> IsSplit(s, sep, parts)
  {
    SplitIsSplit(s, sep);
    if IsSplit(s, sep, parts) {
      SplitIsUnique(s, sep, parts);
    }
  }

  // ---- Parts kept ----

  ghost predicate Increasing(a: seq<nat>) { forall i, j :: 0 <= i < j < |a| ==> a[i] < a[j] }

  /** `kept` are the parts that pass, in order: `at` are their places. */
  ghost predicate Picks(at: seq<nat>, kept: seq<string>, parts: seq<string>, passes: string -> bool) {
    && |at| == |kept|
    && (forall j :: 0 <= j < |at| ==> at[j] < |parts| && kept[j] == parts[at[j]] && passes(kept[j]))
    && Increasing(at)
    && (forall k :: 0 <= k < |parts| && passes(parts[k]) ==> k in at)
  }

  lemma PicksSkip(at: seq<nat>, kept: seq<string>, parts: seq<string>, n: nat, passes: string -> bool)
    requires |parts| == n + 1 && Picks(at, kept, parts[..n], passes) && !passes(parts[n])
    ensures Picks(at, kept, parts, passes)
  {
    forall k | 0 <= k < |parts| && passes(parts[k]) ensures k in at {
      assert parts[k] == parts[..n][k];
    }
  }

  lemma PicksTake(at: seq<nat>, kept: seq<string>, parts: seq<string>, n: nat, passes: string -> bool)
    requires |parts| == n + 1 && Picks(at, kept, parts[..n], passes) && passes(parts[n])
    ensures Picks(at + [n], kept + [parts[n]], parts, passes)
  {
    var more := at + [n];
    forall k | 0 <= k < |parts| && passes(parts[k]) ensures k in more {
      if k < n {
        assert parts[k] == parts[..n][k];
      } else {
        assert more[|at|] == k;
      }
    }
  }

  /** `next` keeps the last part if it passes. */
  lemma PicksNext(at: seq<nat>, kept: seq<string>, next: seq<string>, parts: seq<string>, passes: string -> bool)
    returns (more: seq<nat>)
    requires parts != [] && Picks(at, kept, parts[..|parts| - 1], passes)
    requires var part := parts[|parts| - 1]; next == if passes(part) then kept + [part] else kept
    ensures Picks(more, next, parts, passes)
  {
    var n := |parts| - 1;
    if passes(parts[n]) {
      PicksTake(at, kept, parts, n, passes);
      more := at + [n];
    } else {
      PicksSkip(at, kept, parts, n, passes);
      more := at;
    }
  }

  ghost predicate SameElements(a: seq<nat>, b: seq<nat>) {
    (forall i :: 0 <= i < |a| ==> a[i] in b) && forall i :: 0 <= i < |b| ==> b[i] in a
  }

  lemma SameLast(a: seq<nat>, b: seq<nat>, m: nat, n: nat)
    requires Increasing(a) && Increasing(b) && SameElements(a, b) && |a| == m + 1 && |b| == n + 1
    ensures a[m] == b[n] && SameElements(a[..m], b[..n])
  {
    var i, j :| 0 <= i <= n && a[m] == b[i] && 0 <= j <= m && b[n] == a[j];
    forall k | 0 <= k < m ensures a[k] in b[..n] {
      assert a[k] in b;
      assert a[k] < a[m];
    }
    forall k | 0 <= k < n ensures b[k] in a[..m] {
      assert b[k] in a;
      assert b[k] < b[n];
    }
  }

  lemma SameEmpty(a: seq<nat>, b: seq<nat>)
    requires SameElements(a, b)
    ensures a == [] <==> b == []
  {
    assert (|a| > 0 ==> a[0] in b) && (|b| > 0 ==> b[0] in a);
  }

  lemma {:induction false} SameIncreasing(a: seq<nat>, b: seq<nat>)
    requires Increasing(a) && Increasing(b) && SameElements(a, b)
    ensures a == b
  {
    SameEmpty(a, b);
    if a != [] {
      var m, n := |a| - 1, |b| - 1;
      SameLast(a, b, m, n);
      SameIncreasing(a[..m], b[..n]);
      assert a == a[..m] + [a[m]] && b == b[..n] + [b[n]];
    }
  }

  /** Only one selection is that of the parts that pass. */
  lemma PicksUnique(
    at: seq<nat>, kept: seq<string>, also: seq<nat>, others: seq<string>, parts: seq<string>, passes: string -> bool)
    requires Picks(at, kept, parts, passes) && Picks(also, others, parts, passes)
    ensures kept == others
  {
    SameIncreasing(at, also);
  }

  lemma {:induction false} NonBlankSnoc(parts: seq<string>, part: string)
    ensures NonBlank(parts + [part]) == NonBlank(parts) + if Strip(part) == "" then [] else [part]
  {
    if parts == [] {
      assert ([] + [part])[1..] == [];
    } else {
      assert (parts + [part])[1..] == parts[1..] + [part];
      NonBlankSnoc(parts[1..], part);
    }
  }

  lemma BlankExactly(s: string)
    ensures Strip(s) == "" <==> Blank(s)
  {
    var a, b := StripCuts(s);
    if Strip(s) == "" {
      assert s == s[..a] + s[b..];
    } else {
      assert s[a] == Strip(s)[0];
    }
  }

  /** The parts kept when splitting on structure are those that are not blank. */
  lemma {:induction false} NonBlankPicks(parts: seq<string>, passes: string -> bool) returns (at: seq<nat>)
    requires forall part :: passes(part) <==> !Blank(part)
    ensures Picks(at, NonBlank(parts), parts, passes)
  {
    if parts == [] {
      at := [];
    } else {
      var n := |parts| - 1;
      at := NonBlankPicks(parts[..n], passes);
      BlankExactly(parts[n]);
      NonBlankSnoc(parts[..n], parts[n]);
      assert parts == parts[..n] + [parts[n]];
      at := PicksNext(at, NonBlank(parts[..n]), NonBlank(parts), parts, passes);
    }
  }

  function Stripped(parts: seq<string>): seq<string> {
    seq(|parts|, k requires 0 <= k < |parts| => Strip(parts[k]))
  }

  /** The parts of a reply kept when stripped are those whose length is within the bounds. */
  lemma {:induction false} ValidPartsPicks(c: ChunkingConfig, parts: seq<string>, passes: string -> bool)
    returns (at: seq<nat>)
    requires forall part :: passes(part) <==> c.minChunkSize <= |part| <= c.maxChunkSize
    ensures Picks(at, ValidParts(c, parts), Stripped(parts), passes)
  {
    if parts == [] {
      at := [];
    } else {
      var n := |parts| - 1;
      at := ValidPartsPicks(c, parts[..n], passes);
      assert Stripped(parts)[..n] == Stripped(parts[..n]);
      at := PicksNext(at, ValidParts(c, parts[..n]), ValidParts(c, parts), Stripped(parts), passes);
    }
  }

  lemma {:induction false} LongEnoughSnoc(c: ChunkingConfig, chunks: seq<string>, chunk: string)
    ensures LongEnough(c, chunks + [chunk]) ==
              LongEnough(c, chunks) + if |Strip(chunk)| >= c.minChunkSize then [chunk] else []
  {
    if chunks == [] {
      assert ([] + [chunk])[1..] == [];
    } else {
      assert (chunks + [chunk])[1..] == chunks[1..] + [chunk];
      LongEnoughSnoc(c, chunks[1..], chunk);
    }
  }

  /** The packed chunks kept are those that are not below the minimum size when stripped. */
  lemma {:induction false} LongEnoughPicks(c: ChunkingConfig, chunks: seq<string>, passes: string -> bool)
    returns (at: seq<nat>)
    requires forall chunk :: passes(chunk) <==> |Strip(chunk)| >= c.minChunkSize
    ensures Picks(at, LongEnough(c, chunks), chunks, passes)
  {
    if chunks == [] {
      at := [];
    } else {
      var n := |chunks| - 1;
      at := LongEnoughPicks(c, chunks[..n], passes);
      LongEnoughSnoc(c, chunks[..n], chunks[n]);
      assert chunks == chunks[..n] + [chunks[n]];
      at := PicksNext(at, LongEnough(c, chunks[..n]), LongEnough(c, chunks), chunks, passes);
    }
  }

  /**
   A long section is cut by the overlap splitter if it is tabular, over 20000 characters, not answered,
   or answered with no part within the bounds; otherwise it becomes those parts, `valid`.
   */
  lemma SplitLongExactly(
    c: ChunkingConfig, section: string, reply: Option<string>, parts: seq<string>, passes: string -> bool,
    at: seq<nat>, valid: seq<string>)
    requires reply.Some? ==> IsSplit(reply.value, "---CHUNK---", parts)
    requires forall part :: passes(part) <==> c.minChunkSize <= |part| <= c.maxChunkSize
    requires reply.Some? ==> Picks(at, valid, Stripped(parts), passes)
    ensures SplitLong(c, section, reply) ==
              if IsTabular(section) || |section| > 20000 || reply.None? || valid == [] then Splits(c, section)
              else valid
  {
    if reply.Some? {
      SplitExactly(reply.value, "---CHUNK---", parts);
      var also := ValidPartsPicks(c, parts, passes);
      PicksUnique(at, valid, also, ValidParts(c, parts), Stripped(parts), passes);
    }
  }

  // ---- Tabular text ----

  /** The lines below `n` that are not blank. */
  ghost function Written(lines: seq<string>, n: nat): set<nat>
    requires n <= |lines|
  {
    set k: nat | k < n && !Blank(lines[k])
  }

  /** The places of a character in those lines. */
  ghost function Marks(lines: seq<string>, n: nat, c: char): set<(nat, nat)>
    requires n <= |lines|
  {
    set k: nat, i: nat | k < n && !Blank(lines[k]) && i < |lines[k]| && lines[k][i] == c :: (k, i)
  }

  ghost function MarksOf(k: nat, line: string, from: nat, c: char): set<(nat, nat)> {
    set i: nat | from <= i < |line| && line[i] == c :: (k, i)
  }

  lemma {:induction false} CountIsMarks(k: nat, line: string, from: nat, c: char)
    requires from <= |line|
    ensures |MarksOf(k, line, from, c)| == Count(line[from..], c)
    decreases |line| - from
  {
    if from == |line| {
      assert MarksOf(k, line, from, c) == {};
    } else {
      CountIsMarks(k, line, from + 1, c);
      assert line[from..][1..] == line[from + 1..];
      var rest := MarksOf(k, line, from + 1, c);
      assert MarksOf(k, line, from, c) == rest + if line[from] == c then {(k, from)} else {};
      assert (k, from) !in rest;
    }
  }

  lemma {:induction false} TotalCountSnoc(lines: seq<string>, line: string, c: char)
    ensures TotalCount(lines + [line], c) == TotalCount(lines, c) + Count(line, c)
  {
    if lines == [] {
      assert ([] + [line])[1..] == [];
    } else {
      assert (lines + [line])[1..] == lines[1..] + [line];
      TotalCountSnoc(lines[1..], line, c);
    }
  }

  lemma MarksNext(lines: seq<string>, n: nat, c: char)
    requires n < |lines|
    ensures |Marks(lines, n + 1, c)| == |Marks(lines, n, c)| + if Blank(lines[n]) then 0 else Count(lines[n], c)
  {
    var before, here := Marks(lines, n, c), if Blank(lines[n]) then {} else MarksOf(n, lines[n], 0, c);
    CountIsMarks(n, lines[n], 0, c);
    assert lines[n][0..] == lines[n];
    assert Marks(lines, n + 1, c) == before + here;
    assert before !! here;
  }

  lemma WrittenNext(lines: seq<string>, n: nat)
    requires n < |lines|
    ensures |Written(lines, n + 1)| == |Written(lines, n)| + if Blank(lines[n]) then 0 else 1
  {
    assert Written(lines, n + 1) == Written(lines, n) + if Blank(lines[n]) then {} else {n};
  }

  lemma KeptSnoc(lines: seq<string>, n: nat)
    requires n < |lines|
    ensures NonBlank(lines[..n + 1]) == NonBlank(lines[..n]) + if Blank(lines[n]) then [] else [lines[n]]
  {
    assert lines[..n + 1] == lines[..n] + [lines[n]];
    NonBlankSnoc(lines[..n], lines[n]);
    BlankExactly(lines[n]);
  }

  lemma KeptNext(lines: seq<string>, n: nat, c: char, before: seq<string>, kept: seq<string>)
    requires n < |lines| && kept == before + if Blank(lines[n]) then [] else [lines[n]]
    ensures |kept| == |before| + if Blank(lines[n]) then 0 else 1
    ensures TotalCount(kept, c) == TotalCount(before, c) + if Blank(lines[n]) then 0 else Count(lines[n], c)
  {
    TotalCountSnoc(before, lines[n], c);
    assert before + [] == before;
  }

  lemma {:induction false} TotalIsMarks(lines: seq<string>, n: nat, c: char, kept: seq<string>)
    requires n <= |lines| && kept == NonBlank(lines[..n])
    ensures |Written(lines, n)| == |kept| && |Marks(lines, n, c)| == TotalCount(kept, c)
  {
    if n == 0 {
      assert Written(lines, 0) == {} && Marks(lines, 0, c) == {};
    } else {
      var before := NonBlank(lines[..n - 1]);
      TotalIsMarks(lines, n - 1, c, before);
      KeptSnoc(lines, n - 1);
      KeptNext(lines, n - 1, c, before, kept);
      MarksNext(lines, n - 1, c);
      WrittenNext(lines, n - 1);
    }
  }

  lemma LinesAreSplit(lines: seq<string>)
    requires lines != [] && forall k :: 0 <= k < |lines| ==> '\n' !in lines[k]
    ensures SplitOn(Join("\n", lines), "\n") == lines
  {
    forall k, follows | 0 <= k < |lines| && follows in {"", "\n"} ensures Breaks(lines[k], "\n", follows) {
      var line := lines[k] + follows;
      forall i | 0 <= i < |lines[k]| ensures !OccursAt(line, "\n", i) {
        assert line[i..i + 1][0] == lines[k][i];
      }
    }
    SplitExactly(Join("\n", lines), "\n", lines);
  }

  lemma TabularLines(text: string, lines: seq<string>, n: nat, kept: seq<string>)
    requires SplitOn(text, "\n") == lines && n == (if |lines| < 10 then |lines| else 10) && kept == NonBlank(lines[..n])
    ensures IsTabular(text) <==>
              && |lines| > 1 && |kept| > 0
              && (TotalCount(kept, '\t') >= 3 * |kept| || TotalCount(kept, ',') >= 3 * |kept|)
  {
    assert lines[..|lines|] == lines;
  }

  /**
   A text is tabular exactly if it has two lines or more, and those of its first ten that are not blank
   hold three tabs each on average, or three commas.
   */
  lemma TabularExactly(lines: seq<string>, n: nat)
    requires lines != [] && forall k :: 0 <= k < |lines| ==> '\n' !in lines[k]
    requires n == if |lines| < 10 then |lines| else 10
    ensures var count := |Written(lines, n)|;
            IsTabular(Join("\n", lines)) <==>
              |lines| > 1 && count > 0 && (|Marks(lines, n, '\t')| >= 3 * count || |Marks(lines, n, ',')| >= 3 * count)
  {
    LinesAreSplit(lines);
    var kept := NonBlank(lines[..n]);
    TabularLines(Join("\n", lines), lines, n, kept);
    TotalIsMarks(lines, n, '\t', kept);
    TotalIsMarks(lines, n, ',', kept);
  }

  /** A section is handed to the overlap splitter if what it is cut into matters and is not the model's. */
  lemma HandedExactly(c: ChunkingConfig, packing: Packing, section: string, reply: Option<string>)
    ensures IsHanded(c, packing, section, reply) <==>
              && NeedsSplitter(c, section, reply)
              && exists pieces, others :: PackOne(c, packing, section, pieces) != PackOne(c, packing, section, others)
  {
    var none, one := PackOne(c, packing, section, []), PackOne(c, packing, section, [""]);
    if IsHanded(c, packing, section, reply) {
      assert |none.chunks| != |one.chunks|;
    }
  }

  /** The overlap splitter is given the `k`-th section and raises. */
  ghost predicate Raises(c: ChunkingConfig, model: Model, sections: seq<string>, k: nat)
    requires k < |sections|
  {
    Handed(c, model, sections, k) && !Terminates(c, sections[k])
  }

  lemma {:induction false} Raiser(c: ChunkingConfig, model: Model, sections: seq<string>, n: nat) returns (k: nat)
    requires n <= |sections| && SomeRaise(c, model, sections, n)
    ensures k < n && Raises(c, model, sections, k)
  {
    k := n - 1;
    if SomeRaise(c, model, sections, n - 1) {
      k := Raiser(c, model, sections, n - 1);
    }
  }

  lemma SomeRaiseExactly(c: ChunkingConfig, model: Model, sections: seq<string>)
    ensures SomeRaise(c, model, sections, |sections|) <==>
              exists k: nat :: k < |sections| && Raises(c, model, sections, k)
  {
    if SomeRaise(c, model, sections, |sections|) {
      var k := Raiser(c, model, sections, |sections|);
    }
    forall k: nat | k < |sections| && Raises(c, model, sections, k) ensures SomeRaise(c, model, sections, |sections|) {
      RaisesLater(c, model, sections, |sections|, k + 1);
    }
  }

  lemma RawBranches(
    c: ChunkingConfig, semantic: bool, m: Matcher, model: Model, interrupted: bool, content: string,
    sections: seq<string>, chunks: seq<string>)
    requires sections == Sections(m, content, 6)
    requires chunks == LongEnough(c, Packed(c, ByModel(c, model), sections))
    ensures RawChunks(c, semantic, m, model, interrupted, content) ==
              if Strip(content) == "" then []
              else if semantic && c.chunkSize < |content| < 500000 && !IsTabular(content) && !interrupted
                      && !SomeRaise(c, model, sections, |sections|) && chunks != [] then chunks
              else Splits(c, content)
  {
  }

  /**
   A document that is not blank is chunked semantically exactly if it is not tabular, is over the chunk
   size but below 500000 characters, and the attempt, made if so configured, is not cut short and leaves
   some `chunks` of the minimum size; otherwise by the overlap splitter.
   */
  lemma RawChunksExactly(
    c: ChunkingConfig, semantic: bool, m: Matcher, model: Model, interrupted: bool, content: string,
    sections: seq<string>, packed: seq<string>, chunks: seq<string>, at: seq<nat>, passes: string -> bool)
    requires sections == Sections(m, content, 6) && packed == Packed(c, ByModel(c, model), sections)
    requires forall chunk :: passes(chunk) <==> |Strip(chunk)| >= c.minChunkSize
    requires Picks(at, chunks, packed, passes)
    ensures RawChunks(c, semantic, m, model, interrupted, content) ==
              if Blank(content) then []
              else if semantic && c.chunkSize < |content| < 500000 && !IsTabular(content) && !interrupted
                      && (forall k: nat :: k < |sections| ==> !Raises(c, model, sections, k))
                      && chunks != [] then chunks
              else Splits(c, content)
  {
    BlankExactly(content);
    SomeRaiseExactly(c, model, sections);
    SameKept(c, packed, chunks, at, passes);
    RawBranches(c, semantic, m, model, interrupted, content, sections, chunks);
  }

  lemma SameKept(c: ChunkingConfig, packed: seq<string>, chunks: seq<string>, at: seq<nat>, passes: string -> bool)
    requires forall chunk :: passes(chunk) <==> |Strip(chunk)| >= c.minChunkSize
    requires Picks(at, chunks, packed, passes)
    ensures chunks == LongEnough(c, packed)
  {
    var also := LongEnoughPicks(c, packed, passes);
    PicksUnique(at, chunks, also, LongEnough(c, packed), packed, passes);
  }
}
