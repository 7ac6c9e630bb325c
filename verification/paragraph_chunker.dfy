/**
 The paragraph chunker: split the document on blank lines, then fill chunks greedily with whole
 paragraphs.
 */
module ParagraphChunker {
  import opened Basics
  import opened Text
  import opened SimpleSplit
  import opened ChunkSpans

  // ---- re.split(r"\n\s*\n", text) ----

  /** `text[i..j]` matches `\n\s*\n`. */
  ghost predicate IsSeparator(text: string, i: int, j: int) {
    0 <= i && i + 2 <= j <= |text| && text[i] == '\n' && text[j - 1] == '\n'
    && forall k :: i <= k < j ==> IsSpace(text[k])
  }

  /** The end of the longest match of `\s*\n` in `text[from..]`, or 0 if there is none. */
  function LastNewline(text: string, from: nat): (r: nat)
    requires from <= |text|
    ensures r == 0 || from < r <= |text|
    decreases |text| - from
  {
    if from == |text| || !IsSpace(text[from]) then 0
    else
      var later := LastNewline(text, from + 1);
      if later != 0 then later else if text[from] == '\n' then from + 1 else 0
  }

  /** The end of the match at `i`, or 0. */
  function MatchAt(text: string, i: nat): (r: nat)
    requires i < |text|
    ensures r == 0 || i + 2 <= r <= |text|
  {
    if text[i] == '\n' then LastNewline(text, i + 1) else 0
  }

  /** The pieces between matches, the current one having begun at `start` and no match found before `i`. */
  function Pieces(text: string, start: nat, i: nat): seq<string>
    requires start <= i <= |text|
    decreases |text| - i
  {
    if i == |text| then [text[start..]]
    else
      var e := MatchAt(text, i);
      if e == 0 then Pieces(text, start, i + 1)
      else [text[start..i]] + Pieces(text, e, e)
  }

  lemma {:induction false} LastNewlineMeaning(text: string, from: nat, j: nat)
    requires from <= |text|
    ensures var r := LastNewline(text, from);
            && (r != 0 ==> text[r - 1] == '\n' && forall k :: from <= k < r ==> IsSpace(text[k]))
            && (from < j <= |text| && text[j - 1] == '\n' && (forall k :: from <= k < j ==> IsSpace(text[k])) ==>
                 j <= r)
    decreases |text| - from
  {
    if from < |text| && IsSpace(text[from]) {
      LastNewlineMeaning(text, from + 1, j);
    }
  }

  /**
   The regular expression is greedy: a match at `i` is the longest separator there, and there is one
   if any exists.
   */
  lemma MatchIsLongest(text: string, i: nat, j: nat)
    requires i < |text|
    ensures MatchAt(text, i) != 0 ==> IsSeparator(text, i, MatchAt(text, i))
    ensures IsSeparator(text, i, j) ==> j <= MatchAt(text, i)
  {
    LastNewlineMeaning(text, i + 1, j);
  }

  /** No blank line inside. */
  ghost predicate Unbroken(s: string) {
    forall i, j :: !IsSeparator(s, i, j)
  }

  lemma {:induction false} PiecesUnbroken(text: string, start: nat, i: nat)
    requires start <= i <= |text|
    requires forall k, j :: start <= k < i ==> !IsSeparator(text, k, j)
    ensures forall p :: p in Pieces(text, start, i) ==> Unbroken(p)
    decreases |text| - i
  {
    if i == |text| {
      PieceUnbroken(text, start, i);
      assert text[start..] == text[start..i];
    } else {
      var e := MatchAt(text, i);
      if e == 0 {
        forall j ensures !IsSeparator(text, i, j) {
          MatchIsLongest(text, i, if j < 0 then 0 else j);
        }
        PiecesUnbroken(text, start, i + 1);
      } else {
        PieceUnbroken(text, start, i);
        PiecesUnbroken(text, e, e);
      }
    }
  }

  lemma PieceUnbroken(text: string, start: nat, end: nat)
    requires start <= end <= |text|
    requires forall k, j :: start <= k < end ==> !IsSeparator(text, k, j)
    ensures Unbroken(text[start..end])
  {
    var p := text[start..end];
    forall i, j ensures !IsSeparator(p, i, j) {
      if IsSeparator(p, i, j) {
        forall k | start + i <= k < start + j ensures IsSpace(text[k]) {
          assert text[k] == p[k - start];
        }
        assert IsSeparator(text, start + i, start + j);
      }
    }
  }

  // ---- Paragraphs ----

  function KeepNonBlank(pieces: seq<string>): seq<string> {
    if pieces == [] then []
    else
      var p := Strip(pieces[0]);
      (if p == "" then [] else [p]) + KeepNonBlank(pieces[1..])
  }

  function Paragraphs(text: string): seq<string> {
    KeepNonBlank(Pieces(text, 0, 0))
  }

  ghost predicate WellFormed(paras: seq<string>) {
    forall k :: 0 <= k < |paras| ==> Trimmed(paras[k]) && Unbroken(paras[k])
  }

  lemma StripUnbroken(s: string)
    requires Unbroken(s)
    ensures Unbroken(Strip(s))
    ensures Strip(s) != "" ==> Trimmed(Strip(s))
  {
    var a, b := StripCuts(s);
    PieceUnbroken(s, a, b);
  }

  lemma {:induction false} KeepNonBlankWellFormed(pieces: seq<string>)
    requires forall p :: p in pieces ==> Unbroken(p)
    ensures WellFormed(KeepNonBlank(pieces))
  {
    if pieces != [] {
      StripUnbroken(pieces[0]);
      KeepNonBlankWellFormed(pieces[1..]);
    }
  }

  lemma ParagraphsWellFormed(text: string)
    ensures WellFormed(Paragraphs(text))
  {
    PiecesUnbroken(text, 0, 0);
    KeepNonBlankWellFormed(Pieces(text, 0, 0));
  }

  const GAP: string := "\n\n"

  function Glue(paras: seq<string>): string { Join(GAP, paras) }

  // ---- Splitting undoes joining ----

  /** A separator within a paragraph is one of the text around it. */
  lemma SeparatorWithin(text: string, start: nat, i: int, e: int, end: nat)
    requires start <= i <= end <= |text|
    ensures e <= end && IsSeparator(text, i, e) ==> IsSeparator(text[start..end], i - start, e - start)
  {
    var p := text[start..end];
    assert forall k :: start <= k < end ==> p[k - start] == text[k];
  }

  /** Scanning a well-formed paragraph followed by a gap stops exactly at the gap. */
  lemma {:induction false} ScanParagraph(text: string, start: nat, i: nat, end: nat)
    requires start <= i <= end <= |text| && start < end && Trimmed(text[start..end]) && Unbroken(text[start..end])
    requires end == |text| || (end + 2 < |text| && text[end..end + 2] == GAP && !IsSpace(text[end + 2]))
    ensures Pieces(text, start, i) ==
              if end == |text| then [text[start..end]] else [text[start..end]] + Pieces(text, end + 2, end + 2)
    decreases end - i
  {
    var p := text[start..end];
    assert p[|p| - 1] == text[end - 1];
    if i == end {
      if end < |text| {
        assert text[end] == GAP[0] && text[end + 1] == GAP[1];
        assert LastNewline(text, end + 2) == 0;
      } else {
        assert text[start..] == p;
      }
    } else {
      MatchIsLongest(text, i, 0);
      SeparatorWithin(text, start, i, MatchAt(text, i), end);
      assert MatchAt(text, i) == 0;
      ScanParagraph(text, start, i + 1, end);
    }
  }

  lemma {:induction false} SplitGlued(prefix: string, paras: seq<string>)
    requires WellFormed(paras) && paras != []
    ensures Pieces(prefix + Glue(paras), |prefix|, |prefix|) == paras
    decreases |paras|
  {
    var text := prefix + Glue(paras);
    var p := paras[0];
    var end := |prefix| + |p|;
    assert paras == [p] + paras[1..];
    if |paras| > 1 {
      GluedText(prefix, p, Glue(paras[1..]));
      assert Glue(paras[1..])[0] == paras[1][0];
      SplitGlued(prefix + p + GAP, paras[1..]);
    } else {
      assert text[|prefix|..end] == p;
    }
    ScanParagraph(text, |prefix|, |prefix|, end);
  }

  lemma GluedText(prefix: string, p: string, rest: string)
    requires rest != ""
    ensures var text, end := prefix + (p + GAP + rest), |prefix| + |p|;
            && text == prefix + p + GAP + rest && text[|prefix|..end] == p
            && text[end..end + 2] == GAP && text[end + 2] == rest[0]
  {
  }

  lemma {:induction false} KeepAll(paras: seq<string>)
    requires WellFormed(paras)
    ensures KeepNonBlank(paras) == paras
  {
    if paras != [] {
      StripFixpoint(paras[0]);
      KeepAll(paras[1..]);
      assert paras == [paras[0]] + paras[1..];
    }
  }

  lemma SplittingUndoesJoining(paras: seq<string>)
    requires WellFormed(paras)
    ensures Paragraphs(Glue(paras)) == paras
  {
    if paras == [] {
      assert Pieces("", 0, 0) == [""];
    } else {
      SplitGlued("", paras);
      assert "" + Glue(paras) == Glue(paras);
      KeepAll(paras);
    }
  }

  // ---- Greedy packing ----

  type Group = seq<string>

  function Flatten(groups: seq<Group>): seq<string> {
    if groups == [] then [] else groups[0] + Flatten(groups[1..])
  }

  /** The paragraphs `rest` packed into groups, the group being filled holding `cur`. */
  function Pack(size: int, cur: Group, rest: seq<string>): seq<Group>
    decreases |rest|
  {
    if rest == [] then (if cur == [] then [] else [cur])
    else if cur == [] || |Glue(cur + [rest[0]])| <= size then Pack(size, cur + [rest[0]], rest[1..])
    else [cur] + Pack(size, [rest[0]], rest[1..])
  }

  function Greedy(size: int, paras: seq<string>): seq<Group> { Pack(size, [], paras) }

  /** A group is admissible if it fits the chunk size or is a single paragraph. */
  predicate Admissible(size: int, g: Group) {
    |g| == 1 || (g != [] && |Glue(g)| <= size)
  }

  /** An order-preserving grouping of the paragraphs into admissible groups. */
  ghost predicate IsGrouping(size: int, groups: seq<Group>, paras: seq<string>) {
    Flatten(groups) == paras && forall k :: 0 <= k < |groups| ==> Admissible(size, groups[k])
  }

  /** Gluing shorter: a nonempty prefix of a group is no longer than the group. */
  lemma {:induction false} GluePrefix(g: Group, n: nat)
    requires 0 < n <= |g|
    ensures |Glue(g[..n])| <= |Glue(g)|
    decreases |g|
  {
    if n < |g| {
      var shorter := g[..|g| - 1];
      assert g == shorter + [g[|g| - 1]] && shorter[..n] == g[..n];
      JoinSnoc(GAP, shorter, g[|g| - 1]);
      GluePrefix(shorter, n);
    } else {
      assert g[..n] == g;
    }
  }

  /** Packing on from `cur` makes its first group with the next `m` paragraphs, as many as fit, then starts over. */
  ghost predicate FirstGroup(size: int, cur: Group, rest: seq<string>, m: nat) {
    && m <= |rest| && cur + rest[..m] != [] && Admissible(size, cur + rest[..m])
    && Pack(size, cur, rest) == [cur + rest[..m]] + Greedy(size, rest[m..])
    && (m < |rest| ==> |Glue(cur + rest[..m] + [rest[m]])| > size)
  }

  lemma PackStops(size: int, cur: Group, rest: seq<string>)
    requires cur != [] && Admissible(size, cur) && (rest != [] ==> |Glue(cur + [rest[0]])| > size)
    ensures FirstGroup(size, cur, rest, 0)
  {
    assert cur + rest[..0] == cur && rest[0..] == rest;
    if rest != [] {
      assert [] + [rest[0]] == [rest[0]];
    }
  }

  lemma PackGoesOn(size: int, cur: Group, rest: seq<string>, m: nat)
    requires rest != [] && (cur == [] || |Glue(cur + [rest[0]])| <= size)
    requires FirstGroup(size, cur + [rest[0]], rest[1..], m)
    ensures FirstGroup(size, cur, rest, m + 1)
  {
    assert cur + [rest[0]] + rest[1..][..m] == cur + rest[..m + 1];
    assert rest[1..][m..] == rest[m + 1..];
  }

  lemma NextFits(size: int, cur: Group, rest: seq<string>, n: nat)
    requires 0 < n <= |rest| && Admissible(size, cur + rest[..n])
    ensures cur == [] || |Glue(cur + [rest[0]])| <= size
    ensures Admissible(size, cur + [rest[0]] + rest[1..][..n - 1])
  {
    assert (cur + rest[..n])[..|cur| + 1] == cur + [rest[0]];
    assert rest[..n] == [rest[0]] + rest[1..][..n - 1];
    assert cur + [rest[0]] + rest[1..][..n - 1] == cur + rest[..n];
    GluePrefix(cur + rest[..n], |cur| + 1);
  }

  /** Greedy packing takes a first group at least as long as any admissible first group. */
  lemma {:induction false} PackFirst(size: int, cur: Group, rest: seq<string>, n: nat) returns (m: nat)
    requires n <= |rest| && (n > 0 ==> Admissible(size, cur + rest[..n]))
    requires cur + rest != [] && (cur != [] ==> Admissible(size, cur))
    ensures n <= m && FirstGroup(size, cur, rest, m)
    decreases |rest|
  {
    if n > 0 {
      NextFits(size, cur, rest, n);
    }
    if rest == [] || (cur != [] && |Glue(cur + [rest[0]])| > size) {
      PackStops(size, cur, rest);
      m := 0;
    } else {
      m := PackFirst(size, cur + [rest[0]], rest[1..], if n == 0 then 0 else n - 1);
      PackGoesOn(size, cur, rest, m);
      m := m + 1;
    }
  }

  /** The groups keep every paragraph in order, are admissible, and could not have taken the next paragraph. */
  lemma {:induction false} GreedyIsGrouping(size: int, paras: seq<string>)
    ensures IsGrouping(size, Greedy(size, paras), paras)
    ensures var groups := Greedy(size, paras);
            forall j, k :: 0 <= j < |groups| && k == j + 1 < |groups| ==> |Glue(groups[j] + [groups[k][0]])| > size
    decreases |paras|
  {
    if paras != [] {
      assert [] + paras[..1] == [paras[0]];
      var m := PackFirst(size, [], paras, 1);
      assert [] + paras[..m] == paras[..m];
      var rest := Greedy(size, paras[m..]);
      var groups := Greedy(size, paras);
      assert groups == [paras[..m]] + rest;
      GreedyIsGrouping(size, paras[m..]);
      assert groups[1..] == rest;
      assert paras == paras[..m] + paras[m..];
      if rest != [] {
        FirstOfFlatten(size, rest, paras[m..]);
      }
    }
  }

  lemma FirstOfFlatten(size: int, groups: seq<Group>, paras: seq<string>)
    requires IsGrouping(size, groups, paras) && groups != []
    ensures paras != [] && groups[0] != [] && groups[0][0] == paras[0]
  {
    assert Admissible(size, groups[0]);
  }

  /** Dropping the first `n` paragraphs of a grouping leaves a grouping with no more groups. */
  lemma {:induction false} DropParagraphs(size: int, groups: seq<Group>, paras: seq<string>, n: nat)
    returns (fewer: seq<Group>)
    requires IsGrouping(size, groups, paras) && n <= |paras|
    ensures IsGrouping(size, fewer, paras[n..]) && |fewer| <= |groups|
    decreases |groups|
  {
    if n == 0 || groups == [] {
      fewer := groups;
      assert paras[n..] == paras;
    } else {
      var g := groups[0];
      assert Admissible(size, g) && paras == g + Flatten(groups[1..]);
      if n < |g| {
        fewer := [g[n..]] + groups[1..];
        GlueSuffix(g, n);
        assert fewer[1..] == groups[1..];
        assert paras[n..] == g[n..] + Flatten(groups[1..]);
      } else {
        var rest := Flatten(groups[1..]);
        assert paras[n..] == rest[n - |g|..];
        fewer := DropParagraphs(size, groups[1..], rest, n - |g|);
      }
    }
  }

  lemma {:induction false} GlueSuffix(g: Group, n: nat)
    requires n < |g|
    ensures |Glue(g[n..])| <= |Glue(g)|
  {
    if n > 0 {
      assert g[1..][n - 1..] == g[n..];
      GlueSuffix(g[1..], n - 1);
    } else {
      assert g[0..] == g;
    }
  }

  /** Greedy packing uses the fewest groups of any order-preserving grouping into admissible groups. */
  lemma {:induction false} GreedyIsMinimal(size: int, groups: seq<Group>, paras: seq<string>)
    requires IsGrouping(size, groups, paras)
    ensures |Greedy(size, paras)| <= |groups|
    decreases |paras|
  {
    if paras != [] {
      var g := groups[0];
      var rest := Flatten(groups[1..]);
      assert Admissible(size, g) && paras == g + rest;
      assert [] + paras[..|g|] == g;
      var m := PackFirst(size, [], paras, |g|);
      assert paras[m..] == rest[m - |g|..];
      var fewer := DropParagraphs(size, groups[1..], rest, m - |g|);
      GreedyIsMinimal(size, fewer, paras[m..]);
    }
  }

  // ---- The chunker ----

  /** The chunk objects made from `groups`: glued contents, running positions that step back by the overlap. */
  ghost predicate LaidOut(c: ChunkingConfig, groups: seq<Group>, total: nat, chunks: seq<DocumentChunk>) {
    && |chunks| == |groups|
    && (chunks != [] ==> chunks[0].startChar == 0)
    && (forall k :: 0 <= k < |chunks| ==>
          && chunks[k].content == Glue(groups[k]) && chunks[k].index == k && chunks[k].totalChunks == total
          && chunks[k].endChar == chunks[k].startChar + |Glue(groups[k])|)
    && (forall j, k :: 0 <= j < |chunks| && k == j + 1 < |chunks| ==>
          chunks[k].startChar == Next(c, chunks[j].startChar, Glue(groups[j])))
  }

  function Next(c: ChunkingConfig, pos: nat, chunk: string): nat {
    pos + Max(0, |chunk| - c.chunkOverlap)
  }

  /** A chunk starts where the one before it does, or that chunk's overlap before its end if it is longer. */
  lemma PositionsExactly(c: ChunkingConfig, groups: seq<Group>, total: nat, chunks: seq<DocumentChunk>, k: nat)
    requires LaidOut(c, groups, total, chunks) && k < |chunks|
    ensures chunks[k].endChar - chunks[k].startChar == |chunks[k].content|
    ensures chunks[k].startChar ==
              if k == 0 then 0
              else if |chunks[k - 1].content| <= c.chunkOverlap then chunks[k - 1].startChar
              else chunks[k - 1].endChar - c.chunkOverlap
  {
    if k > 0 {
      var j := k - 1;
      assert chunks[k].startChar == Next(c, chunks[j].startChar, Glue(groups[j]));
    }
  }

  /** The `k`-th of the parts joined with blank lines begins here. */
  function Offset(parts: seq<string>, k: nat): nat
    requires k < |parts|
  {
    if k == 0 then 0 else |Glue(parts[..k])| + 2
  }

  lemma PartIsAtOffset(parts: seq<string>, k: nat)
    requires k < |parts|
    ensures OccursAt(Glue(parts), parts[k], Offset(parts, k))
  {
    var part := parts[k];
    assert parts == parts[..k] + parts[k..] && Glue([part]) == part;
    if k > 0 {
      GlueConcat(parts[..k], parts[k..]);
    }
    if k + 1 < |parts| {
      assert parts[k..] == [part] + parts[k + 1..];
      GlueConcat([part], parts[k + 1..]);
    } else {
      assert parts[k..] == [part];
    }
    assert Glue(parts[k..])[..|part|] == part;
    var at := Offset(parts, k);
    assert Glue(parts) == Glue(parts)[..at] + Glue(parts[k..]);
  }

  lemma OffsetNext(parts: seq<string>, k: nat)
    requires k + 1 < |parts|
    ensures Offset(parts, k + 1) == Offset(parts, k) + |parts[k]| + 2
  {
    assert parts[..k + 1] == parts[..k] + [parts[k]];
    if k > 0 {
      JoinSnoc(GAP, parts[..k], parts[k]);
    } else {
      assert parts[..1] == [parts[0]];
    }
  }

  lemma {:induction false} OffsetsIfBack(
    c: ChunkingConfig, groups: seq<Group>, total: nat, chunks: seq<DocumentChunk>, k: nat)
    requires LaidOut(c, groups, total, chunks) && k < |chunks| && c.chunkOverlap == -2
    ensures |Contents(groups)| == |chunks| && chunks[k].startChar == Offset(Contents(groups), k)
  {
    ContentsAt(groups, k);
    if k > 0 {
      PositionsExactly(c, groups, total, chunks, k);
      OffsetsIfBack(c, groups, total, chunks, k - 1);
      ContentsAt(groups, k - 1);
      OffsetNext(Contents(groups), k - 1);
    }
  }

  ghost predicate InPlace(groups: seq<Group>, chunks: seq<DocumentChunk>) {
    && |Contents(groups)| == |chunks|
    && forall k :: 0 <= k < |chunks| ==> chunks[k].startChar == Offset(Contents(groups), k)
  }

  /**
   The recorded positions leave out the blank lines and step back by the overlap: they are the places
   of the chunks in the joined text exactly if there is one chunk at most, or an overlap of -2.
   */
  lemma InPlaceExactlyWhen(c: ChunkingConfig, groups: seq<Group>, total: nat, chunks: seq<DocumentChunk>)
    requires LaidOut(c, groups, total, chunks)
    ensures InPlace(groups, chunks) <==> |chunks| <= 1 || c.chunkOverlap == -2
  {
    if |chunks| > 0 {
      ContentsAt(groups, 0);
    }
    if c.chunkOverlap == -2 {
      forall k | 0 <= k < |chunks| ensures chunks[k].startChar == Offset(Contents(groups), k) {
        OffsetsIfBack(c, groups, total, chunks, k);
      }
    } else if |chunks| > 1 {
      PositionsExactly(c, groups, total, chunks, 1);
      OffsetNext(Contents(groups), 0);
    }
  }

  lemma {:induction false} GlueTrimmed(g: Group)
    requires WellFormed(g) && g != []
    ensures Trimmed(Glue(g)) && Strip(Glue(g)) == Glue(g)
  {
    if |g| > 1 {
      GlueTrimmed(g[1..]);
    }
    StripFixpoint(Glue(g));
  }

  lemma {:induction false} BlankPieces(text: string, start: nat, i: nat)
    requires Blank(text) && start <= i <= |text|
    ensures KeepNonBlank(Pieces(text, start, i)) == []
    decreases |text| - i
  {
    var end := if i == |text| then |text| else i;
    assert text[start..] == text[start..|text|];
    StripBlank(text[start..end]);
    if i < |text| {
      var e := MatchAt(text, i);
      if e == 0 {
        BlankPieces(text, start, i + 1);
      } else {
        BlankPieces(text, e, e);
        assert ([text[start..i]] + Pieces(text, e, e))[1..] == Pieces(text, e, e);
      }
    } else {
      assert [text[start..]][1..] == [];
    }
  }

  lemma StripBlank(s: string)
    requires Blank(s)
    ensures Strip(s) == ""
  {
    var a, b := StripCuts(s);
  }

  /** `SimpleChunker.chunk_document`. */
  method ChunkDocument(c: ChunkingConfig, content: string) returns (chunks: seq<DocumentChunk>)
    ensures LaidOut(c, Greedy(c.chunkSize, Paragraphs(content)), |chunks|, chunks)
  {
    if Strip(content) == "" {
      var a, b := StripCuts(content);
      BlankPieces(content, 0, 0);
      return [];
    }
    PiecesUnbroken(content, 0, 0);
    chunks := FillChunks(c, Pieces(content, 0, 0));
    chunks := seq(|chunks|, k requires 0 <= k < |chunks| => chunks[k].(totalChunks := |chunks|));
  }

  /** Its loop over the pieces of the document, before the totals are filled in. */
  method FillChunks(c: ChunkingConfig, pieces: seq<string>) returns (chunks: seq<DocumentChunk>)
    requires forall p :: p in pieces ==> Unbroken(p)
    ensures LaidOut(c, Greedy(c.chunkSize, KeepNonBlank(pieces)), 0, chunks)
  {
    chunks := [];
    var currentChunk := "";
    var currentPos: nat, chunkIndex: nat := 0, 0;
    ghost var done: seq<Group>, cur: Group := [], [];
    for i := 0 to |pieces|
      invariant Filling(c, done, chunks, currentPos, cur, currentChunk) && chunkIndex == |done|
      invariant done + Pack(c.chunkSize, cur, KeepNonBlank(pieces[i..])) == Greedy(c.chunkSize, KeepNonBlank(pieces))
    {
      var paragraph := Strip(pieces[i]);
      NonBlankCons(pieces, i);
      if paragraph == "" {
        continue;
      }
      StripUnbroken(pieces[i]);
      chunks, currentChunk, currentPos, chunkIndex, done, cur :=
        AddParagraph(c, chunks, currentChunk, currentPos, chunkIndex, paragraph, done, cur,
          KeepNonBlank(pieces[i + 1..]));
    }
    assert pieces[|pieces|..] == [];
    FillEnd(c, done, chunks, currentPos, cur, currentChunk);
    if currentChunk != "" {
      chunks := chunks + [CreateChunk(currentChunk, chunkIndex, currentPos, currentPos + |currentChunk|)];
    }
  }

  /** The body of the loop: the paragraph joins the current chunk, or that chunk is emitted and another begun. */
  method AddParagraph(
    c: ChunkingConfig, before: seq<DocumentChunk>, current: string, pos: nat, index: nat, paragraph: string,
    ghost emitted: seq<Group>, ghost filling: Group, ghost rest: seq<string>)
    returns (chunks: seq<DocumentChunk>, currentChunk: string, currentPos: nat, chunkIndex: nat,
             ghost done: seq<Group>, ghost cur: Group)
    requires Filling(c, emitted, before, pos, filling, current) && index == |emitted|
    requires Trimmed(paragraph) && Unbroken(paragraph)
    ensures Filling(c, done, chunks, currentPos, cur, currentChunk) && chunkIndex == |done|
    ensures done + Pack(c.chunkSize, cur, rest) == emitted + Pack(c.chunkSize, filling, [paragraph] + rest)
    ensures chunks == if current != "" && |current + GAP + paragraph| > c.chunkSize
                      then before + [CreateChunk(current, index, pos, pos + |current|)] else before
  {
    chunks, currentPos, chunkIndex, done := before, pos, index, emitted;
    PackStep(c.chunkSize, filling, paragraph, rest);
    FillStep(c, emitted, before, pos, filling, paragraph);
    var potentialChunk := if current != "" then current + GAP + paragraph else paragraph;
    if |potentialChunk| <= c.chunkSize {
      currentChunk := potentialChunk;
      cur := filling + [paragraph];
    } else {
      if current != "" {
        Regroup(emitted, filling, Pack(c.chunkSize, [paragraph], rest));
        done := emitted + [filling];
        chunks := before + [CreateChunk(current, index, pos, pos + |current|)];
        var overlapStart := Max(0, |current| - c.chunkOverlap);
        currentPos := pos + overlapStart;
        chunkIndex := index + 1;
      }
      currentChunk := paragraph;
      cur := [paragraph];
    }
  }

  /** The state of the loop: emitted groups `done`, the group `cur` being filled. */
  ghost predicate Filling(
    c: ChunkingConfig, done: seq<Group>, chunks: seq<DocumentChunk>, pos: nat, cur: Group, current: string)
  {
    && LaidOut(c, done, 0, chunks)
    && pos == (if done == [] then 0 else Next(c, chunks[|done| - 1].startChar, Glue(done[|done| - 1])))
    && WellFormed(cur) && current == Glue(cur) && (current == "" <==> cur == [])
  }

  /** The two ways the loop goes on with another paragraph. */
  lemma FillStep(c: ChunkingConfig, done: seq<Group>, chunks: seq<DocumentChunk>, pos: nat, cur: Group, p: string)
    requires Filling(c, done, chunks, pos, cur, Glue(cur)) && Trimmed(p) && Unbroken(p)
    ensures cur == [] ==> cur + [p] == [p]
    ensures cur != [] ==> Glue(cur + [p]) == Glue(cur) + GAP + p
    ensures Filling(c, done, chunks, pos, [p], p) && Filling(c, done, chunks, pos, cur + [p], Glue(cur + [p]))
    ensures cur != [] ==>
              var chunk := CreateChunk(Glue(cur), |done|, pos, pos + |Glue(cur)|);
              Filling(c, done + [cur], chunks + [chunk], Next(c, pos, Glue(cur)), [p], p)
  {
    assert WellFormed([p]) && Glue([p]) == p;
    if cur != [] {
      JoinSnoc(GAP, cur, p);
      LaidOutSnoc(c, done, chunks, cur, pos);
    } else {
      assert cur + [p] == [p];
    }
  }

  /** When no paragraph is left, the group being filled is emitted too. */
  lemma FillEnd(c: ChunkingConfig, done: seq<Group>, chunks: seq<DocumentChunk>, pos: nat, cur: Group, current: string)
    requires Filling(c, done, chunks, pos, cur, current)
    ensures LaidOut(c, done + Pack(c.chunkSize, cur, []), 0,
                    if current == "" then chunks else chunks + [CreateChunk(current, |done|, pos, pos + |current|)])
  {
    if cur == [] {
      assert done + Pack(c.chunkSize, cur, []) == done;
    } else {
      LaidOutSnoc(c, done, chunks, cur, pos);
    }
  }

  function CreateChunk(content: string, index: nat, startPos: nat, endPos: nat): DocumentChunk {
    DocumentChunk(Strip(content), index, startPos, endPos, 0)
  }

  lemma PackStep(size: int, cur: Group, p: string, rest: seq<string>)
    ensures Pack(size, cur, [p] + rest) ==
              if cur == [] then Pack(size, [p], rest)
              else if |Glue(cur + [p])| <= size then Pack(size, cur + [p], rest)
              else [cur] + Pack(size, [p], rest)
  {
    assert ([p] + rest)[1..] == rest;
    assert [] + [p] == [p];
  }

  /** Emitting the group being filled. */
  lemma LaidOutSnoc(c: ChunkingConfig, done: seq<Group>, chunks: seq<DocumentChunk>, cur: Group, pos: nat)
    requires LaidOut(c, done, 0, chunks) && cur != [] && WellFormed(cur)
    requires pos == if done == [] then 0 else Next(c, chunks[|done| - 1].startChar, Glue(done[|done| - 1]))
    ensures LaidOut(c, done + [cur], 0, chunks + [CreateChunk(Glue(cur), |done|, pos, pos + |Glue(cur)|)])
  {
    GlueTrimmed(cur);
  }

  lemma NonBlankCons(pieces: seq<string>, i: nat)
    requires i < |pieces|
    ensures var p := Strip(pieces[i]);
            KeepNonBlank(pieces[i..]) ==
              if p == "" then KeepNonBlank(pieces[i + 1..]) else [p] + KeepNonBlank(pieces[i + 1..])
  {
    assert pieces[i..][1..] == pieces[i + 1..];
  }

  // ---- What the chunks are worth ----

  function Contents(groups: seq<Group>): seq<string> {
    if groups == [] then [] else [Glue(groups[0])] + Contents(groups[1..])
  }

  lemma {:induction false} ContentsAt(groups: seq<Group>, k: nat)
    requires k < |groups|
    ensures |Contents(groups)| == |groups| && Contents(groups)[k] == Glue(groups[k])
  {
    if k > 0 {
      ContentsAt(groups[1..], k - 1);
    } else if |groups| > 1 {
      ContentsAt(groups[1..], 0);
    }
  }

  lemma {:induction false} GlueConcat(a: Group, b: Group)
    requires a != [] && b != []
    ensures Glue(a + b) == Glue(a) + GAP + Glue(b)
  {
    if |a| == 1 {
      assert (a + b)[1..] == b;
    } else {
      assert (a + b)[1..] == a[1..] + b;
      GlueConcat(a[1..], b);
    }
  }

  /** Gluing the glued groups is gluing all their paragraphs. */
  lemma {:induction false} GlueContents(size: int, groups: seq<Group>, paras: seq<string>)
    requires IsGrouping(size, groups, paras)
    ensures Glue(Contents(groups)) == Glue(paras)
  {
    if groups != [] {
      var rest := groups[1..];
      assert Admissible(size, groups[0]);
      GlueContents(size, rest, Flatten(rest));
      assert Contents(groups)[1..] == Contents(rest);
      if rest != [] {
        FirstOfFlatten(size, rest, Flatten(rest));
        ContentsAt(rest, 0);
        GlueConcat(groups[0], Flatten(rest));
      } else {
        assert paras == groups[0];
      }
    }
  }

  /**
   Joining the chunks with blank lines gives the joined paragraphs, and chunking that text again
   gives the same groups, so the same chunks.
   */
  lemma RechunkingIsStable(size: int, content: string)
    ensures var groups := Greedy(size, Paragraphs(content));
            var joined := Glue(Contents(groups));
            && joined == Glue(Paragraphs(content))
            && Greedy(size, Paragraphs(joined)) == groups
  {
    var paras := Paragraphs(content);
    GreedyIsGrouping(size, paras);
    GlueContents(size, Greedy(size, paras), paras);
    ParagraphsWellFormed(content);
    SplittingUndoesJoining(paras);
  }

  lemma InkAround(a: string, gap: string, b: string)
    requires Blank(gap)
    ensures Ink(a + (gap + b)) == Ink(a) + Ink(b)
  {
    InkBlank(gap);
    InkConcat(gap, b);
    InkConcat(a, gap + b);
  }

  lemma InkCut(text: string, start: nat, i: nat, e: nat)
    requires start <= i <= e <= |text| && Blank(text[i..e])
    ensures Ink(text[start..]) == Ink(text[start..i]) + Ink(text[e..])
  {
    InkAround(text[start..i], text[i..e], text[e..]);
    assert text[i..] == text[i..e] + text[e..];
    assert text[start..] == text[start..i] + text[i..];
  }

  lemma {:induction false} InkPieces(text: string, start: nat, i: nat)
    requires start <= i <= |text|
    ensures Ink(Glue(KeepNonBlank(Pieces(text, start, i)))) == Ink(text[start..])
    decreases |text| - i
  {
    if i == |text| {
      InkGlueCons(text[start..], []);
      assert [text[start..]] == [text[start..]] + [];
    } else {
      var e := MatchAt(text, i);
      if e == 0 {
        InkPieces(text, start, i + 1);
      } else {
        InkPieces(text, e, e);
        InkGlueCons(text[start..i], Pieces(text, e, e));
        MatchIsLongest(text, i, 0);
        InkCut(text, start, i, e);
      }
    }
  }

  lemma InkGlueCons(piece: string, pieces: seq<string>)
    ensures Ink(Glue(KeepNonBlank([piece] + pieces))) == Ink(piece) + Ink(Glue(KeepNonBlank(pieces)))
  {
    var p, rest := Strip(piece), KeepNonBlank(pieces);
    assert ([piece] + pieces)[1..] == pieces;
    InkStrip(piece);
    if p == "" {
      assert [] + rest == rest;
    } else if rest == [] {
      assert [p] + [] == [p];
    } else {
      GlueConcat([p], rest);
      assert Glue([p]) == p;
      InkConcat(p + GAP, Glue(rest));
      InkConcat(p, GAP);
      InkBlank(GAP);
    }
  }

  /** No character but white space is lost, repeated or moved, whatever the document and the configuration. */
  lemma ChunksKeepInk(size: int, content: string)
    ensures Ink(Glue(Contents(Greedy(size, Paragraphs(content))))) == Ink(content)
  {
    RechunkingIsStable(size, content);
    InkPieces(content, 0, 0);
    assert content[0..] == content;
  }
}
