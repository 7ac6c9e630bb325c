/** How the semantic chunker packs sections: which of them share a chunk, and which are cut. */
module SemanticPacking {
  import opened Text
  import opened SimpleSplit
  import opened SemanticChunker

  /** Sections `from..end` in one chunk, or one section cut into several. */
  datatype Piece = Together(from: nat, end: nat) | CutUp(at: nat) {
    function Begin(): nat { if Together? then from else at }
    function End(): nat { if Together? then end else at + 1 }
  }

  /** The sections with blank lines between them. */
  function Joined(sections: seq<string>, from: nat, end: nat): string
    requires from <= end <= |sections|
  {
    Join(GAP, sections[from..end])
  }

  function EndOf(pieces: seq<Piece>): nat { if pieces == [] then 0 else pieces[|pieces| - 1].End() }

  /**
   The piece may come after those before it: sections share a chunk if they fit the chunk size; one that
   does not fit in the chunk before it is on its own, and is cut exactly if it is over the maximum size.
   */
  predicate Follows(c: ChunkingConfig, sections: seq<string>, before: seq<Piece>, p: Piece) {
    && p.Begin() == EndOf(before) && p.Begin() < p.End() <= |sections|
    && var first, flushes := |sections[p.Begin()]|, before != [] && before[|before| - 1].Together?;
       if p.CutUp? then first > c.maxChunkSize && (flushes || first > c.chunkSize)
       else
         && (first <= c.maxChunkSize || (!flushes && first <= c.chunkSize))
         && (p.end == p.from + 1 || |Joined(sections, p.from, p.end)| <= c.chunkSize)
  }

  /** No further section would have fit. */
  predicate IsFull(c: ChunkingConfig, sections: seq<string>, p: Piece) {
    p.Together? && p.from <= p.end < |sections| ==>
      |Joined(sections, p.from, p.end)| + |GAP| + |sections[p.end]| > c.chunkSize
  }

  predicate IsLayout(c: ChunkingConfig, sections: seq<string>, pieces: seq<Piece>) {
    pieces == []
    || var before, p := pieces[..|pieces| - 1], pieces[|pieces| - 1];
       IsLayout(c, sections, before) && Follows(c, sections, before, p) && IsFull(c, sections, p)
  }

  /** The chunks of the pieces: the sections of each joined and stripped, or what a section is cut into. */
  function Laid(cut: Cutter, sections: seq<string>, pieces: seq<Piece>): seq<string> {
    if pieces == [] then []
    else
      var p := pieces[|pieces| - 1];
      Laid(cut, sections, pieces[..|pieces| - 1])
      + if p.End() > |sections| || p.Begin() > p.End() then []
        else if p.CutUp? then cut(p.at, sections[p.at])
        else [Strip(Joined(sections, p.from, p.end))]
  }

  lemma JoinedNext(sections: seq<string>, from: nat, end: nat)
    requires from <= end < |sections|
    ensures Joined(sections, from, end + 1) ==
              if from == end then sections[end] else Joined(sections, from, end) + GAP + sections[end]
  {
    assert sections[from..end + 1] == sections[from..end] + [sections[end]];
    if from < end {
      JoinSnoc(GAP, sections[from..end], sections[end]);
    } else {
      assert sections[from..end + 1] == [sections[end]];
    }
  }

  lemma {:induction false} JoinedNotEmpty(sections: seq<string>, from: nat, end: nat)
    requires from < end <= |sections| && forall k :: 0 <= k < |sections| ==> sections[k] != ""
    ensures Joined(sections, from, end) != ""
  {
    JoinedNext(sections, from, end - 1);
  }

  /** The packing after `n` sections: `pieces` are flushed, and the sections from there on are being gathered. */
  ghost predicate Gathers(
    c: ChunkingConfig, cut: Cutter, sections: seq<string>, n: nat, packing: Packing, pieces: seq<Piece>)
  {
    && EndOf(pieces) <= n <= |sections| && IsLayout(c, sections, pieces)
    && packing.chunks == Laid(cut, sections, pieces)
    && packing.current == (if EndOf(pieces) == n then "" else Joined(sections, EndOf(pieces), n))
    && (EndOf(pieces) < n ==> Follows(c, sections, pieces, Together(EndOf(pieces), n)))
    && (EndOf(pieces) == n ==> pieces == [] || pieces[|pieces| - 1].CutUp?)
  }

  lemma LayoutSnoc(c: ChunkingConfig, cut: Cutter, sections: seq<string>, pieces: seq<Piece>, p: Piece)
    requires IsLayout(c, sections, pieces) && Follows(c, sections, pieces, p) && IsFull(c, sections, p)
    ensures IsLayout(c, sections, pieces + [p]) && EndOf(pieces + [p]) == p.End()
    ensures Laid(cut, sections, pieces + [p]) ==
              Laid(cut, sections, pieces)
              + if p.CutUp? then cut(p.at, sections[p.at]) else [Strip(Joined(sections, p.from, p.end))]
  {
    assert (pieces + [p])[..|pieces|] == pieces;
  }

  /** One more section. */
  lemma GathersNext(
    c: ChunkingConfig, cut: Cutter, sections: seq<string>, n: nat, packing: Packing, pieces: seq<Piece>)
    returns (more: seq<Piece>)
    requires Gathers(c, cut, sections, n, packing, pieces) && n < |sections|
    requires forall k :: 0 <= k < |sections| ==> sections[k] != ""
    ensures Gathers(c, cut, sections, n + 1, PackOne(c, packing, sections[n], cut(n, sections[n])), more)
  {
    var m, section := EndOf(pieces), sections[n];
    JoinedNext(sections, m, n);
    JoinedNext(sections, n, n);
    if m < n {
      JoinedNotEmpty(sections, m, n);
    }
    more := pieces;
    if |Potential(packing, section)| > c.chunkSize {
      if m < n {
        LayoutSnoc(c, cut, sections, pieces, Together(m, n));
        more := pieces + [Together(m, n)];
      }
      if |section| > c.maxChunkSize {
        LayoutSnoc(c, cut, sections, more, CutUp(n));
        more := more + [CutUp(n)];
      }
    }
  }

  lemma {:induction false} GathersFirst(
    c: ChunkingConfig, cut: Cutter, sections: seq<string>, n: nat, packing: Packing)
    returns (pieces: seq<Piece>)
    requires n <= |sections| && forall k :: 0 <= k < |sections| ==> sections[k] != ""
    requires packing == PackFirst(c, cut, sections, n)
    ensures Gathers(c, cut, sections, n, packing, pieces)
  {
    if n == 0 {
      pieces := [];
    } else {
      var before := PackFirst(c, cut, sections, n - 1);
      var fewer := GathersFirst(c, cut, sections, n - 1, before);
      pieces := GathersNext(c, cut, sections, n - 1, before, fewer);
      PackNext(c, cut, sections, n - 1);
    }
  }

  /**
   Packing is greedy: the packed chunks are those of the layout in which every chunk takes as many
   sections as fit, an oversized section is cut, and nothing is left out.
   */
  lemma PackedIsLayout(c: ChunkingConfig, cut: Cutter, sections: seq<string>) returns (pieces: seq<Piece>)
    requires forall k :: 0 <= k < |sections| ==> sections[k] != ""
    ensures IsLayout(c, sections, pieces) && EndOf(pieces) == |sections|
    ensures Packed(c, cut, sections) == Laid(cut, sections, pieces)
  {
    var n := |sections|;
    pieces := GathersFirst(c, cut, sections, n, PackFirst(c, cut, sections, n));
    if EndOf(pieces) < n {
      JoinedNotEmpty(sections, EndOf(pieces), n);
      LayoutSnoc(c, cut, sections, pieces, Together(EndOf(pieces), n));
      pieces := pieces + [Together(EndOf(pieces), n)];
    }
  }

  // ---- There is only one such layout ----

  lemma {:induction false} LayoutPrefix(c: ChunkingConfig, sections: seq<string>, pieces: seq<Piece>, k: nat)
    requires IsLayout(c, sections, pieces) && k < |pieces|
    ensures IsLayout(c, sections, pieces[..k])
    ensures Follows(c, sections, pieces[..k], pieces[k]) && IsFull(c, sections, pieces[k])
  {
    var n := |pieces| - 1;
    if k < n {
      LayoutPrefix(c, sections, pieces[..n], k);
      assert pieces[..n][..k] == pieces[..k];
    }
  }

  lemma {:induction false} LongerJoined(sections: seq<string>, from: nat, mid: nat, end: nat)
    requires from < mid <= end <= |sections|
    ensures |Joined(sections, from, mid)| <= |Joined(sections, from, end)|
    decreases end
  {
    if end != mid {
      JoinedNext(sections, from, end - 1);
      LongerJoined(sections, from, mid, end - 1);
    }
  }

  lemma OneNext(c: ChunkingConfig, sections: seq<string>, before: seq<Piece>, p: Piece, q: Piece)
    requires Follows(c, sections, before, p) && IsFull(c, sections, p)
    requires Follows(c, sections, before, q) && IsFull(c, sections, q)
    ensures p == q
  {
    if p.Together? && q.Together? {
      if p.end < q.end {
        JoinedNext(sections, p.from, p.end);
        LongerJoined(sections, p.from, p.end + 1, q.end);
      } else if q.end < p.end {
        JoinedNext(sections, q.from, q.end);
        LongerJoined(sections, q.from, q.end + 1, p.end);
      }
    }
  }

  lemma SameNext(c: ChunkingConfig, sections: seq<string>, pieces: seq<Piece>, others: seq<Piece>, k: nat)
    requires IsLayout(c, sections, pieces) && IsLayout(c, sections, others) && k < |pieces| && k < |others|
    requires pieces[..k] == others[..k]
    ensures pieces[k] == others[k]
  {
    LayoutPrefix(c, sections, pieces, k);
    LayoutPrefix(c, sections, others, k);
    OneNext(c, sections, pieces[..k], pieces[k], others[k]);
  }

  lemma {:induction false} SamePrefix(
    c: ChunkingConfig, sections: seq<string>, pieces: seq<Piece>, others: seq<Piece>, k: nat)
    requires IsLayout(c, sections, pieces) && IsLayout(c, sections, others) && k <= |pieces| && k <= |others|
    ensures pieces[..k] == others[..k]
  {
    if k > 0 {
      SamePrefix(c, sections, pieces, others, k - 1);
      SameNext(c, sections, pieces, others, k - 1);
      assert pieces[..k] == pieces[..k - 1] + [pieces[k - 1]];
      assert others[..k] == others[..k - 1] + [others[k - 1]];
    }
  }

  lemma LayoutIsUnique(c: ChunkingConfig, sections: seq<string>, pieces: seq<Piece>, others: seq<Piece>)
    requires IsLayout(c, sections, pieces) && IsLayout(c, sections, others)
    requires EndOf(pieces) == EndOf(others) == |sections|
    ensures pieces == others
  {
    var k := if |pieces| < |others| then |pieces| else |others|;
    SamePrefix(c, sections, pieces, others, k);
    assert pieces[..|pieces|] == pieces && others[..|others|] == others;
    if k < |pieces| {
      LayoutPrefix(c, sections, pieces, k);
    } else if k < |others| {
      LayoutPrefix(c, sections, others, k);
    }
  }
}
