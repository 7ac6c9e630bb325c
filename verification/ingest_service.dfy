/** The service and its database helpers, as updates of the two stores. */
module IngestService {
  import opened Wrappers
  import opened IngestSpec

  /** The identifiers `base..base + n` whose write is not lost. */
  function Kept(base: Id, n: nat, lost: Id -> bool): set<Id> { set id | base <= id < base + n && !lost(id) }

  lemma KeptNext(base: Id, n: nat, lost: Id -> bool)
    ensures |Kept(base, n + 1, lost)| == |Kept(base, n, lost)| + if lost(base + n) then 0 else 1
  {
    assert Kept(base, n + 1, lost) == Kept(base, n, lost) + if lost(base + n) then {} else {base + n};
  }

  class Service {
    var docs: map<Id, Document>
    var rows: map<Id, Row>
    var entries: map<Id, Entry>
    var version: nat
    var next: Id

    ghost function State(): Db
      reads this
    {
      Db(docs, rows, entries, version, next)
    }

    constructor ()
      ensures State() == Db(map[], map[], map[], 0, 0)
    {
      docs, rows, entries, version, next := map[], map[], map[], 0, 0;
    }

    method GetDocumentBySource(source: string) returns (found: Option<Id>)
      requires UniqueSources(State())
      ensures found == FindDocument(docs, source)
    {
      var ids := set d | d in docs && docs[d].source == source;
      if ids == {} {
        assert forall d :: d in docs && docs[d].source == source ==> d in ids;
        return None;
      }
      var d :| d in ids;
      assert docs[d].source == source;
      return Some(d);
    }

    method SaveChunks(d: Id, chunks: seq<Chunk>, embed: Chunk -> Vector)
      modifies `rows, `next
      ensures rows == Insert(old(rows), old(next), d, chunks, embed) && next == old(next) + |chunks|
    {
      for n := 0 to |chunks|
        invariant rows == Insert(old(rows), old(next), d, chunks[..n], embed) && next == old(next) + n
      {
        assert chunks[..n + 1][..n] == chunks[..n];
        rows := rows[next := Row(d, chunks[n].content, chunks[n].index, embed(chunks[n]))];
        next := next + 1;
      }
      assert chunks[..|chunks|] == chunks;
    }

    /** Feed rows `base..base + n`; a lost write is logged and skipped. */
    method FeedChunks(base: Id, n: nat, r: Request, lost: Id -> bool) returns (fed: nat)
      requires forall i :: base <= i < base + n ==> i in rows
      modifies `entries
      ensures entries == Feed(old(entries), rows, base, n, r, lost)
      ensures fed == |Kept(base, n, lost)|
    {
      fed := 0;
      for k := 0 to n
        invariant entries == Feed(old(entries), rows, base, k, r, lost)
        invariant fed == |Kept(base, k, lost)|
      {
        var id := base + k;
        KeptNext(base, k, lost);
        if !lost(id) {
          entries := entries[id := ToEntry(rows[id], r.title, r.source, r.access)];
          fed := fed + 1;
        }
      }
    }

    /** Delete entries one at a time; a lost delete is logged and skipped. */
    method DeleteEntries(ids: set<Id>, lost: Id -> bool)
      modifies `entries
      ensures entries == Drop(old(entries), ids, lost)
    {
      var todo := ids;
      while todo != {}
        invariant todo <= ids
        invariant entries == Drop(old(entries), ids - todo, lost)
      {
        var id :| id in todo;
        todo := todo - {id};
        if !lost(id) {
          entries := entries - {id};
        }
      }
      assert ids - {} == ids;
    }

    method IngestDocument(r: Request, w: World) returns (result: Result)
      requires Allocated(State()) && UniqueSources(State())
      modifies this
      ensures (State(), result) == Ingest(old(State()), r, w)
    {
      if w.fault == AtLookUp {
        return FAILED;
      }
      var existing := GetDocumentBySource(r.source);
      if existing.Some? && docs[existing.value].digest == r.content {
        return Result(Skipped, existing, 0);
      }
      if w.fault == AtChunking {
        return FAILED;
      }
      var chunks := w.chunker(r.content);
      if existing.Some? {
        if w.fault == AtReadChunks {
          return FAILED;
        }
        result := UpdateDocument(existing.value, chunks, r, w);
      } else {
        if w.fault == AtWriteDocument {
          return FAILED;
        }
        var d := next;
        next := next + 1;
        docs := docs[d := Document(r.source, r.title, r.content, r.access)];
        assert State() == Create(old(State()), r);
        result := EmbedAndSave(d, chunks, r, w, Inserted);
      }
    }

    /** The chunk-level diff, against the rows that are read. */
    method UpdateDocument(d: Id, chunks: seq<Chunk>, r: Request, w: World) returns (result: Result)
      requires Allocated(State()) && d in docs && chunks == w.chunker(r.content)
      modifies this
      ensures (State(), result) == Update(old(State()), r, w, d)
    {
      var read := Returned(rows, w.unread);
      var stale := Stale(read, d, chunks);
      var selected := ToEmbed(chunks, Stored(read, d));
      if stale != {} {
        if w.fault == AtDeleteChunks {
          return FAILED;
        }
        rows := rows - stale;
      }
      assert rows == old(rows) - stale;
      DeleteEntries(stale, w.lostDelete);
      if w.fault == AtWriteDocument {
        return FAILED;
      }
      docs := docs[d := docs[d].(title := r.title, digest := r.content)];
      if selected == [] {
        return Result(Updated, Some(d), 0);
      }
      result := EmbedAndSave(d, selected, r, w, Updated);
    }

    /** Embed and save the chunks, build the graph, feed the saved rows, bump the cache version. */
    method EmbedAndSave(d: Id, chunks: seq<Chunk>, r: Request, w: World, status: Status) returns (result: Result)
      requires Allocated(State())
      modifies this
      ensures (State(), result) == Finish(old(State()), d, chunks, r, w, status)
    {
      if chunks != [] && w.fault == AtEmbedding {
        return FAILED;
      }
      var embedded := Survivors(chunks, w.lostEmbed);
      if embedded != [] && w.fault == AtSaveChunks {
        return FAILED;
      }
      var base := next;
      InsertedRows(rows, base, d, embedded, w.embed);
      SaveChunks(d, embedded, w.embed);
      assert State() == SaveRows(old(State()), d, embedded, w);
      if embedded != [] && w.fault == AtGraph {
        return FAILED;
      }
      var fed := FeedChunks(base, |embedded|, r, w.lostFeed);
      if w.redis {
        version := version + 1;
      }
      return Result(status, Some(d), |embedded|);
    }

    method DeleteDocument(d: Id, w: World)
      modifies this
      ensures State() == Delete(old(State()), d, w)
    {
      if w.fault == AtLookUp || w.fault == AtDeleteChunks {
        return;
      }
      rows := rows - RowIds(rows, d);
      var owned := set id | id in entries && entries[id].documentId == d;
      DeleteEntries(owned, w.lostDelete);
      if w.fault != AtDeleteDocument {
        docs := docs - {d};
      }
    }
  }
}
