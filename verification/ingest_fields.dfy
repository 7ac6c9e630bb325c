/** What ingests, deletes and backfills write, field by field. */
module IngestFields {
  import opened IngestSpec
  import opened IngestProperties
  import opened IngestConvergence
  import opened IngestGaps

  /** The entry is of that row, under that title, source and level. */
  predicate IsEntryOf(entry: Entry, row: Row, title: string, source: string, access: string) {
    && entry.documentId == row.documentId && entry.content == row.content && entry.embedding == row.embedding
    && entry.title == title && entry.source == source && IsLevel(entry.access, access)
  }

  // ---- Feeding ----

  lemma {:induction false} FedAre(
    entries: map<Id, Entry>, rows: map<Id, Row>, base: Id, n: nat, r: Request, lost: Id -> bool)
    requires forall i :: base <= i < base + n ==> i in rows
    ensures var after := Feed(entries, rows, base, n, r, lost);
            forall id :: id in after ==>
              if base <= id < base + n && !lost(id) then IsEntryOf(after[id], rows[id], r.title, r.source, r.access)
              else id in entries && after[id] == entries[id]
  {
    if n > 0 {
      FedAre(entries, rows, base, n - 1, r, lost);
    }
  }

  lemma SavedAre(db: Db, d: Id, chunks: seq<Chunk>, r: Request, w: World)
    requires Inv(db)
    ensures var after := Save(db, d, chunks, r, w);
            && (forall id :: id in after.entries && id !in db.entries ==>
                  db.next <= id && id in after.rows
                  && IsEntryOf(after.entries[id], after.rows[id], r.title, r.source, r.access))
            && (forall id :: id in after.rows && id !in db.rows && !w.lostFeed(id) ==> id in after.entries)
            && (forall id :: id in db.entries ==> id in after.entries && after.entries[id] == db.entries[id])
  {
    InsertedRows(db.rows, db.next, d, chunks, w.embed);
    FedAre(db.entries, Save(db, d, chunks, r, w).rows, db.next, |chunks|, r, w.lostFeed);
    FedEntries(db.entries, Save(db, d, chunks, r, w).rows, db.next, |chunks|, r, w.lostFeed);
  }

  /** New entries are of new rows; old ones go only with a stale row. */
  ghost predicate FeedsExactly(before: Db, after: Db, stale: set<Id>, r: Request, w: World) {
    && (forall id :: id in after.entries && id !in before.entries ==>
          before.next <= id && id in after.rows
          && IsEntryOf(after.entries[id], after.rows[id], r.title, r.source, r.access))
    && (forall id :: id in before.entries ==>
          if id in stale && !w.lostDelete(id) then id !in after.entries
          else id in after.entries && after.entries[id] == before.entries[id])
  }

  /**
   Whatever raises and is lost: each entry an ingest adds is of a row it adds, with that row's content,
   embedding and document, the title and source asked for and the access level asked for, "public" if
   that is empty. The entries it removes are those of stale rows whose delete is not lost.
   */
  lemma EntriesExactly(db: Db, r: Request, w: World) returns (stale: set<Id>)
    requires Inv(db)
    ensures FeedsExactly(db, Ingest(db, r, w).0, stale, r, w)
    ensures stale != {} ==>
              && FindDocument(db.docs, r.source).Some?
              && stale == Stale(
                            Returned(db.rows, w.unread), FindDocument(db.docs, r.source).value, w.chunker(r.content))
  {
    FindDocumentMeaning(db.docs, r.source);
    stale := {};
    match FindDocument(db.docs, r.source)
    case Some(d) =>
      if Ingest(db, r, w).0 != db {
        stale := Stale(Returned(db.rows, w.unread), d, w.chunker(r.content));
        UpdateFeeds(db, r, w, d);
      }
    case None =>
      CreateKeeps(db, r);
      FinishFeeds(Create(db, r), db.next, w.chunker(r.content), r, w, Inserted);
  }

  lemma FinishFeeds(db: Db, d: Id, chunks: seq<Chunk>, r: Request, w: World, status: Status)
    requires Inv(db)
    ensures FeedsExactly(db, Finish(db, d, chunks, r, w, status).0, {}, r, w)
  {
    SavedAre(db, d, Survivors(chunks, w.lostEmbed), r, w);
  }

  lemma TrimFeeds(db: Db, trimmed: Db, after: Db, stale: set<Id>, r: Request, w: World)
    requires Allocated(db) && trimmed.next == db.next && trimmed.entries == Drop(db.entries, stale, w.lostDelete)
    requires FeedsExactly(trimmed, after, {}, r, w)
    requires forall id :: id in trimmed.entries ==> id < db.next
    ensures FeedsExactly(db, after, stale, r, w)
  {
  }

  lemma UpdateIsFinish(db: Db, r: Request, w: World, d: Id)
    requires Inv(db) && d in db.docs
    ensures var read := Returned(db.rows, w.unread);
            var stale, wanted := Stale(read, d, w.chunker(r.content)), ToEmbed(w.chunker(r.content), Stored(read, d));
            var rewritten := Rewrite(Trim(db, stale, w), d, r);
            var after := Update(db, r, w, d).0;
            after == db || after == Trim(db, stale, w) || after == rewritten
            || (Allocated(rewritten) && after == Finish(rewritten, d, wanted, r, w, Updated).0)
  {
  }

  lemma UpdateFeeds(db: Db, r: Request, w: World, d: Id)
    requires Inv(db) && d in db.docs && db.docs[d].source == r.source && Update(db, r, w, d).0 != db
    ensures FeedsExactly(db, Update(db, r, w, d).0, Stale(Returned(db.rows, w.unread), d, w.chunker(r.content)), r, w)
  {
    var read := Returned(db.rows, w.unread);
    var stale, wanted := Stale(read, d, w.chunker(r.content)), ToEmbed(w.chunker(r.content), Stored(read, d));
    var rewritten := Rewrite(Trim(db, stale, w), d, r);
    TrimKeeps(db, stale, w, d, r);
    UpdateIsFinish(db, r, w, d);
    FinishFeeds(rewritten, d, wanted, r, w, Updated);
    TrimFeeds(db, rewritten, Update(db, r, w, d).0, stale, r, w);
  }

  // ---- Rows and the document ----

  predicate IsRowOf(row: Row, d: Id, c: Chunk, embed: Chunk -> Vector) {
    row.documentId == d && row.content == c.content && row.index == c.index && row.embedding == embed(c)
  }

  /** The new rows are the chunks that landed, in order, each with its own content, index and vector. */
  ghost predicate AddsRows(
    rows: map<Id, Row>, after: map<Id, Row>, base: Id, d: Id, landed: seq<Chunk>, embed: Chunk -> Vector)
  {
    && (forall id :: base <= id < base + |landed| ==> id in after && IsRowOf(after[id], d, landed[id - base], embed))
    && (forall id :: id in after && id !in rows ==> base <= id < base + |landed|)
  }

  lemma InsertAdds(rows: map<Id, Row>, base: Id, d: Id, chunks: seq<Chunk>, embed: Chunk -> Vector)
    requires forall id :: id in rows ==> id < base
    ensures AddsRows(rows, Insert(rows, base, d, chunks, embed), base, d, chunks, embed)
  {
    InsertedRows(rows, base, d, chunks, embed);
  }

  /**
   An ingest that gets to write the document's row leaves content and title as asked for there, and the
   access level asked for if the document is new but the old one if not.
   */
  lemma DocumentExactly(db: Db, r: Request, w: World) returns (d: Id)
    requires Inv(db) && Ingest(db, r, w).1.status != Skipped
    requires Ingest(db, r, w).1.status != Failed || IsLate(w.fault)
    ensures var after := Ingest(db, r, w).0;
            && d in after.docs && after.docs[d].source == r.source && after.docs[d].title == r.title
            && after.docs[d].digest == r.content
            && after.docs[d].access == (if d in db.docs then db.docs[d].access else r.access)
            && (forall e :: e in db.docs && e != d ==> e in after.docs && after.docs[e] == db.docs[e])
    ensures d !in db.docs ==> forall e :: e in db.docs ==> db.docs[e].source != r.source
  {
    FindDocumentMeaning(db.docs, r.source);
    match FindDocument(db.docs, r.source)
    case Some(e) =>
      d := e;
      UpdateOutcome(db, r, w, d);
    case None =>
      d := db.next;
      CreateOutcome(db, r, w);
  }

  lemma RowsExactly(db: Db, r: Request, w: World) returns (base: Id, d: Id)
    requires Inv(db) && Ingest(db, r, w).1.status != Skipped
    requires Ingest(db, r, w).1.status != Failed || IsLate(w.fault)
    ensures d in Ingest(db, r, w).0.docs && Ingest(db, r, w).0.docs[d].source == r.source
    ensures AddsRows(db.rows, Ingest(db, r, w).0.rows, base, d, Landed(Wanted(db, r, w), w), w.embed)
  {
    FindDocumentMeaning(db.docs, r.source);
    match FindDocument(db.docs, r.source)
    case Some(e) =>
      base, d := db.next, e;
      UpdateOutcome(db, r, w, d);
      UpdateAdds(db, r, w, d);
    case None =>
      base, d := db.next + 1, db.next;
      CreateOutcome(db, r, w);
      InsertAdds(db.rows, base, d, Landed(w.chunker(r.content), w), w.embed);
  }

  lemma UpdateAdds(db: Db, r: Request, w: World, d: Id)
    requires Inv(db)
    ensures var wanted := ToEmbed(w.chunker(r.content), Stored(Returned(db.rows, w.unread), d));
            AddsRows(db.rows, UpdatedRows(db, d, r, w), db.next, d, Landed(wanted, w), w.embed)
  {
    var read := Returned(db.rows, w.unread);
    var left := db.rows - Stale(read, d, w.chunker(r.content));
    var landed := Landed(ToEmbed(w.chunker(r.content), Stored(read, d)), w);
    InsertAdds(left, db.next, d, landed, w.embed);
    InsertedRows(left, db.next, d, landed, w.embed);
  }

  /** An ingest that does not fail feeds every new row whose write is not lost. */
  lemma FedExactly(db: Db, r: Request, w: World, id: Id)
    requires Inv(db) && Ingest(db, r, w).1.status != Failed
    requires id in Ingest(db, r, w).0.rows && id !in db.rows
    ensures id in Ingest(db, r, w).0.entries <==> !w.lostFeed(id)
  {
    FindDocumentMeaning(db.docs, r.source);
    match FindDocument(db.docs, r.source)
    case Some(d) => FedByUpdate(db, r, w, d, id);
    case None => FedByFinish(Create(db, r), db.next, w.chunker(r.content), r, w, Inserted, id);
  }

  lemma FedByFinish(db: Db, d: Id, chunks: seq<Chunk>, r: Request, w: World, status: Status, id: Id)
    requires Allocated(db) && Finish(db, d, chunks, r, w, status).1.status != Failed
    requires id in Finish(db, d, chunks, r, w, status).0.rows && id !in db.rows
    ensures id in Finish(db, d, chunks, r, w, status).0.entries <==> !w.lostFeed(id)
  {
    var survivors := Survivors(chunks, w.lostEmbed);
    InsertedRows(db.rows, db.next, d, survivors, w.embed);
    FedEntries(db.entries, Save(db, d, survivors, r, w).rows, db.next, |survivors|, r, w.lostFeed);
  }

  lemma FedByUpdate(db: Db, r: Request, w: World, d: Id, id: Id)
    requires Inv(db) && d in db.docs && db.docs[d].source == r.source && Update(db, r, w, d).1.status != Failed
    requires id in Update(db, r, w, d).0.rows && id !in db.rows
    ensures id in Update(db, r, w, d).0.entries <==> !w.lostFeed(id)
  {
    var read := Returned(db.rows, w.unread);
    var stale, wanted := Stale(read, d, w.chunker(r.content)), ToEmbed(w.chunker(r.content), Stored(read, d));
    TrimKeeps(db, stale, w, d, r);
    if wanted != [] {
      FedByFinish(Rewrite(Trim(db, stale, w), d, r), d, wanted, r, w, Updated, id);
    }
  }

  /** How many of the first `n` places are not lost. */
  function Places(n: nat, lost: nat -> bool): nat {
    if n == 0 then 0 else Places(n - 1, lost) + if lost(n - 1) then 0 else 1
  }

  lemma {:induction false} PlacesGrow(m: nat, n: nat, lost: nat -> bool)
    requires m < n && !lost(m)
    ensures Places(m, lost) < Places(n, lost)
    decreases n
  {
    if m < n - 1 {
      PlacesGrow(m, n - 1, lost);
    }
  }

  /** What comes back from the embedder: the chunks that are not lost, in order, and no other. */
  lemma {:induction false} SurvivorsExactly(chunks: seq<Chunk>, lost: nat -> bool, i: nat)
    ensures |Survivors(chunks, lost)| == Places(|chunks|, lost)
    ensures i < |chunks| && !lost(i) ==>
              Places(i, lost) < Places(|chunks|, lost) && Survivors(chunks, lost)[Places(i, lost)] == chunks[i]
  {
    if chunks != [] {
      var n := |chunks| - 1;
      SurvivorsExactly(chunks[..n], lost, i);
      if i < n && !lost(i) {
        PlacesGrow(i, n, lost);
      }
    }
  }

  // ---- Deletes and backfills ----

  /** What a delete removes, by how far it gets. */
  lemma DeletesExactly(db: Db, d: Id, w: World)
    ensures var after := Delete(db, d, w);
            var starts := w.fault != AtLookUp && w.fault != AtDeleteChunks;
            && (forall id :: id in after.rows <==> id in db.rows && !(starts && db.rows[id].documentId == d))
            && (forall id :: id in after.rows ==> after.rows[id] == db.rows[id])
            && (forall id :: id in after.entries <==>
                  id in db.entries && !(starts && db.entries[id].documentId == d && !w.lostDelete(id)))
            && (forall id :: id in after.entries ==> after.entries[id] == db.entries[id])
            && (forall e :: e in after.docs <==> e in db.docs && !(starts && w.fault != AtDeleteDocument && e == d))
            && (forall e :: e in after.docs ==> after.docs[e] == db.docs[e])
  {
  }

  /** A complete backfill feeds every row as it is, under its document's title, source and level. */
  lemma BackfilledExactly(db: Db, lost: Id -> bool, id: Id)
    requires id in db.rows
    ensures var (after, row) := (Backfilled(db, lost), db.rows[id]);
            if lost(id) then id in after.entries <==> id in db.entries
            else
              && id in after.entries
              && if row.documentId in db.docs
                 then IsEntryOf(after.entries[id], row, db.docs[row.documentId].title, db.docs[row.documentId].source,
                                db.docs[row.documentId].access)
                 else IsEntryOf(after.entries[id], row, "", "", "public")
  {
  }
}
