/** What one ingest achieves, which failures a retry repairs, and when the cache version misses a change. */
module IngestConvergence {
  import opened Wrappers
  import opened IngestSpec
  import opened IngestProperties

  /**
   Only document `d` changed: its rows with a content in `texts` stayed, as did those that were not
   read, the rest went, new ones are new identifiers.
   */
  ghost predicate OnlyTouches(before: Db, after: Db, d: Id, texts: set<string>, unread: Id -> bool) {
    && (forall id :: id in before.rows ==>
          if before.rows[id].documentId != d || before.rows[id].content in texts || unread(id)
          then id in after.rows && after.rows[id] == before.rows[id]
          else id !in after.rows)
    && (forall id :: id in after.rows && id !in before.rows ==>
          before.next <= id && after.rows[id].documentId == d && after.rows[id].content in texts)
    && (forall e :: e in before.docs && e != d ==> e in after.docs && after.docs[e] == before.docs[e])
    && (forall e :: e in after.docs ==> e == d || e in before.docs)
  }

  /** Document `d` of `db` holds exactly the contents the chunker makes of `content`. */
  ghost predicate Holds(db: Db, d: Id, content: string, chunker: string -> seq<Chunk>) {
    d in db.docs && db.docs[d].digest == content && Stored(db.rows, d) == Texts(chunker(content))
  }

  /** The document is on record under the new version, with these contents, and nothing else is touched. */
  ghost predicate Achieves(before: Db, after: Db, d: Id, r: Request, texts: set<string>, w: World) {
    && d in after.docs && after.docs[d].digest == r.content && after.docs[d].source == r.source
    && Stored(after.rows, d) == texts && OnlyTouches(before, after, d, Texts(w.chunker(r.content)), w.unread)
  }

  /**
   Every content sent to the embedder is stored afterwards, either because it comes back and is saved
   or in a row that was not read; and no row that was not read has a content no longer wanted.
   */
  ghost predicate Complete(db: Db, r: Request, w: World) {
    var wanted := Wanted(db, r, w);
    match FindDocument(db.docs, r.source)
    case Some(d) =>
      var overlooked := Overlooked(db.rows, d, w.unread);
      overlooked <= Texts(w.chunker(r.content)) && Texts(wanted) <= Texts(Landed(wanted, w)) + overlooked
    case None => Texts(wanted) <= Texts(Landed(wanted, w))
  }

  lemma {:induction false} SurvivorsTexts(chunks: seq<Chunk>, lost: nat -> bool)
    ensures Texts(Survivors(chunks, lost)) <= Texts(chunks)
    ensures (forall i :: !lost(i)) ==> Survivors(chunks, lost) == chunks
  {
    if chunks != [] {
      var n := |chunks| - 1;
      SurvivorsTexts(chunks[..n], lost);
      assert chunks == chunks[..n] + [chunks[n]];
      TextsSnoc(chunks[..n], chunks[n]);
      TextsSnoc(Survivors(chunks[..n], lost), chunks[n]);
      assert Survivors(chunks[..n], lost) + [] == Survivors(chunks[..n], lost);
    }
  }

  // ---- What the tables hold past the write of the document's row ----

  /** The calls after that write. */
  predicate IsLate(f: Fault) { f in {AtEmbedding, AtSaveChunks, AtGraph} }

  /** The rows after an update of `d` that gets there, whatever raises or is lost then. */
  function UpdatedRows(db: Db, d: Id, r: Request, w: World): map<Id, Row> {
    var read := Returned(db.rows, w.unread);
    var chunks := w.chunker(r.content);
    Insert(db.rows - Stale(read, d, chunks), db.next, d, Landed(ToEmbed(chunks, Stored(read, d)), w), w.embed)
  }

  /**
   Their contents: the ones read and still wanted, the ones not read, and of the wanted ones that
   were not read those that are saved.
   */
  function UpdatedTexts(db: Db, d: Id, r: Request, w: World): set<string> {
    var read := Returned(db.rows, w.unread);
    var chunks := w.chunker(r.content);
    Stored(read, d) * Texts(chunks) + Overlooked(db.rows, d, w.unread)
    + Texts(Landed(ToEmbed(chunks, Stored(read, d)), w))
  }

  lemma FinishOutcome(db: Db, d: Id, chunks: seq<Chunk>, r: Request, w: World, status: Status)
    requires Allocated(db) && status != Failed && w.fault != AtWriteDocument
    ensures var (after, result) := Finish(db, d, chunks, r, w, status);
            && after.rows == Insert(db.rows, db.next, d, Landed(chunks, w), w.embed) && after.docs == db.docs
            && (result.status != Failed ==> result == Result(status, Some(d), |Landed(chunks, w)|))
  {
  }

  lemma UpdateOutcome(db: Db, r: Request, w: World, d: Id)
    requires Allocated(db) && d in db.docs && (Update(db, r, w, d).1.status != Failed || IsLate(w.fault))
    ensures var (after, result) := Update(db, r, w, d);
            && after.rows == UpdatedRows(db, d, r, w) && after.docs == Rewrite(db, d, r).docs
            && (result.status != Failed ==>
                  result == Result(Updated, Some(d),
                    |Landed(ToEmbed(w.chunker(r.content), Stored(Returned(db.rows, w.unread), d)), w)|))
  {
    var read := Returned(db.rows, w.unread);
    var stale, wanted := Stale(read, d, w.chunker(r.content)), ToEmbed(w.chunker(r.content), Stored(read, d));
    FinishOutcome(Rewrite(Trim(db, stale, w), d, r), d, wanted, r, w, Updated);
  }

  lemma CreateOutcome(db: Db, r: Request, w: World)
    requires Allocated(db) && FindDocument(db.docs, r.source) == None
    requires Ingest(db, r, w).1.status != Failed || IsLate(w.fault)
    ensures var (after, result) := Ingest(db, r, w);
            var landed := Landed(w.chunker(r.content), w);
            && after.rows == Insert(db.rows, db.next + 1, db.next, landed, w.embed)
            && after.docs == Create(db, r).docs
            && (result.status != Failed ==> result == Result(Inserted, Some(db.next), |landed|))
  {
    FinishOutcome(Create(db, r), db.next, w.chunker(r.content), r, w, Inserted);
  }

  lemma InsertStores(rows: map<Id, Row>, base: Id, d: Id, chunks: seq<Chunk>, embed: Chunk -> Vector)
    requires forall id :: id in rows ==> id < base
    ensures var after := Insert(rows, base, d, chunks, embed);
            && Stored(after, d) == Stored(rows, d) + Texts(chunks)
            && (forall id :: id in rows ==> id in after && after[id] == rows[id])
            && (forall id :: id in after && id !in rows ==>
                  base <= id && after[id].documentId == d && after[id].content in Texts(chunks))
  {
    var after := Insert(rows, base, d, chunks, embed);
    InsertedRows(rows, base, d, chunks, embed);
    forall t | t in Texts(chunks) ensures t in Stored(after, d) {
      var i :| 0 <= i < |chunks| && chunks[i].content == t;
      assert after[base + i].content == t;
    }
    forall t | t in Stored(rows, d) ensures t in Stored(after, d) {
      var id :| id in rows && rows[id].documentId == d && rows[id].content == t;
      assert after[id] == rows[id];
    }
    forall id | id in after && id !in rows ensures after[id].content in Texts(chunks) {
      assert after[id].content == chunks[id - base].content;
    }
  }

  /** Deleting the stale rows leaves the contents that are still wanted and those that were not read. */
  lemma StoredAfterTrim(rows: map<Id, Row>, d: Id, chunks: seq<Chunk>, unread: Id -> bool)
    ensures var read := Returned(rows, unread);
            Stored(rows - Stale(read, d, chunks), d) == Stored(read, d) * Texts(chunks) + Overlooked(rows, d, unread)
  {
    var read := Returned(rows, unread);
    var left := rows - Stale(read, d, chunks);
    forall t | t in Stored(read, d) * Texts(chunks) ensures t in Stored(left, d) {
      var id :| id in read && read[id].documentId == d && read[id].content == t;
      assert id in left;
    }
    forall t | t in Overlooked(rows, d, unread) ensures t in Stored(left, d) {
      var id :| id in rows && rows[id].documentId == d && unread(id) && rows[id].content == t;
      assert id in left;
    }
    forall t | t in Stored(left, d) ensures t in Stored(read, d) * Texts(chunks) + Overlooked(rows, d, unread) {
      var id :| id in left && left[id].documentId == d && left[id].content == t;
      assert !unread(id) ==> id in read;
    }
  }

  lemma LandedTexts(wanted: seq<Chunk>, w: World)
    ensures Texts(Landed(wanted, w)) <= Texts(wanted)
  {
    SurvivorsTexts(wanted, w.lostEmbed);
  }

  lemma UpdateAchieves(db: Db, r: Request, w: World, d: Id)
    requires Inv(db) && d in db.docs && db.docs[d].source == r.source
    requires Update(db, r, w, d).1.status != Failed || IsLate(w.fault)
    ensures Achieves(db, Update(db, r, w, d).0, d, r, UpdatedTexts(db, d, r, w), w)
  {
    UpdateOutcome(db, r, w, d);
    UpdatedRowsStore(db, d, r, w);
    UpdatedRowsTouch(db, d, r, w);
  }

  lemma UpdatedRowsStore(db: Db, d: Id, r: Request, w: World)
    requires Inv(db)
    ensures Stored(UpdatedRows(db, d, r, w), d) == UpdatedTexts(db, d, r, w)
  {
    var read, chunks := Returned(db.rows, w.unread), w.chunker(r.content);
    StoredAfterTrim(db.rows, d, chunks, w.unread);
    InsertStores(db.rows - Stale(read, d, chunks), db.next, d, Landed(ToEmbed(chunks, Stored(read, d)), w), w.embed);
  }

  lemma TrimTouches(rows: map<Id, Row>, d: Id, chunks: seq<Chunk>, unread: Id -> bool)
    ensures var left := rows - Stale(Returned(rows, unread), d, chunks);
            forall id :: id in rows ==>
              if rows[id].documentId != d || rows[id].content in Texts(chunks) || unread(id)
              then id in left && left[id] == rows[id]
              else id !in left
  {
  }

  lemma UpdatedRowsTouch(db: Db, d: Id, r: Request, w: World)
    requires Inv(db)
    ensures forall id :: id in db.rows ==>
              if db.rows[id].documentId != d || db.rows[id].content in Texts(w.chunker(r.content)) || w.unread(id)
              then id in UpdatedRows(db, d, r, w) && UpdatedRows(db, d, r, w)[id] == db.rows[id]
              else id !in UpdatedRows(db, d, r, w)
    ensures var after := UpdatedRows(db, d, r, w);
            forall id :: id in after && id !in db.rows ==>
              && db.next <= id && after[id].documentId == d && after[id].content in Texts(w.chunker(r.content))
  {
    var read, chunks := Returned(db.rows, w.unread), w.chunker(r.content);
    TrimTouches(db.rows, d, chunks, w.unread);
    ToEmbedTexts(chunks, Stored(read, d));
    LandedTexts(ToEmbed(chunks, Stored(read, d)), w);
    InsertStores(db.rows - Stale(read, d, chunks), db.next, d, Landed(ToEmbed(chunks, Stored(read, d)), w), w.embed);
  }

  lemma CreatedRowsStore(db: Db, chunks: seq<Chunk>, embed: Chunk -> Vector)
    requires Inv(db)
    ensures var after := Insert(db.rows, db.next + 1, db.next, chunks, embed);
            && Stored(after, db.next) == Texts(chunks)
            && (forall id :: id in db.rows ==> id in after && after[id] == db.rows[id])
            && (forall id :: id in after && id !in db.rows ==>
                  db.next < id && after[id].documentId == db.next && after[id].content in Texts(chunks))
  {
    assert Stored(db.rows, db.next) == {};
    InsertStores(db.rows, db.next + 1, db.next, chunks, embed);
  }

  lemma CreateAchieves(db: Db, r: Request, w: World)
    requires Inv(db) && FindDocument(db.docs, r.source) == None
    requires Ingest(db, r, w).1.status != Failed || IsLate(w.fault)
    ensures Achieves(db, Ingest(db, r, w).0, db.next, r, Texts(Landed(w.chunker(r.content), w)), w)
  {
    CreateOutcome(db, r, w);
    LandedTexts(w.chunker(r.content), w);
    CreatedRowsStore(db, Landed(w.chunker(r.content), w), w.embed);
    assert forall id :: id in db.rows ==> db.rows[id].documentId != db.next;
  }

  /**
   Of the wanted contents, what is kept, what was overlooked and what comes back make up all of them
   exactly when nothing unwanted was overlooked and everything else is overlooked or comes back.
   */
  lemma AllThere(stored: set<string>, wanted: set<string>, overlooked: set<string>, back: set<string>)
    requires back <= wanted - stored
    ensures stored * wanted + overlooked + back == wanted <==>
              overlooked <= wanted && wanted - stored <= back + overlooked
  {
    if overlooked <= wanted && wanted - stored <= back + overlooked {
      assert forall t :: t in wanted ==> t in stored || t in wanted - stored;
    }
    if stored * wanted + overlooked + back == wanted {
      forall t | t in wanted - stored ensures t in back + overlooked {
        assert t in stored * wanted + overlooked + back;
      }
    }
  }

  lemma UpdatedHolds(db: Db, r: Request, w: World, d: Id)
    requires FindDocument(db.docs, r.source) == Some(d)
    ensures UpdatedTexts(db, d, r, w) == Texts(w.chunker(r.content)) <==> Complete(db, r, w)
  {
    var stored, chunks := Stored(Returned(db.rows, w.unread), d), w.chunker(r.content);
    ToEmbedTexts(chunks, stored);
    LandedTexts(ToEmbed(chunks, stored), w);
    AllThere(stored, Texts(chunks), Overlooked(db.rows, d, w.unread), Texts(Landed(ToEmbed(chunks, stored), w)));
  }

  /**
   An ingest that gets to write the document's row leaves the version asked for on record, and all of
   the chunker's contents, and no other, exactly when it is complete.
   */
  lemma RecordedIngest(db: Db, r: Request, w: World) returns (d: Id)
    requires Inv(db) && Ingest(db, r, w).1.status != Skipped
    requires Ingest(db, r, w).1.status != Failed || IsLate(w.fault)
    ensures var after := Ingest(db, r, w).0;
            && d in after.docs && after.docs[d].source == r.source && after.docs[d].digest == r.content
            && OnlyTouches(db, after, d, Texts(w.chunker(r.content)), w.unread)
            && (Holds(after, d, r.content, w.chunker) <==> Complete(db, r, w))
  {
    FindDocumentMeaning(db.docs, r.source);
    match FindDocument(db.docs, r.source)
    case Some(e) =>
      d := e;
      UpdateAchieves(db, r, w, d);
      UpdatedHolds(db, r, w, d);
    case None =>
      d := db.next;
      CreateAchieves(db, r, w);
      LandedTexts(w.chunker(r.content), w);
  }

  /** A skipped ingest changes nothing, and the stored version is the one asked for. */
  lemma SkippedIngest(db: Db, r: Request, w: World)
    requires Inv(db) && Ingest(db, r, w).1.status == Skipped
    ensures Ingest(db, r, w).0 == db
    ensures exists d :: d in db.docs && db.docs[d].source == r.source && db.docs[d].digest == r.content
  {
    FindDocumentMeaning(db.docs, r.source);
  }

  /**
   An insertion is for a source not yet stored. It stores what comes back from the embedder, which
   is all of the chunker's contents exactly when no content is lost there.
   */
  lemma InsertedIngest(db: Db, r: Request, w: World)
    requires Inv(db) && Ingest(db, r, w).1.status == Inserted
    ensures forall d :: d in db.docs ==> db.docs[d].source != r.source
    ensures var landed := Landed(w.chunker(r.content), w);
            && Ingest(db, r, w).1 == Result(Inserted, Some(db.next), |landed|)
            && Achieves(db, Ingest(db, r, w).0, db.next, r, Texts(landed), w)
            && (Texts(landed) == Texts(w.chunker(r.content)) <==> Complete(db, r, w))
  {
    FindDocumentMeaning(db.docs, r.source);
    if FindDocument(db.docs, r.source).Some? {
      UpdateOutcome(db, r, w, FindDocument(db.docs, r.source).value);
    } else {
      CreateOutcome(db, r, w);
      CreateAchieves(db, r, w);
      LandedTexts(w.chunker(r.content), w);
    }
  }

  /**
   An update keeps every row whose content survives (identifier and embedding included) and every row
   it did not read, touches no other document, and stores what comes back of the contents it did not
   see, each sent once; the document then holds exactly the chunker's contents exactly when none of
   these is lost for good and no stale row was left unread.
   */
  lemma UpdatedIngest(db: Db, r: Request, w: World) returns (d: Id)
    requires Inv(db) && Ingest(db, r, w).1.status == Updated
    ensures d in db.docs && db.docs[d].source == r.source && db.docs[d].digest != r.content
    ensures Ingest(db, r, w).1 ==
              Result(Updated, Some(d),
                |Landed(ToEmbed(w.chunker(r.content), Stored(Returned(db.rows, w.unread), d)), w)|)
    ensures Achieves(db, Ingest(db, r, w).0, d, r, UpdatedTexts(db, d, r, w), w)
    ensures Holds(Ingest(db, r, w).0, d, r.content, w.chunker) <==> Complete(db, r, w)
  {
    FindDocumentMeaning(db.docs, r.source);
    if FindDocument(db.docs, r.source).Some? {
      d := FindDocument(db.docs, r.source).value;
      UpdateOutcome(db, r, w, d);
      UpdateAchieves(db, r, w, d);
      UpdatedHolds(db, r, w, d);
    } else {
      CreateOutcome(db, r, w);
    }
  }

  /** A stale row that is not read stays, and the update reports success. */
  lemma UnreadRowStays(db: Db, r: Request, w: World, id: Id)
    requires Inv(db) && Ingest(db, r, w).1.status == Updated && id in db.rows && w.unread(id)
    requires db.rows[id].documentId in db.docs && db.docs[db.rows[id].documentId].source == r.source
    requires db.rows[id].content !in Texts(w.chunker(r.content))
    ensures var after := Ingest(db, r, w).0;
            && id in after.rows && after.rows[id] == db.rows[id]
            && !Holds(after, db.rows[id].documentId, r.content, w.chunker)
  {
    var d := UpdatedIngest(db, r, w);
    assert db.rows[id].content in Overlooked(db.rows, d, w.unread);
  }

  /** Every document holds exactly the chunks of the version its digest names. */
  ghost predicate Settled(db: Db, chunker: string -> seq<Chunk>) {
    forall d :: d in db.docs ==> Stored(db.rows, d) == Texts(chunker(db.docs[d].digest))
  }

  lemma OthersStored(before: Db, after: Db, d: Id, texts: set<string>, unread: Id -> bool, e: Id)
    requires OnlyTouches(before, after, d, texts, unread) && e != d
    ensures Stored(after.rows, e) == Stored(before.rows, e)
  {
    forall t | t in Stored(before.rows, e) ensures t in Stored(after.rows, e) {
      var id :| id in before.rows && before.rows[id].documentId == e && before.rows[id].content == t;
      assert after.rows[id] == before.rows[id];
    }
    forall t | t in Stored(after.rows, e) ensures t in Stored(before.rows, e) {
      var id :| id in after.rows && after.rows[id].documentId == e && after.rows[id].content == t;
      assert id in before.rows;
    }
  }

  /** One document changed: all are settled after it exactly when that one is. */
  lemma OneSettles(before: Db, after: Db, d: Id, r: Request, w: World)
    requires Settled(before, w.chunker) && d in after.docs && after.docs[d].digest == r.content
    requires OnlyTouches(before, after, d, Texts(w.chunker(r.content)), w.unread)
    ensures Settled(after, w.chunker) <==> Holds(after, d, r.content, w.chunker)
  {
    forall e | e in after.docs && e != d ensures Stored(after.rows, e) == Texts(w.chunker(after.docs[e].digest)) {
      OthersStored(before, after, d, Texts(w.chunker(r.content)), w.unread, e);
    }
  }

  /** An ingest that does not fail leaves everything settled exactly when it is skipped or complete. */
  lemma IngestSettlesExactlyWhen(db: Db, r: Request, w: World)
    requires Inv(db) && Settled(db, w.chunker) && Ingest(db, r, w).1.status != Failed
    ensures Settled(Ingest(db, r, w).0, w.chunker) <==> Ingest(db, r, w).1.status == Skipped || Complete(db, r, w)
  {
    if Ingest(db, r, w).1.status == Skipped {
      SkippedIngest(db, r, w);
    } else {
      var d := RecordedIngest(db, r, w);
      OneSettles(db, Ingest(db, r, w).0, d, r, w);
    }
  }

  /** An ingest with the given chunker that does not fail, and is skipped or complete. */
  ghost predicate Succeeds(db: Db, op: Op, chunker: string -> seq<Chunk>) {
    && Allocated(db) && op.IngestOp? && op.w.chunker == chunker
    && (Ingest(db, op.r, op.w).1.status == Skipped
         || (Ingest(db, op.r, op.w).1.status != Failed && Complete(db, op.r, op.w)))
  }

  /** Along a run of such ingests every document stays settled. */
  lemma {:induction false} SuccessfulRunsConverge(states: seq<Db>, ops: seq<Op>, chunker: string -> seq<Chunk>, k: nat)
    requires IsRun(states, ops) && k < |states|
    requires forall i :: 0 <= i < k ==> Succeeds(states[i], ops[i], chunker)
    ensures Settled(states[k], chunker)
  {
    if k > 0 {
      SuccessfulRunsConverge(states, ops, chunker, k - 1);
      StoresAgreeInEveryRun(states, ops, k - 1);
      assert Succeeds(states[k - 1], ops[k - 1], chunker);
      IngestSettlesExactlyWhen(states[k - 1], ops[k - 1].r, ops[k - 1].w);
      assert states[k] == Apply(states[k - 1], ops[k - 1]);
    }
  }

  lemma VersionIsSkipped(db: Db, d: Id, r: Request, w: World)
    requires Inv(db) && d in db.docs && db.docs[d].source == r.source && db.docs[d].digest == r.content
    requires w.fault != AtLookUp
    ensures Ingest(db, r, w) == (db, Result(Skipped, Some(d), 0))
  {
    FindDocumentMeaning(db.docs, r.source);
  }

  /** Repeating a successful ingest is skipped and changes nothing, even if calls past the look-up would raise. */
  lemma RepeatIsSkipped(db: Db, r: Request, w: World, again: World)
    requires Inv(db) && Ingest(db, r, w).1.status != Failed && again.fault != AtLookUp
    ensures var after := Ingest(db, r, w).0;
            Inv(after) && Ingest(after, r, again).0 == after && Ingest(after, r, again).1.status == Skipped
  {
    IngestKeeps(db, r, w);
    if Ingest(db, r, w).1.status == Skipped {
      SkippedIngest(db, r, w);
      var d :| d in db.docs && db.docs[d].source == r.source && db.docs[d].digest == r.content;
      VersionIsSkipped(db, d, r, again);
    } else {
      var d := RecordedIngest(db, r, w);
      VersionIsSkipped(Ingest(db, r, w).0, d, r, again);
    }
  }

  // ---- Retrying a failed ingest ----

  /** A failure before the document's row is written leaves the old version, or no version, on record. */
  lemma FailedEarly(db: Db, r: Request, w: World)
    requires Inv(db) && Ingest(db, r, w).1.status == Failed && !IsLate(w.fault)
    ensures var after := Ingest(db, r, w).0;
            after.docs == db.docs && Inv(after)
    ensures w.fault != AtLookUp ==>
              forall d :: d in db.docs && db.docs[d].source == r.source ==> db.docs[d].digest != r.content
  {
    IngestKeeps(db, r, w);
    FindDocumentMeaning(db.docs, r.source);
  }

  /**
   A failure after it leaves the new version on record, and chunks missing unless they were all saved
   before the graph builder raised or sat in rows that were not read.
   */
  lemma FailedLate(db: Db, r: Request, w: World) returns (d: Id)
    requires Inv(db) && Ingest(db, r, w).1.status == Failed && IsLate(w.fault)
    ensures var after := Ingest(db, r, w).0;
            && Inv(after) && d in after.docs && after.docs[d].source == r.source && after.docs[d].digest == r.content
            && (Holds(after, d, r.content, w.chunker) <==> Complete(db, r, w))
    ensures w.fault != AtGraph && (forall id :: !w.unread(id)) ==> !Complete(db, r, w)
  {
    IngestKeeps(db, r, w);
    FindDocumentMeaning(db.docs, r.source);
    d := RecordedIngest(db, r, w);
    if w.fault != AtGraph && (forall id :: !w.unread(id)) {
      SomethingMissing(db, r, w);
    }
  }

  lemma SomethingMissing(db: Db, r: Request, w: World)
    requires Inv(db) && Ingest(db, r, w).1.status == Failed && (w.fault == AtEmbedding || w.fault == AtSaveChunks)
    requires forall id :: !w.unread(id)
    ensures !Complete(db, r, w)
  {
    FindDocumentMeaning(db.docs, r.source);
    var wanted := Wanted(db, r, w);
    assert wanted != [] && wanted[0].content in Texts(wanted);
    assert Texts(Landed(wanted, w)) == {};
    if FindDocument(db.docs, r.source).Some? {
      assert Overlooked(db.rows, FindDocument(db.docs, r.source).value, w.unread) == {};
    }
  }

  ghost predicate FaultFree(w: World) { w.fault == NoFault && forall i :: !w.lostEmbed(i) }

  /**
   What a fault-free ingest needs to leave the document whole: the version asked for is not on record
   without its contents, and if another is, no row left unread has a content no longer wanted.
   */
  ghost predicate Mends(db: Db, r: Request, w: World) {
    forall d :: d in db.docs && db.docs[d].source == r.source ==>
      if db.docs[d].digest == r.content then Stored(db.rows, d) == Texts(w.chunker(r.content))
      else Overlooked(db.rows, d, w.unread) <= Texts(w.chunker(r.content))
  }

  lemma FaultFreeLands(wanted: seq<Chunk>, w: World)
    requires FaultFree(w)
    ensures Landed(wanted, w) == wanted
  {
    SurvivorsTexts(wanted, w.lostEmbed);
  }

  /** A fault-free ingest does not fail. */
  lemma FaultFreeIngest(db: Db, r: Request, w: World) returns (d: Id)
    requires Inv(db) && FaultFree(w)
    ensures var (after, result) := Ingest(db, r, w);
            && result.status != Failed && d in after.docs && after.docs[d].source == r.source
            && (Holds(after, d, r.content, w.chunker) <==> Mends(db, r, w))
  {
    FindDocumentMeaning(db.docs, r.source);
    FaultFreeLands(Wanted(db, r, w), w);
    if Ingest(db, r, w).1.status == Skipped {
      d := FindDocument(db.docs, r.source).value;
    } else {
      d := RecordedIngest(db, r, w);
    }
  }

  /**
   Retrying does not always repair a failed ingest: the digest is written before the chunks are, so
   a retry can be skipped. A fault-free retry leaves the document with the chunker's contents exactly
   when either the failed attempt got to write the document's row and was complete nevertheless, or
   it did not and what it left can be mended.
   */
  lemma RetryRepairsExactlyWhen(db: Db, r: Request, w: World, again: World) returns (d: Id)
    requires Inv(db) && Ingest(db, r, w).1.status == Failed
    requires FaultFree(again) && again.chunker == w.chunker
    ensures Inv(Ingest(db, r, w).0)
    ensures var mid := Ingest(db, r, w).0;
            var after := Ingest(mid, r, again).0;
            && d in after.docs && after.docs[d].source == r.source
            && (Holds(after, d, r.content, w.chunker) <==>
                  if IsLate(w.fault) then Complete(db, r, w) else Mends(mid, r, again))
  {
    var mid := Ingest(db, r, w).0;
    IngestKeeps(db, r, w);
    if IsLate(w.fault) {
      d := FailedLate(db, r, w);
      VersionIsSkipped(mid, d, r, again);
    } else {
      d := FaultFreeIngest(mid, r, again);
    }
  }

  /**
   When the graph builder raises, the saved rows are not in the index, and no later ingest of that
   version puts them there.
   */
  lemma GraphFailureStaysUnfed(db: Db, r: Request, w: World, again: World) returns (d: Id)
    requires Inv(db) && GraphRaises(db, r, w) && again.fault != AtLookUp
    ensures var (after, result) := Ingest(db, r, w);
            && result.status == Failed && Inv(after) && Ingest(after, r, again) == (after, Result(Skipped, Some(d), 0))
            && (exists id :: id in after.rows && id !in db.rows)
            && (forall id :: id in after.rows && id !in db.rows ==> id !in after.entries)
  {
    FindDocumentMeaning(db.docs, r.source);
    IngestKeeps(db, r, w);
    GraphFails(db, r, w);
    d := RecordedIngest(db, r, w);
    VersionIsSkipped(Ingest(db, r, w).0, d, r, again);
  }

  lemma GraphFails(db: Db, r: Request, w: World)
    requires Inv(db) && GraphRaises(db, r, w)
    ensures var (after, result) := Ingest(db, r, w);
            && result.status == Failed && (exists id :: id in after.rows && id !in db.rows)
            && (forall id :: id in after.rows && id !in db.rows ==> id !in after.entries)
  {
    FindDocumentMeaning(db.docs, r.source);
    var landed := Landed(Wanted(db, r, w), w);
    match FindDocument(db.docs, r.source)
    case Some(d) =>
      var left := db.rows - Stale(Returned(db.rows, w.unread), d, w.chunker(r.content));
      InsertedRows(left, db.next, d, landed, w.embed);
      assert db.next in Ingest(db, r, w).0.rows;
    case None =>
      InsertedRows(db.rows, db.next + 1, db.next, landed, w.embed);
      assert db.next + 1 in Ingest(db, r, w).0.rows;
  }
}
