/** Things an ingest or a delete does not carry over: the cache version, the access level, the order of rows. */
module IngestGaps {
  import opened Wrappers
  import opened IngestSpec
  import opened IngestProperties
  import opened IngestConvergence

  /** The update of a known source gets past the deletion of stale rows. */
  predicate Trims(w: World, stale: set<Id>) {
    w.fault !in {AtLookUp, AtChunking, AtReadChunks} && !(stale != {} && w.fault == AtDeleteChunks)
  }

  /** It then ends before the bump, because a call raises or nothing is to be embedded. */
  predicate Stops(w: World, wanted: seq<Chunk>) {
    w.fault == AtWriteDocument || wanted == [] || w.fault == AtEmbedding
    || (w.fault in {AtSaveChunks, AtGraph} && Survivors(wanted, w.lostEmbed) != [])
  }

  /**
   Not every ingest that changes the stored chunks bumps the cache version. One of a known source
   under a new version does not exactly when it gets past the deletion of stale rows, there are some
   or it saves new ones, and it stops short of the bump (a call raises, or no content is new) or gets
   there with Redis down.
   */
  lemma UnbumpedUpdateExactlyWhen(db: Db, r: Request, w: World, d: Id)
    requires Inv(db) && FindDocument(db.docs, r.source) == Some(d) && d in db.docs && db.docs[d].digest != r.content
    ensures var after := Ingest(db, r, w).0;
            var stale, wanted := Stale(Returned(db.rows, w.unread), d, w.chunker(r.content)), Wanted(db, r, w);
            after.rows != db.rows && after.version == db.version <==>
              && Trims(w, stale) && (stale != {} || Landed(wanted, w) != [])
              && (Stops(w, wanted) || !w.redis)
    ensures var read := Returned(db.rows, w.unread);
            && (Stale(read, d, w.chunker(r.content)) != {} <==> !(Stored(read, d) <= Texts(w.chunker(r.content))))
            && (Wanted(db, r, w) == [] <==> Texts(w.chunker(r.content)) <= Stored(read, d))
  {
    var read := Returned(db.rows, w.unread);
    StaleMeaning(read, d, w.chunker(r.content));
    ToEmbedTexts(w.chunker(r.content), Stored(read, d));
    if w.fault !in {AtLookUp, AtChunking, AtReadChunks} {
      UpdateRows(db, r, w, d);
    }
  }

  /** What an update does to rows and version. */
  lemma UpdateRows(db: Db, r: Request, w: World, d: Id)
    requires Inv(db) && d in db.docs && w.fault !in {AtLookUp, AtChunking, AtReadChunks}
    ensures var (after, read) := (Update(db, r, w, d).0, Returned(db.rows, w.unread));
            var stale, wanted := Stale(read, d, w.chunker(r.content)), ToEmbed(w.chunker(r.content), Stored(read, d));
            && (after.rows == db.rows <==> !Trims(w, stale) || (stale == {} && Landed(wanted, w) == []))
            && after.version == if Trims(w, stale) && !Stops(w, wanted) && w.redis then db.version + 1 else db.version
  {
    var read := Returned(db.rows, w.unread);
    var stale, wanted := Stale(read, d, w.chunker(r.content)), ToEmbed(w.chunker(r.content), Stored(read, d));
    ReplacedRows(db.rows, stale, db.next, d, Landed(wanted, w), w.embed);
    if Trims(w, stale) {
      TrimmedRows(db, r, w, d);
    }
  }

  lemma TrimmedRows(db: Db, r: Request, w: World, d: Id)
    requires Inv(db) && d in db.docs
    requires Trims(w, Stale(Returned(db.rows, w.unread), d, w.chunker(r.content)))
    ensures Update(db, r, w, d).0.rows == UpdatedRows(db, d, r, w)
  {
    var read := Returned(db.rows, w.unread);
    var stale, wanted := Stale(read, d, w.chunker(r.content)), ToEmbed(w.chunker(r.content), Stored(read, d));
    if w.fault != AtWriteDocument {
      FinishOutcome(Rewrite(Trim(db, stale, w), d, r), d, wanted, r, w, Updated);
    }
  }

  lemma ReplacedRows(rows: map<Id, Row>, stale: set<Id>, base: Id, d: Id, chunks: seq<Chunk>, embed: Chunk -> Vector)
    requires stale <= rows.Keys && forall id :: id in rows ==> id < base
    ensures Insert(rows - stale, base, d, chunks, embed) == rows <==> stale == {} && chunks == []
  {
    InsertedRows(rows - stale, base, d, chunks, embed);
    var after := Insert(rows - stale, base, d, chunks, embed);
    if id :| id in stale {
      assert id in rows && id !in after;
    } else if chunks != [] {
      assert base in after && base !in rows;
    } else {
      assert rows - stale == rows;
    }
  }

  /**
   One of an unknown source does not exactly when it saves rows and then the graph builder raises or
   Redis is down.
   */
  lemma UnbumpedInsertExactlyWhen(db: Db, r: Request, w: World)
    requires Inv(db) && FindDocument(db.docs, r.source) == None
    ensures var after := Ingest(db, r, w).0;
            after.rows != db.rows && after.version == db.version <==>
              && w.fault !in {AtLookUp, AtChunking} && Landed(w.chunker(r.content), w) != []
              && (w.fault == AtGraph || !w.redis)
  {
    ReplacedRows(db.rows, {}, db.next + 1, db.next, Landed(w.chunker(r.content), w), w.embed);
    assert db.rows - {} == db.rows;
  }

  /** When an ingest changes rows without a bump, in terms of what is there before it and what raises or is lost. */
  ghost predicate ChangesUnbumped(db: Db, r: Request, w: World) {
    var wanted := Wanted(db, r, w);
    match FindDocument(db.docs, r.source)
    case Some(d) =>
      var read := Returned(db.rows, w.unread);
      && d in db.docs && db.docs[d].digest != r.content && Trims(w, Stale(read, d, w.chunker(r.content)))
      && (!(Stored(read, d) <= Texts(w.chunker(r.content))) || Landed(wanted, w) != [])
      && (Stops(w, wanted) || !w.redis)
    case None =>
      w.fault !in {AtLookUp, AtChunking} && Landed(wanted, w) != [] && (w.fault == AtGraph || !w.redis)
  }

  /** Whatever raises and whatever is lost. */
  lemma UnbumpedChangeExactlyWhen(db: Db, r: Request, w: World)
    requires Inv(db)
    ensures var after := Ingest(db, r, w).0;
            after.rows != db.rows && after.version == db.version <==> ChangesUnbumped(db, r, w)
  {
    FindDocumentMeaning(db.docs, r.source);
    match FindDocument(db.docs, r.source)
    case Some(d) =>
      if db.docs[d].digest != r.content {
        UnbumpedUpdateExactlyWhen(db, r, w, d);
      }
    case None =>
      UnbumpedInsertExactlyWhen(db, r, w);
  }

  /**
   Deleting a document never bumps it, and changes rows exactly when it gets past its first two calls
   and there are any.
   */
  lemma DeleteNeverBumps(db: Db, d: Id, w: World)
    ensures Delete(db, d, w).version == db.version
    ensures Delete(db, d, w).rows != db.rows <==>
              w.fault != AtLookUp && w.fault != AtDeleteChunks && RowIds(db.rows, d) != {}
  {
    var ids := RowIds(db.rows, d);
    if ids != {} {
      var id :| id in ids;
      assert id !in db.rows - ids;
    } else {
      assert db.rows - ids == db.rows;
    }
  }

  lemma StaleMeaning(rows: map<Id, Row>, d: Id, chunks: seq<Chunk>)
    ensures Stale(rows, d, chunks) == {} <==> Stored(rows, d) <= Texts(chunks)
    ensures rows - Stale(rows, d, chunks) == rows <==> Stored(rows, d) <= Texts(chunks)
  {
    var stale := Stale(rows, d, chunks);
    if stale == {} {
      forall t | t in Stored(rows, d) ensures t in Texts(chunks) {
        var id :| id in rows && rows[id].documentId == d && rows[id].content == t;
        assert id !in stale;
      }
    } else {
      var id :| id in stale;
      assert rows[id].content in Stored(rows, d);
      assert id !in rows - stale;
    }
  }

  /** The level of an entry is that of a document's row, where the index has "public" for an empty one. */
  predicate IsLevel(entry: string, stored: string) { if stored == "" then entry == "public" else entry == stored }

  predicate SameLevel(a: string, b: string) { a == b || (a in {"", "public"} && b in {"", "public"}) }

  predicate AccessAgreesAt(db: Db, id: Id)
    requires id in db.entries
  {
    && db.entries[id].documentId in db.docs
    && IsLevel(db.entries[id].access, db.docs[db.entries[id].documentId].access)
  }

  /** Every entry carries the access level of its document's row. */
  ghost predicate AccessAgrees(db: Db) {
    forall id :: id in db.entries ==> AccessAgreesAt(db, id)
  }

  /** The entries an update feeds, were no write lost: identifiers from the next one on. */
  function FedCount(db: Db, d: Id, r: Request, w: World): nat {
    |Landed(ToEmbed(w.chunker(r.content), Stored(Returned(db.rows, w.unread), d)), w)|
  }

  /**
   An update feeds new chunks under the access level of the request but does not write it to the
   document's row: entries and rows still agree after it exactly when the levels were the same or
   no write of a new chunk got through.
   */
  lemma AccessAgreesExactlyWhen(db: Db, r: Request, w: World) returns (d: Id)
    requires Inv(db) && AccessAgrees(db) && Ingest(db, r, w).1.status == Updated
    ensures d in db.docs && db.docs[d].source == r.source
    ensures AccessAgrees(Ingest(db, r, w).0) <==>
              || SameLevel(db.docs[d].access, r.access)
              || forall id :: db.next <= id < db.next + FedCount(db, d, r, w) ==> w.lostFeed(id)
  {
    d := UpdatedFrom(db, r, w);
    UpdatedAccess(db, r, w, d);
  }

  lemma UpdatedFrom(db: Db, r: Request, w: World) returns (d: Id)
    requires Inv(db) && Ingest(db, r, w).1.status == Updated
    ensures d in db.docs && db.docs[d].source == r.source && Ingest(db, r, w) == Update(db, r, w, d)
  {
    FindDocumentMeaning(db.docs, r.source);
    if FindDocument(db.docs, r.source).Some? {
      d := FindDocument(db.docs, r.source).value;
    } else {
      CreateOutcome(db, r, w);
    }
  }

  lemma UpdatedAccess(db: Db, r: Request, w: World, d: Id)
    requires Inv(db) && AccessAgrees(db) && d in db.docs && db.docs[d].source == r.source
    requires Update(db, r, w, d).1.status == Updated
    ensures AccessAgrees(Update(db, r, w, d).0) <==>
              || SameLevel(db.docs[d].access, r.access)
              || forall id :: db.next <= id < db.next + FedCount(db, d, r, w) ==> w.lostFeed(id)
  {
    var read := Returned(db.rows, w.unread);
    var stale, wanted := Stale(read, d, w.chunker(r.content)), ToEmbed(w.chunker(r.content), Stored(read, d));
    var rewritten := Rewrite(Trim(db, stale, w), d, r);
    UpdatedEntries(db, r, w, d);
    TrimKeeps(db, stale, w, d, r);
    assert AccessAgrees(rewritten);
    SavedAccess(rewritten, d, Landed(wanted, w), r, w);
  }

  lemma UpdatedEntries(db: Db, r: Request, w: World, d: Id)
    requires Inv(db) && d in db.docs && Update(db, r, w, d).1.status == Updated
    ensures var read := Returned(db.rows, w.unread);
            var stale, wanted := Stale(read, d, w.chunker(r.content)), ToEmbed(w.chunker(r.content), Stored(read, d));
            var (after, rewritten) := (Update(db, r, w, d).0, Rewrite(Trim(db, stale, w), d, r));
            if wanted == [] then after == rewritten else after == Save(rewritten, d, Landed(wanted, w), r, w)
  {
  }

  lemma SavedAccess(db: Db, d: Id, chunks: seq<Chunk>, r: Request, w: World)
    requires Inv(db) && AccessAgrees(db) && d in db.docs
    ensures AccessAgrees(Save(db, d, chunks, r, w)) <==>
              || SameLevel(db.docs[d].access, r.access)
              || forall id :: db.next <= id < db.next + |chunks| ==> w.lostFeed(id)
  {
    var after := Save(db, d, chunks, r, w);
    if id :| db.next <= id < db.next + |chunks| && !w.lostFeed(id) {
      SavedEntry(db, d, chunks, r, w, after, id);
    }
    forall id | id in after.entries ensures AccessAgreesAt(after, id) <==>
      (db.next <= id < db.next + |chunks| && !w.lostFeed(id) ==> SameLevel(db.docs[d].access, r.access))
    {
      SavedEntry(db, d, chunks, r, w, after, id);
    }
  }

  /** An entry after a save: fed with the level asked for, or an old one. */
  lemma SavedEntry(db: Db, d: Id, chunks: seq<Chunk>, r: Request, w: World, after: Db, id: Id)
    requires Inv(db) && after == Save(db, d, chunks, r, w)
    ensures db.next <= id < db.next + |chunks| && !w.lostFeed(id) ==>
              id in after.entries && after.entries[id].documentId == d && IsLevel(after.entries[id].access, r.access)
    ensures id in after.entries && !(db.next <= id < db.next + |chunks| && !w.lostFeed(id)) ==>
              id in db.entries && after.entries[id] == db.entries[id] && id < db.next
  {
    InsertedRows(db.rows, db.next, d, chunks, w.embed);
    FedEntries(db.entries, after.rows, db.next, |chunks|, r, w.lostFeed);
  }

  // ---- The order in which a document's rows are read back ----

  /** For each row of `d` still wanted, the index it carries and the one the chunker gives its content. */
  function Marks(rows: map<Id, Row>, d: Id, chunks: seq<Chunk>): set<(nat, nat)> {
    set id | id in rows && rows[id].documentId == d && rows[id].content in Keys(chunks) ::
      (rows[id].index, Last(chunks, rows[id].content).index)
  }

  /** Sorting by the indexes carried gives the chunker's order. */
  predicate InOrder(marks: set<(nat, nat)>) {
    forall x, y :: x in marks && y in marks && x.1 < y.1 ==> x.0 < y.0
  }

  /** The same between rows that stay and chunks that are new. */
  predicate Interleave(marks: set<(nat, nat)>, landed: seq<Chunk>) {
    forall x, c :: x in marks && c in landed ==>
      (x.1 < c.index ==> x.0 < c.index) && (c.index < x.1 ==> c.index < x.0)
  }

  /**
   Rows that stay keep the index they had in the old version, so sorting a document's rows by index
   need not give the chunker's order after an update. It does exactly when it does for the rows that
   stay, and these fit in between the new ones.
   */
  lemma InOrderExactlyWhen(db: Db, r: Request, w: World) returns (d: Id)
    requires Inv(db) && Ingest(db, r, w).1.status == Updated
    ensures d in db.docs && db.docs[d].source == r.source
    ensures var chunks := w.chunker(r.content);
            var stay := Marks(db.rows, d, chunks);
            InOrder(Marks(Ingest(db, r, w).0.rows, d, chunks)) <==>
              InOrder(stay) && Interleave(stay, Landed(Wanted(db, r, w), w))
  {
    FindDocumentMeaning(db.docs, r.source);
    d := UpdatedFrom(db, r, w);
    UpdateOutcome(db, r, w, d);
    UpdatedMarks(db, d, r, w);
    OrderOfBoth(Marks(db.rows, d, w.chunker(r.content)), Landed(Wanted(db, r, w), w));
  }

  function Fresh(landed: seq<Chunk>): set<(nat, nat)> { set c | c in landed :: (c.index, c.index) }

  lemma OrderOfBoth(stay: set<(nat, nat)>, landed: seq<Chunk>)
    ensures InOrder(stay + Fresh(landed)) <==> InOrder(stay) && Interleave(stay, landed)
  {
    if InOrder(stay + Fresh(landed)) {
      forall x, c | x in stay && c in landed
        ensures (x.1 < c.index ==> x.0 < c.index) && (c.index < x.1 ==> c.index < x.0)
      {
        assert (c.index, c.index) in Fresh(landed);
      }
    }
  }

  lemma UpdatedMarks(db: Db, d: Id, r: Request, w: World)
    requires Inv(db)
    ensures var read, chunks := Returned(db.rows, w.unread), w.chunker(r.content);
            Marks(UpdatedRows(db, d, r, w), d, chunks) ==
              Marks(db.rows, d, chunks) + Fresh(Landed(ToEmbed(chunks, Stored(read, d)), w))
  {
    var read, chunks := Returned(db.rows, w.unread), w.chunker(r.content);
    var landed := Landed(ToEmbed(chunks, Stored(read, d)), w);
    var left := db.rows - Stale(read, d, chunks);
    KeysAreTexts(chunks);
    TrimmedMarks(db.rows, d, chunks, w.unread);
    LandedAreLast(chunks, Stored(read, d), w);
    InsertedMarks(left, db.next, d, chunks, landed, w.embed);
  }

  lemma TrimmedMarks(rows: map<Id, Row>, d: Id, chunks: seq<Chunk>, unread: Id -> bool)
    ensures Marks(rows - Stale(Returned(rows, unread), d, chunks), d, chunks) == Marks(rows, d, chunks)
  {
    KeysAreTexts(chunks);
    var left := rows - Stale(Returned(rows, unread), d, chunks);
    forall m | m in Marks(rows, d, chunks) ensures m in Marks(left, d, chunks) {
      var id :| id in rows && rows[id].documentId == d && rows[id].content in Keys(chunks)
                && m == (rows[id].index, Last(chunks, rows[id].content).index);
      assert id in left;
    }
  }

  /** Each chunk is its content's last one. */
  ghost predicate AllLast(chunks: seq<Chunk>, selected: seq<Chunk>) {
    forall c :: c in selected ==> c.content in Keys(chunks) && c == Last(chunks, c.content)
  }

  lemma {:induction false} NewAreLast(chunks: seq<Chunk>, stored: set<string>, n: nat)
    requires n <= |Keys(chunks)|
    ensures AllLast(chunks, New(chunks, stored, n))
  {
    if n > 0 {
      var key := Keys(chunks)[n - 1];
      NewAreLast(chunks, stored, n - 1);
      assert key in Keys(chunks) && Last(chunks, key).content == key;
    }
  }

  lemma {:induction false} SurvivorsAmong(chunks: seq<Chunk>, lost: nat -> bool)
    ensures forall c :: c in Survivors(chunks, lost) ==> c in chunks
  {
    if chunks != [] {
      SurvivorsAmong(chunks[..|chunks| - 1], lost);
    }
  }

  lemma LandedAreLast(chunks: seq<Chunk>, stored: set<string>, w: World)
    ensures AllLast(chunks, Landed(ToEmbed(chunks, stored), w))
  {
    NewAreLast(chunks, stored, |Keys(chunks)|);
    SurvivorsAmong(ToEmbed(chunks, stored), w.lostEmbed);
  }

  lemma InsertedMarks(
    rows: map<Id, Row>, base: Id, d: Id, chunks: seq<Chunk>, landed: seq<Chunk>, embed: Chunk -> Vector)
    requires (forall id :: id in rows ==> id < base) && AllLast(chunks, landed)
    ensures Marks(Insert(rows, base, d, landed, embed), d, chunks) == Marks(rows, d, chunks) + Fresh(landed)
  {
    var after := Insert(rows, base, d, landed, embed);
    InsertedRows(rows, base, d, landed, embed);
    forall m | m in Marks(rows, d, chunks) ensures m in Marks(after, d, chunks) {
      var id :| id in rows && rows[id].documentId == d && rows[id].content in Keys(chunks)
                && m == (rows[id].index, Last(chunks, rows[id].content).index);
      assert id in after;
    }
    forall m | m in Fresh(landed) ensures m in Marks(after, d, chunks) {
      var i :| 0 <= i < |landed| && m == (landed[i].index, landed[i].index);
      assert after[base + i].content == landed[i].content && landed[i] in landed;
    }
    forall m | m in Marks(after, d, chunks) ensures m in Marks(rows, d, chunks) + Fresh(landed) {
      var id :| id in after && after[id].documentId == d && after[id].content in Keys(chunks)
                && m == (after[id].index, Last(chunks, after[id].content).index);
      if id !in rows {
        assert landed[id - base] in landed;
      }
    }
  }
}
