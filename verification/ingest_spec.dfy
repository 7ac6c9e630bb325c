/**
 Upsert ingestion over two stores: the relational tables `documents` and `chunks`, and the search
 index fed from them. This module says what each operation does to both stores; any database call
 may raise, and any subset of the index writes may be lost.

 A SHA-256 digest is modelled by the text it is taken of (digests are assumed not to collide), and
 a random UUID by the next number never used before.
 */
module IngestSpec {
  import opened Wrappers

  type Id = nat
  type Vector = seq<real>

  datatype Chunk = Chunk(content: string, index: nat)

  datatype Document = Document(source: string, title: string, digest: string, access: string)
  datatype Row = Row(documentId: Id, content: string, index: nat, embedding: Vector)
  datatype Entry =
    Entry(documentId: Id, content: string, embedding: Vector, title: string, source: string, access: string)

  /** Both stores, the cache version that ingestion bumps, and the supply of identifiers. */
  datatype Db = Db(docs: map<Id, Document>, rows: map<Id, Row>, entries: map<Id, Entry>, version: nat, next: Id)

  datatype Request = Request(content: string, source: string, title: string, access: string)

  /** The call that raises, if any. */
  datatype Fault =
    | NoFault | AtLookUp | AtChunking | AtReadChunks | AtDeleteChunks | AtWriteDocument | AtEmbedding | AtSaveChunks
    | AtGraph | AtDeleteDocument

  /**
   What happens outside. `unread` says which of a document's rows the server leaves out when they are
   read, as one that caps pages does; `lostEmbed` which of the chunks sent to the embedder, by
   position, do not come back; `redis` whether the cache version can be bumped.
   */
  datatype World = World(
    chunker: string -> seq<Chunk>, embed: Chunk -> Vector, unread: Id -> bool, lostEmbed: nat -> bool,
    lostDelete: Id -> bool, lostFeed: Id -> bool, redis: bool, fault: Fault)

  datatype Status = Inserted | Updated | Skipped | Failed
  datatype Result = Result(status: Status, documentId: Option<Id>, created: nat)

  const FAILED := Result(Failed, None, 0)

  // ---- The chunk dictionary: content to chunk, in order of first appearance ----

  function Texts(chunks: seq<Chunk>): set<string> { set c | c in chunks :: c.content }

  function Keys(chunks: seq<Chunk>): seq<string> {
    if chunks == [] then []
    else
      var ks, last := Keys(chunks[..|chunks| - 1]), chunks[|chunks| - 1].content;
      if last in ks then ks else ks + [last]
  }

  /** The dictionary's value for `key`: the last chunk with that content. */
  function Last(chunks: seq<Chunk>, key: string): (c: Chunk)
    requires key in Keys(chunks)
    ensures c.content == key
  {
    if chunks[|chunks| - 1].content == key then chunks[|chunks| - 1]
    else Last(chunks[..|chunks| - 1], key)
  }

  /** The dictionary's values whose key is not in `old`, over the first `n` keys. */
  function New(chunks: seq<Chunk>, stored: set<string>, n: nat): seq<Chunk>
    requires n <= |Keys(chunks)|
  {
    if n == 0 then []
    else
      var key := Keys(chunks)[n - 1];
      New(chunks, stored, n - 1) + if key in stored then [] else [Last(chunks, key)]
  }

  function ToEmbed(chunks: seq<Chunk>, stored: set<string>): seq<Chunk> {
    New(chunks, stored, |Keys(chunks)|)
  }

  /** The chunks that come back from the embedder. */
  function Survivors(chunks: seq<Chunk>, lost: nat -> bool): seq<Chunk> {
    if chunks == [] then []
    else
      var n := |chunks| - 1;
      Survivors(chunks[..n], lost) + if lost(n) then [] else [chunks[n]]
  }

  // ---- Reading ----

  ghost function FindDocument(docs: map<Id, Document>, source: string): Option<Id> {
    if exists d :: d in docs && docs[d].source == source then
      var d :| d in docs && docs[d].source == source;
      Some(d)
    else None
  }

  function RowIds(rows: map<Id, Row>, d: Id): set<Id> { set id | id in rows && rows[id].documentId == d }

  /** The contents stored for document `d`. */
  function Stored(rows: map<Id, Row>, d: Id): set<string> {
    set id | id in rows && rows[id].documentId == d :: rows[id].content
  }

  /** What reading rows gives. */
  function Returned(rows: map<Id, Row>, unread: Id -> bool): map<Id, Row> {
    map id | id in rows && !unread(id) :: rows[id]
  }

  /** The contents in rows of `d` that are not read. */
  function Overlooked(rows: map<Id, Row>, d: Id, unread: Id -> bool): set<string> {
    set id | id in rows && rows[id].documentId == d && unread(id) :: rows[id].content
  }

  function Stale(rows: map<Id, Row>, d: Id, chunks: seq<Chunk>): set<Id> {
    set id | id in rows && rows[id].documentId == d && rows[id].content !in Texts(chunks)
  }

  // ---- Writing ----

  /** `chunks` inserted as rows of `d` under identifiers `base`, `base + 1`, and so on. */
  function Insert(rows: map<Id, Row>, base: Id, d: Id, chunks: seq<Chunk>, embed: Chunk -> Vector): map<Id, Row> {
    if chunks == [] then rows
    else
      var n := |chunks| - 1;
      var before := Insert(rows, base, d, chunks[..n], embed);
      before[base + n := Row(d, chunks[n].content, chunks[n].index, embed(chunks[n]))]
  }

  /** The index has no empty access level. */
  function Published(access: string): string { if access == "" then "public" else access }

  function ToEntry(row: Row, title: string, source: string, access: string): Entry {
    Entry(row.documentId, row.content, row.embedding, title, source, Published(access))
  }

  /** The rows `base..base + n` fed to the index, except those whose write is lost. */
  function Feed(
    entries: map<Id, Entry>, rows: map<Id, Row>, base: Id, n: nat, r: Request, lost: Id -> bool): map<Id, Entry>
    requires forall i :: base <= i < base + n ==> i in rows
  {
    if n == 0 then entries
    else
      var id := base + n - 1;
      var fed := Feed(entries, rows, base, n - 1, r, lost);
      if lost(id) then fed else fed[id := ToEntry(rows[id], r.title, r.source, r.access)]
  }

  function Drop<V>(m: map<Id, V>, ids: set<Id>, lost: Id -> bool): map<Id, V> {
    map id | id in m && (id !in ids || lost(id)) :: m[id]
  }

  lemma {:induction false} InsertedRows(rows: map<Id, Row>, base: Id, d: Id, chunks: seq<Chunk>, embed: Chunk -> Vector)
    requires forall id :: id in rows ==> id < base
    ensures var after := Insert(rows, base, d, chunks, embed);
            && (forall id :: id in after <==> id in rows || base <= id < base + |chunks|)
            && (forall id :: id in rows ==> after[id] == rows[id])
            && (forall i :: base <= i < base + |chunks| ==>
                  after[i] == Row(d, chunks[i - base].content, chunks[i - base].index, embed(chunks[i - base])))
  {
    if chunks != [] {
      InsertedRows(rows, base, d, chunks[..|chunks| - 1], embed);
    }
  }

  /** Save the chunks as rows of `d`. */
  function SaveRows(db: Db, d: Id, chunks: seq<Chunk>, w: World): Db {
    db.(rows := Insert(db.rows, db.next, d, chunks, w.embed), next := db.next + |chunks|)
  }

  /** Save the chunks as rows of `d`, feed them, bump the cache version. */
  function Save(db: Db, d: Id, chunks: seq<Chunk>, r: Request, w: World): Db
    requires forall id :: id in db.rows ==> id < db.next
  {
    InsertedRows(db.rows, db.next, d, chunks, w.embed);
    var saved := SaveRows(db, d, chunks, w);
    saved.(entries := Feed(db.entries, saved.rows, db.next, |chunks|, r, w.lostFeed),
           version := if w.redis then db.version + 1 else db.version)
  }

  // ---- The operations ----

  /** Identifiers are never reused, so every one in use is below the next. */
  ghost predicate Allocated(db: Db) {
    && (forall d :: d in db.docs ==> d < db.next)
    && (forall id :: id in db.rows ==> id < db.next && db.rows[id].documentId < db.next)
    && (forall id :: id in db.entries ==> id < db.next)
  }

  ghost predicate UniqueSources(db: Db) {
    forall d, e :: d in db.docs && e in db.docs && db.docs[d].source == db.docs[e].source ==> d == e
  }

  ghost function Ingest(db: Db, r: Request, w: World): (Db, Result)
    requires Allocated(db)
  {
    if w.fault == AtLookUp then (db, FAILED)
    else match FindDocument(db.docs, r.source)
      case Some(d) =>
        if db.docs[d].digest == r.content then (db, Result(Skipped, Some(d), 0))
        else if w.fault == AtChunking || w.fault == AtReadChunks then (db, FAILED)
        else Update(db, r, w, d)
      case None =>
        if w.fault == AtChunking || w.fault == AtWriteDocument then (db, FAILED)
        else
          Finish(Create(db, r), db.next, w.chunker(r.content), r, w, Inserted)
  }

  /** A new document's row. */
  function Create(db: Db, r: Request): Db {
    db.(docs := db.docs[db.next := Document(r.source, r.title, r.content, r.access)], next := db.next + 1)
  }

  /** Both stores without the stale chunks, except for lost index deletes. */
  function Trim(db: Db, stale: set<Id>, w: World): Db {
    db.(rows := db.rows - stale, entries := Drop(db.entries, stale, w.lostDelete))
  }

  /** The document's row rewritten; an update does not write the access level. */
  function Rewrite(db: Db, d: Id, r: Request): Db
    requires d in db.docs
  {
    db.(docs := db.docs[d := db.docs[d].(title := r.title, digest := r.content)])
  }

  ghost function Update(db: Db, r: Request, w: World, d: Id): (Db, Result)
    requires Allocated(db) && d in db.docs
  {
    var read := Returned(db.rows, w.unread);
    var stale := Stale(read, d, w.chunker(r.content));
    if stale != {} && w.fault == AtDeleteChunks then (db, FAILED)
    else if w.fault == AtWriteDocument then (Trim(db, stale, w), FAILED)
    else
      var rewritten := Rewrite(Trim(db, stale, w), d, r);
      var selected := ToEmbed(w.chunker(r.content), Stored(read, d));
      if selected == [] then (rewritten, Result(Updated, Some(d), 0))
      else Finish(rewritten, d, selected, r, w, Updated)
  }

  /** Embed, save and go on; there is no call at all when there is nothing to embed, or nothing saved. */
  ghost function Finish(db: Db, d: Id, chunks: seq<Chunk>, r: Request, w: World, status: Status): (Db, Result)
    requires Allocated(db)
  {
    var embedded := Survivors(chunks, w.lostEmbed);
    if (chunks != [] && w.fault == AtEmbedding) || (embedded != [] && w.fault == AtSaveChunks) then (db, FAILED)
    else if embedded != [] && w.fault == AtGraph then (SaveRows(db, d, embedded, w), FAILED)
    else (Save(db, d, embedded, r, w), Result(status, Some(d), |embedded|))
  }

  // ---- What an ingest asks of the embedder, and gets stored ----

  /** The chunks an ingest sends to the embedder. */
  ghost function Wanted(db: Db, r: Request, w: World): seq<Chunk> {
    match FindDocument(db.docs, r.source)
    case Some(d) => ToEmbed(w.chunker(r.content), Stored(Returned(db.rows, w.unread), d))
    case None => w.chunker(r.content)
  }

  /** Of these, the chunks that become rows. */
  function Landed(wanted: seq<Chunk>, w: World): seq<Chunk> {
    if w.fault in {AtWriteDocument, AtEmbedding, AtSaveChunks} then [] else Survivors(wanted, w.lostEmbed)
  }

  /** The graph builder is called and raises: the rows are saved, but neither fed nor announced. */
  ghost predicate GraphRaises(db: Db, r: Request, w: World) {
    && w.fault == AtGraph && Landed(Wanted(db, r, w), w) != []
    && forall d :: d in db.docs && db.docs[d].source == r.source ==> db.docs[d].digest != r.content
  }

  /** Delete a document: its rows, its index entries, then its own row. */
  function Delete(db: Db, d: Id, w: World): Db {
    if w.fault == AtLookUp || w.fault == AtDeleteChunks then db
    else
      var owned := set id | id in db.entries && db.entries[id].documentId == d;
      var trimmed := db.(rows := db.rows - RowIds(db.rows, d), entries := Drop(db.entries, owned, w.lostDelete));
      if w.fault == AtDeleteDocument then trimmed else trimmed.(docs := db.docs - {d})
  }
}
