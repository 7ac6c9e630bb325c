/** What every run of ingests and deletes keeps, and what one ingest achieves. */
module IngestProperties {
  import opened IngestSpec

  // ---- The dictionary ----

  lemma TextsSnoc(chunks: seq<Chunk>, c: Chunk)
    ensures Texts(chunks + [c]) == Texts(chunks) + {c.content}
  {
  }

  lemma {:induction false} KeysAreTexts(chunks: seq<Chunk>)
    ensures forall t :: t in Keys(chunks) <==> t in Texts(chunks)
    ensures forall i, j :: 0 <= i < j < |Keys(chunks)| ==> Keys(chunks)[i] != Keys(chunks)[j]
  {
    if chunks != [] {
      var init, last := chunks[..|chunks| - 1], chunks[|chunks| - 1];
      KeysAreTexts(init);
      assert chunks == init + [last];
      TextsSnoc(init, last);
    }
  }

  function FirstKeys(chunks: seq<Chunk>, n: nat): set<string>
    requires n <= |Keys(chunks)|
  {
    set t | t in Keys(chunks)[..n]
  }

  lemma NextKey(chunks: seq<Chunk>, n: nat)
    requires 0 < n <= |Keys(chunks)|
    ensures Keys(chunks)[n - 1] !in FirstKeys(chunks, n - 1)
    ensures FirstKeys(chunks, n) == FirstKeys(chunks, n - 1) + {Keys(chunks)[n - 1]}
  {
    KeysAreTexts(chunks);
    assert Keys(chunks)[..n] == Keys(chunks)[..n - 1] + [Keys(chunks)[n - 1]];
  }

  /** Selecting from one more key. */
  lemma OneMore(
    fewer: set<string>, more: set<string>, t: string, stored: set<string>, before: set<string>, after: set<string>,
      m: nat, n: nat)
    requires t !in fewer && more == fewer + {t} && before == fewer - stored && m == |fewer - stored|
    requires if t in stored then after == before && n == m else after == before + {t} && n == m + 1
    ensures after == more - stored && n == |more - stored|
  {
    assert t in stored ==> more - stored == fewer - stored;
    assert t !in stored ==> more - stored == fewer - stored + {t};
  }

  lemma NewSnoc(chunks: seq<Chunk>, stored: set<string>, n: nat)
    requires 0 < n <= |Keys(chunks)|
    ensures var before, after, key := New(chunks, stored, n - 1), New(chunks, stored, n), Keys(chunks)[n - 1];
            if key in stored then after == before
            else |after| == |before| + 1 && Texts(after) == Texts(before) + {key}
  {
    var before, key := New(chunks, stored, n - 1), Keys(chunks)[n - 1];
    if key !in stored {
      TextsSnoc(before, Last(chunks, key));
    }
  }

  lemma NothingYet(chunks: seq<Chunk>, stored: set<string>)
    ensures Texts([]) == FirstKeys(chunks, 0) - stored && |FirstKeys(chunks, 0) - stored| == 0
  {
    assert FirstKeys(chunks, 0) - stored == {};
  }

  /** The chunks selected for embedding are exactly the contents not yet stored, each once. */
  lemma {:induction false} SelectedExactly(chunks: seq<Chunk>, stored: set<string>, n: nat)
    requires n <= |Keys(chunks)|
    ensures Texts(New(chunks, stored, n)) == FirstKeys(chunks, n) - stored
    ensures |New(chunks, stored, n)| == |FirstKeys(chunks, n) - stored|
  {
    if n == 0 {
      NothingYet(chunks, stored);
    } else {
      SelectedExactly(chunks, stored, n - 1);
      NextKey(chunks, n);
      NewSnoc(chunks, stored, n);
      var before, after := New(chunks, stored, n - 1), New(chunks, stored, n);
      OneMore(FirstKeys(chunks, n - 1), FirstKeys(chunks, n), Keys(chunks)[n - 1], stored, Texts(before),
        Texts(after), |before|, |after|);
    }
  }

  lemma ToEmbedTexts(chunks: seq<Chunk>, stored: set<string>)
    ensures Texts(ToEmbed(chunks, stored)) == Texts(chunks) - stored
    ensures |ToEmbed(chunks, stored)| == |Texts(chunks) - stored|
    ensures ToEmbed(chunks, stored) == [] <==> Texts(chunks) <= stored
  {
    var selected := ToEmbed(chunks, stored);
    SelectedExactly(chunks, stored, |Keys(chunks)|);
    KeysAreTexts(chunks);
    assert Keys(chunks)[..|Keys(chunks)|] == Keys(chunks);
    assert FirstKeys(chunks, |Keys(chunks)|) == Texts(chunks);
    if selected != [] {
      assert selected[0].content in Texts(selected);
    } else {
      assert forall t :: t in Texts(chunks) ==> t !in Texts(chunks) - stored;
    }
  }

  // ---- Invariants ----

  /** An identifier known to both stores means the same content of the same document. */
  ghost predicate Agree(db: Db) {
    forall id :: id in db.rows && id in db.entries ==>
      db.entries[id].content == db.rows[id].content && db.entries[id].documentId == db.rows[id].documentId
  }

  ghost predicate Inv(db: Db) {
    Allocated(db) && UniqueSources(db) && Agree(db)
  }

  /** Both stores know the same identifiers. */
  ghost predicate Synced(db: Db) {
    db.rows.Keys == db.entries.Keys
  }

  ghost predicate NothingLost(w: World) {
    forall id :: !w.lostDelete(id) && !w.lostFeed(id)
  }

  lemma {:induction false} FedEntries(
    entries: map<Id, Entry>, rows: map<Id, Row>, base: Id, n: nat, r: Request, lost: Id -> bool)
    requires forall i :: base <= i < base + n ==> i in rows
    requires forall id :: id in entries ==> id < base
    ensures var after := Feed(entries, rows, base, n, r, lost);
            && (forall id :: id in after <==> id in entries || (base <= id < base + n && !lost(id)))
            && (forall id :: id in entries ==> after[id] == entries[id])
            && (forall id :: base <= id < base + n && !lost(id) ==>
                 after[id] == ToEntry(rows[id], r.title, r.source, r.access))
  {
    if n > 0 {
      FedEntries(entries, rows, base, n - 1, r, lost);
    }
  }

  lemma SaveRowsKeeps(db: Db, d: Id, chunks: seq<Chunk>, w: World)
    requires Inv(db) && d < db.next
    ensures Inv(SaveRows(db, d, chunks, w))
    ensures chunks != [] && Synced(db) ==> !Synced(SaveRows(db, d, chunks, w))
  {
    InsertedRows(db.rows, db.next, d, chunks, w.embed);
    if chunks != [] {
      assert db.next in SaveRows(db, d, chunks, w).rows;
    }
  }

  lemma SaveKeeps(db: Db, d: Id, chunks: seq<Chunk>, r: Request, w: World)
    requires Inv(db) && d < db.next
    ensures Inv(Save(db, d, chunks, r, w))
    ensures NothingLost(w) && Synced(db) ==> Synced(Save(db, d, chunks, r, w))
  {
    var after := Save(db, d, chunks, r, w);
    InsertedRows(db.rows, db.next, d, chunks, w.embed);
    FedEntries(db.entries, after.rows, db.next, |chunks|, r, w.lostFeed);
  }

  lemma FinishKeeps(db: Db, d: Id, chunks: seq<Chunk>, r: Request, w: World, status: Status)
    requires Inv(db) && d < db.next
    ensures Inv(Finish(db, d, chunks, r, w, status).0)
    ensures NothingLost(w) && Synced(db) ==>
              (Synced(Finish(db, d, chunks, r, w, status).0) <==> !(w.fault == AtGraph && Landed(chunks, w) != []))
  {
    SaveRowsKeeps(db, d, Survivors(chunks, w.lostEmbed), w);
    SaveKeeps(db, d, Survivors(chunks, w.lostEmbed), r, w);
  }

  lemma UpdateKeeps(db: Db, r: Request, w: World, d: Id)
    requires Inv(db) && d in db.docs && db.docs[d].source == r.source
    ensures Inv(Update(db, r, w, d).0)
    ensures var wanted := ToEmbed(w.chunker(r.content), Stored(Returned(db.rows, w.unread), d));
            NothingLost(w) && Synced(db) ==>
              (Synced(Update(db, r, w, d).0) <==> !(w.fault == AtGraph && Landed(wanted, w) != []))
  {
    var read := Returned(db.rows, w.unread);
    var stale, wanted := Stale(read, d, w.chunker(r.content)), ToEmbed(w.chunker(r.content), Stored(read, d));
    TrimKeeps(db, stale, w, d, r);
    FinishKeeps(Rewrite(Trim(db, stale, w), d, r), d, wanted, r, w, Updated);
  }

  lemma TrimKeeps(db: Db, stale: set<Id>, w: World, d: Id, r: Request)
    requires Inv(db) && d in db.docs && db.docs[d].source == r.source
    ensures var trimmed := Trim(db, stale, w);
            Inv(trimmed) && Inv(Rewrite(trimmed, d, r)) && (NothingLost(w) && Synced(db) ==> Synced(trimmed))
  {
  }

  lemma FindDocumentMeaning(docs: map<Id, Document>, source: string)
    ensures var found := FindDocument(docs, source);
            && (found.Some? ==> found.value in docs && docs[found.value].source == source)
            && (found.None? ==> forall d :: d in docs ==> docs[d].source != source)
  {
  }

  lemma CreateKeeps(db: Db, r: Request)
    requires Inv(db) && forall d :: d in db.docs ==> db.docs[d].source != r.source
    ensures Inv(Create(db, r)) && (Synced(db) ==> Synced(Create(db, r)))
  {
  }

  /**
   Whatever call raises and whatever writes are lost, an ingest keeps the invariant; with no lost
   write it keeps the stores in step exactly when the graph builder does not raise.
   */
  lemma IngestKeeps(db: Db, r: Request, w: World)
    requires Inv(db)
    ensures Inv(Ingest(db, r, w).0)
    ensures NothingLost(w) && Synced(db) ==> (Synced(Ingest(db, r, w).0) <==> !GraphRaises(db, r, w))
  {
    FindDocumentMeaning(db.docs, r.source);
    match FindDocument(db.docs, r.source)
    case Some(d) =>
      UpdateKeeps(db, r, w, d);
    case None =>
      CreateKeeps(db, r);
      FinishKeeps(Create(db, r), db.next, w.chunker(r.content), r, w, Inserted);
  }

  lemma DeleteKeeps(db: Db, d: Id, w: World)
    requires Inv(db)
    ensures Inv(Delete(db, d, w))
    ensures NothingLost(w) && Synced(db) ==> Synced(Delete(db, d, w))
  {
  }

  // ---- Runs ----

  datatype Op = IngestOp(r: Request, w: World) | DeleteOp(d: Id, w: World) | BackfillOp(lost: Id -> bool)

  ghost function Apply(db: Db, op: Op): Db
    requires Allocated(db)
  {
    match op
    case IngestOp(r, w) => Ingest(db, r, w).0
    case DeleteOp(d, w) => Delete(db, d, w)
    case BackfillOp(lost) => Backfilled(db, lost)
  }

  /** What a complete backfill leaves: every row fed, except for lost writes. */
  function Backfilled(db: Db, lost: Id -> bool): Db {
    db.(entries := db.entries + map id | id in db.rows && !lost(id) :: RowEntry(db.docs, db.rows[id]))
  }

  function RowEntry(docs: map<Id, Document>, row: Row): Entry {
    if row.documentId in docs
    then ToEntry(row, docs[row.documentId].title, docs[row.documentId].source, docs[row.documentId].access)
    else ToEntry(row, "", "", "public")
  }

  /** The states of a run. */
  ghost predicate IsRun(states: seq<Db>, ops: seq<Op>) {
    && |states| == |ops| + 1
    && states[0] == Db(map[], map[], map[], 0, 0)
    && forall i, j :: 0 <= i < |ops| && j == i + 1 ==> Allocated(states[i]) && states[j] == Apply(states[i], ops[i])
  }

  /** No index write is lost in the operation, and no graph builder raises. */
  ghost predicate LosesNothing(db: Db, op: Op) {
    match op
    case IngestOp(r, w) => NothingLost(w) && !GraphRaises(db, r, w)
    case DeleteOp(_, w) => NothingLost(w)
    case BackfillOp(lost) => forall id :: !lost(id)
  }

  lemma ApplyKeeps(db: Db, op: Op, after: Db)
    requires Inv(db) && after == Apply(db, op)
    ensures Inv(after)
    ensures LosesNothing(db, op) && Synced(db) ==> Synced(after)
  {
    match op
    case IngestOp(r, w) => IngestKeeps(db, r, w);
    case DeleteOp(d, w) => DeleteKeeps(db, d, w);
    case BackfillOp(lost) =>
  }

  /**
   In every state of every run, whatever calls raised and whatever index writes were lost, an
   identifier in both stores has the same content and document in both; if no index write was lost
   and no graph builder raised, the two stores hold the same identifiers.
   */
  lemma {:induction false} StoresAgreeInEveryRun(states: seq<Db>, ops: seq<Op>, k: nat)
    requires IsRun(states, ops) && k < |states|
    ensures Inv(states[k])
    ensures (forall i :: 0 <= i < k ==> LosesNothing(states[i], ops[i])) ==> Synced(states[k])
  {
    if k > 0 {
      StoresAgreeInEveryRun(states, ops, k - 1);
      ApplyKeeps(states[k - 1], ops[k - 1], states[k]);
    }
  }
}
