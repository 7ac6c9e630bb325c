/** Rebuilding the index from the tables, page by page. */
module BackfillIndex {
  import opened Basics
  import opened IngestSpec
  import opened IngestProperties

  /** The table's identifiers in the order the pages are cut from: ascending, each once. */
  ghost predicate Enumerates(order: seq<Id>, rows: map<Id, Row>) {
    && (forall id :: id in rows <==> id in order)
    && (forall i, j :: 0 <= i < j < |order| ==> order[i] < order[j])
  }

  /** `.range(offset, offset + batch - 1)`, of which the server returns at most `cap` rows. */
  function Page(order: seq<Id>, offset: nat, batch: nat, cap: nat): seq<Id> {
    order[Min(offset, |order|)..Min(offset + Min(batch, cap), |order|)]
  }

  /** The identifiers fed from `offset` on. */
  function Visited(order: seq<Id>, offset: nat, batch: nat, cap: nat): (ids: seq<Id>)
    ensures forall id :: id in ids ==> id in order
    decreases |order| - offset
  {
    var page := Page(order, offset, batch, cap);
    if page == [] then [] else page + Visited(order, offset + batch, batch, cap)
  }

  function FeedIds(
    entries: map<Id, Entry>, docs: map<Id, Document>, rows: map<Id, Row>, ids: seq<Id>, lost: Id -> bool)
    : map<Id, Entry>
    requires forall id :: id in ids ==> id in rows
  {
    if ids == [] then entries
    else
      var id := ids[|ids| - 1];
      var fed := FeedIds(entries, docs, rows, ids[..|ids| - 1], lost);
      if lost(id) then fed else fed[id := RowEntry(docs, rows[id])]
  }

  function CountKept(ids: seq<Id>, lost: Id -> bool): nat {
    if ids == [] then 0 else CountKept(ids[..|ids| - 1], lost) + if lost(ids[|ids| - 1]) then 0 else 1
  }

  /** One more identifier. */
  lemma FeedNext(
    entries: map<Id, Entry>, docs: map<Id, Document>, rows: map<Id, Row>, ids: seq<Id>, id: Id, lost: Id -> bool)
    requires id in rows && forall i :: i in ids ==> i in rows
    ensures var fed := FeedIds(entries, docs, rows, ids, lost);
            FeedIds(entries, docs, rows, ids + [id], lost) ==
              if lost(id) then fed else fed[id := RowEntry(docs, rows[id])]
    ensures CountKept(ids + [id], lost) == CountKept(ids, lost) + if lost(id) then 0 else 1
  {
    assert (ids + [id])[..|ids|] == ids;
  }

  class Indexer {
    const docs: map<Id, Document>
    const rows: map<Id, Row>
    var entries: map<Id, Entry>

    constructor (docs: map<Id, Document>, rows: map<Id, Row>, entries: map<Id, Entry>)
      ensures this.docs == docs && this.rows == rows && this.entries == entries
    {
      this.docs, this.rows, this.entries := docs, rows, entries;
    }

    /** Feed one page; `before` is what was fed already, from the entries at `start`. */
    method FeedPage(page: seq<Id>, lost: Id -> bool, ghost start: map<Id, Entry>, ghost before: seq<Id>)
      returns (fed: nat)
      requires (forall id :: id in page ==> id in rows) && (forall id :: id in before ==> id in rows)
      requires entries == FeedIds(start, docs, rows, before, lost)
      modifies this
      ensures entries == FeedIds(start, docs, rows, before + page, lost)
      ensures fed + CountKept(before, lost) == CountKept(before + page, lost)
    {
      fed := 0;
      assert before + page[..0] == before;
      for k := 0 to |page|
        invariant entries == FeedIds(start, docs, rows, before + page[..k], lost)
        invariant fed + CountKept(before, lost) == CountKept(before + page[..k], lost)
      {
        FeedNext(start, docs, rows, before + page[..k], page[k], lost);
        assert before + page[..k + 1] == before + page[..k] + [page[k]];
        if !lost(page[k]) {
          entries := entries[page[k] := RowEntry(docs, rows[page[k]])];
          fed := fed + 1;
        }
      }
      assert page[..|page|] == page;
    }

    /** `backfill`: total is the number of writes that were not lost. */
    method Backfill(order: seq<Id>, batch: nat, cap: nat, lost: Id -> bool) returns (total: nat)
      requires Enumerates(order, rows)
      modifies this
      ensures entries == FeedIds(old(entries), docs, rows, Visited(order, 0, batch, cap), lost)
      ensures total == CountKept(Visited(order, 0, batch, cap), lost)
    {
      total := 0;
      var offset := 0;
      ghost var done: seq<Id> := [];
      while true
        invariant forall id :: id in done ==> id in rows
        invariant done + Visited(order, offset, batch, cap) == Visited(order, 0, batch, cap)
        invariant entries == FeedIds(old(entries), docs, rows, done, lost) && total == CountKept(done, lost)
        decreases |order| - offset
      {
        var page := Page(order, offset, batch, cap);
        if page == [] {
          assert done + [] == done;
          break;
        }
        var fed := FeedPage(page, lost, old(entries), done);
        total := total + fed;
        Reassociate(done, page, Visited(order, offset + batch, batch, cap));
        done := done + page;
        offset := offset + batch;
      }
    }
  }

  lemma {:induction false} VisitsRest(order: seq<Id>, offset: nat, batch: nat, cap: nat)
    requires 1 <= batch <= cap
    ensures Visited(order, offset, batch, cap) == order[Min(offset, |order|)..]
    decreases |order| - offset
  {
    var page := Page(order, offset, batch, cap);
    if page != [] {
      VisitsRest(order, offset + batch, batch, cap);
      var lo, hi := Min(offset, |order|), Min(offset + batch, |order|);
      assert order[lo..hi] + order[hi..] == order[lo..];
    }
  }

  lemma {:induction false} VisitsAtMost(order: seq<Id>, offset: nat, batch: nat, cap: nat)
    ensures |Visited(order, offset, batch, cap)| <= |order| - Min(offset, |order|)
    decreases |order| - offset
  {
    if Page(order, offset, batch, cap) != [] {
      VisitsAtMost(order, offset + batch, batch, cap);
    }
  }

  /** The server honours the page size or the table fits one page; with a page size of 0, there is none. */
  predicate Suffices(order: seq<Id>, batch: nat, cap: nat) {
    if batch == 0 then order == [] else batch <= cap || |order| <= cap
  }

  /**
   The offset advances by the page size asked for, not by the rows received. Every row is fed, once
   and in order, only in these cases.
   */
  lemma VisitsAllExactlyWhen(order: seq<Id>, batch: nat, cap: nat)
    ensures Visited(order, 0, batch, cap) == order <==> Suffices(order, batch, cap)
  {
    if batch == 0 {
      assert Page(order, 0, batch, cap) == [];
    } else if batch <= cap {
      VisitsRest(order, 0, batch, cap);
    } else {
      VisitsAtMost(order, batch, batch, cap);
      if |order| <= cap {
        assert Visited(order, batch, batch, cap) == [];
        assert order[0..|order|] + [] == order;
      }
    }
  }

  function KeptEntries(docs: map<Id, Document>, rows: map<Id, Row>, ids: seq<Id>, lost: Id -> bool): map<Id, Entry>
    requires forall id :: id in ids ==> id in rows
  {
    map id | id in ids && !lost(id) :: RowEntry(docs, rows[id])
  }

  lemma KeptSnoc(docs: map<Id, Document>, rows: map<Id, Row>, ids: seq<Id>, id: Id, lost: Id -> bool)
    requires id in rows && forall i :: i in ids ==> i in rows
    ensures KeptEntries(docs, rows, ids + [id], lost) ==
              KeptEntries(docs, rows, ids, lost) + if lost(id) then map[] else map[id := RowEntry(docs, rows[id])]
  {
  }

  lemma AddOne(m: map<Id, Entry>, n: map<Id, Entry>, id: Id, e: Entry)
    ensures (m + n)[id := e] == m + (n + map[id := e])
    ensures m + n == m + (n + map[])
  {
    assert n + map[] == n;
  }

  lemma {:induction false} FedExactly(
    entries: map<Id, Entry>, docs: map<Id, Document>, rows: map<Id, Row>, ids: seq<Id>, lost: Id -> bool)
    requires forall id :: id in ids ==> id in rows
    ensures FeedIds(entries, docs, rows, ids, lost) == entries + KeptEntries(docs, rows, ids, lost)
  {
    if ids != [] {
      var init, id := ids[..|ids| - 1], ids[|ids| - 1];
      FedExactly(entries, docs, rows, init, lost);
      FeedNext(entries, docs, rows, init, id, lost);
      KeptSnoc(docs, rows, init, id, lost);
      AddOne(entries, KeptEntries(docs, rows, init, lost), id, RowEntry(docs, rows[id]));
      assert ids == init + [id];
    }
  }

  lemma {:induction false} NothingLostCountsAll(ids: seq<Id>, lost: Id -> bool)
    requires forall id :: id in ids ==> !lost(id)
    ensures CountKept(ids, lost) == |ids|
  {
    if ids != [] {
      NothingLostCountsAll(ids[..|ids| - 1], lost);
    }
  }

  /** A backfill whose pages are honoured leaves what `Backfilled` says, whatever writes are lost. */
  lemma BackfillFeedsAll(db: Db, order: seq<Id>, batch: nat, cap: nat, lost: Id -> bool)
    requires Enumerates(order, db.rows) && Suffices(order, batch, cap)
    ensures FeedIds(db.entries, db.docs, db.rows, Visited(order, 0, batch, cap), lost) == Backfilled(db, lost).entries
  {
    VisitsAllExactlyWhen(order, batch, cap);
    FedExactly(db.entries, db.docs, db.rows, order, lost);
    SameMap(db, order, lost);
  }

  lemma SameMap(db: Db, order: seq<Id>, lost: Id -> bool)
    requires forall id :: id in db.rows <==> id in order
    ensures KeptEntries(db.docs, db.rows, order, lost)
         == (map id | id in db.rows && !lost(id) :: RowEntry(db.docs, db.rows[id]))
  {
  }

  /** With no lost write its total is the number of rows. */
  lemma BackfillCountsAll(rows: map<Id, Row>, order: seq<Id>, batch: nat, cap: nat, lost: Id -> bool)
    requires Enumerates(order, rows) && Suffices(order, batch, cap)
    requires forall id :: !lost(id)
    ensures CountKept(Visited(order, 0, batch, cap), lost) == |rows|
  {
    VisitsAllExactlyWhen(order, batch, cap);
    NothingLostCountsAll(order, lost);
    OrderSize(order, rows);
  }

  /**
   With no lost write the index then holds every row as the tables have it. Nothing is deleted, so
   the stores end with the same identifiers exactly when the index held no others before.
   */
  lemma BackfillRebuilds(db: Db, lost: Id -> bool)
    requires forall id :: !lost(id)
    ensures var after := Backfilled(db, lost);
            && (forall id :: id in db.rows ==>
                 id in after.entries && after.entries[id] == RowEntry(db.docs, db.rows[id]))
            && (Synced(after) <==> db.entries.Keys <= db.rows.Keys)
  {
    var after := Backfilled(db, lost);
    assert after.entries.Keys == db.entries.Keys + db.rows.Keys;
  }

  lemma {:induction false} OrderSize(order: seq<Id>, rows: map<Id, Row>)
    requires Enumerates(order, rows)
    ensures |order| == |rows|
  {
    if order == [] {
      assert rows == map[];
    } else {
      var n := |order| - 1;
      var rest := rows - {order[n]};
      assert forall id :: id in rest <==> id in order[..n];
      OrderSize(order[..n], rest);
      assert rest.Keys == rows.Keys - {order[n]};
    }
  }
}
