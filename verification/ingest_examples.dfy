/** Concrete ingests that end as the general results say they can. */
module IngestExamples {
  import opened Wrappers
  import opened IngestSpec
  import opened IngestProperties

  /** One chunk for a text that is not empty; nothing fails and nothing is lost. */
  const CALM: World := World(
    (content: string) => if content == "" then [] else [Chunk(content, 0)], (c: Chunk) => [],
    (id: Id) => false, (i: nat) => false, (id: Id) => false, (id: Id) => false, true, NoFault)

  const NOTHING: Db := Db(map[], map[], map[], 0, 0)

  /** One public document of two rows, one of them of an older version. */
  const STORED: Db := Db(
    map[0 := Document("source", "title", "old", "public")],
    map[1 := Row(0, "old", 0, []), 2 := Row(0, "older", 1, [])],
    map[1 := Entry(0, "old", [], "title", "source", "public"), 2 := Entry(0, "older", [], "title", "source", "public")],
    0, 3)

  function Version(content: string, access: string): Request { Request(content, "source", "title", access) }

  lemma OnlyDocument(docs: map<Id, Document>, d: Id)
    requires docs.Keys == {d} && docs[d].source == "source"
    ensures FindDocument(docs, "source") == Some(d)
  {
    FindDocumentMeaning(docs, "source");
  }

  /** A first ingest fails in the embedder; no later one of that version stores anything. */
  lemma EmbeddingFailureStays(again: World)
    requires again.fault != AtLookUp
    ensures var (r, w) := (Version("new", "public"), CALM.(fault := AtEmbedding));
            var mid := Ingest(NOTHING, r, w).0;
            && mid == Db(map[0 := Document("source", "title", "new", "public")], map[], map[], 0, 1)
            && Ingest(mid, r, again) == (mid, Result(Skipped, Some(0), 0))
  {
    FindDocumentMeaning(NOTHING.docs, "source");
    OnlyDocument(map[0 := Document("source", "title", "new", "public")], 0);
  }

  /** An update to the empty text removes the rows and leaves the version alone. */
  lemma EmptyingIsUnbumped()
    ensures var after := Ingest(STORED, Version("", "public"), CALM).0;
            after.rows == map[] && after.version == STORED.version
  {
    OnlyDocument(STORED.docs, 0);
    assert Returned(STORED.rows, CALM.unread) == STORED.rows;
    assert Stale(STORED.rows, 0, []) == {1, 2};
    assert Keys([]) == [];
  }
}
