/**
 * The simulated document store of the front end: a module-level list of
 * documents that uploads append to and deletes filter, with read-only
 * queries over it. The delays before each answer are not modelled; ids and
 * clock readings are parameters.
 */
module DocumentService {
  import opened Wrappers
  import opened DocumentList
  import Seqs

  const Day: int := 24 * 60 * 60 * 1000

  /** The three documents the store starts with, uploaded 15, 7 and 3 days before `now`. */
  function Seeded(ids: seq<string>, now: int): (docs: seq<Document>)
    requires |ids| == 3
    ensures |docs| == 3 && forall i :: 0 <= i < 3 ==> docs[i].id == ids[i] && docs[i].uploadedAt < now
  {
    [ Document(ids[0], "User Authentication Guide.pdf", 1258291, now - 15 * Day),
      Document(ids[1], "API Documentation.pdf", 3528192, now - 7 * Day),
      Document(ids[2], "System Architecture Overview.pdf", 2193842, now - 3 * Day) ]
  }

  /** Distinct seed ids give a store with unique ids. */
  lemma SeededUnique(ids: seq<string>, now: int)
    requires |ids| == 3 && ids[0] != ids[1] && ids[0] != ids[2] && ids[1] != ids[2]
    ensures UniqueIds(Seeded(ids, now))
  {
    var docs := Seeded(ids, now);
    forall i, j | 0 <= i < j < |docs| ensures IdOf(docs[i]) != IdOf(docs[j]) {
      assert IdOf(docs[i]) == ids[i] && IdOf(docs[j]) == ids[j];
    }
  }

  /**
   * `files.map(file => ({ id: uuidv4(), name: file.name, size: file.size, uploadedAt: new Date() }))`:
   * the i-th record takes the i-th id and the i-th clock reading.
   */
  function NewRecords(files: seq<UploadFile>, ids: seq<string>, clock: seq<int>): (added: seq<Document>)
    requires |ids| == |files| && |clock| == |files|
    ensures |added| == |files|
    ensures forall i :: 0 <= i < |files| ==>
      added[i].id == ids[i] && added[i].name == files[i].name && added[i].size == files[i].size && added[i].uploadedAt == clock[i]
  {
    seq(|files|, i requires 0 <= i < |files| => Document(ids[i], files[i].name, files[i].size, clock[i]))
  }

  class DocumentStore {
    var documents: seq<Document>

    /** The store as the module initialises it. */
    constructor (ids: seq<string>, now: int)
      requires |ids| == 3
      ensures documents == Seeded(ids, now)
    {
      documents := Seeded(ids, now);
    }

    /** `getDocuments`: a copy of the store, same records in the same order. */
    method GetDocuments() returns (r: seq<Document>)
      ensures r == documents
      ensures |r| == |documents| && forall i :: 0 <= i < |r| ==> r[i] == documents[i]
    {
      r := documents;
    }

    /**
     * `uploadDocuments`: one new record per file, in order, the name and size
     * copied, appended after the existing records, which stay as they were.
     * With fresh ids the store keeps its ids unique.
     */
    method UploadDocuments(files: seq<UploadFile>, ids: seq<string>, clock: seq<int>) returns (added: seq<Document>)
      requires |ids| == |files| && |clock| == |files|
      modifies this
      ensures |added| == |files|
      ensures forall i :: 0 <= i < |files| ==>
        added[i].id == ids[i] && added[i].name == files[i].name && added[i].size == files[i].size && added[i].uploadedAt == clock[i]
      ensures documents == old(documents) + added
      ensures documents[..|old(documents)|] == old(documents)
      ensures UniqueIds(old(documents)) && FreshIds(ids, old(documents)) ==> UniqueIds(documents)
    {
      added := NewRecords(files, ids, clock);
      if UniqueIds(documents) && FreshIds(ids, documents) {
        assert seq(|added|, i requires 0 <= i < |added| => added[i].id) == ids;
        AppendKeepsUnique(documents, added);
      }
      documents := documents + added;
    }

    /**
     * `deleteDocument`: every record with that id goes, the others stay in
     * their order; an unknown id leaves the store as it was, and no case
     * fails.
     */
    method DeleteDocument(id: string)
      modifies this
      ensures documents == Without(old(documents), id)
      ensures forall d :: d in documents <==> d in old(documents) && d.id != id
      ensures (forall i :: 0 <= i < |old(documents)| ==> old(documents)[i].id != id) ==> documents == old(documents)
      ensures UniqueIds(old(documents)) ==> UniqueIds(documents)
    {
      if forall i :: 0 <= i < |documents| ==> documents[i].id != id {
        WithoutUnknownId(documents, id);
      }
      if UniqueIds(documents) {
        WithoutKeepsUnique(documents, id);
      }
      documents := Without(documents, id);
    }

    /** `getDocumentDetails`: the first record with that id, or nothing when none has it. */
    method GetDocumentDetails(id: string) returns (r: Option<Document>)
      ensures r.None? <==> forall i :: 0 <= i < |documents| ==> documents[i].id != id
      ensures r.Some? ==> exists i :: 0 <= i < |documents| && documents[i] == r.value && r.value.id == id &&
                            forall j :: 0 <= j < i ==> documents[j].id != id
    {
      r := Seqs.Find(documents, HasId(id));
    }
  }
}
