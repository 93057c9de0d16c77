/**
 * The admin page: its own copy of the document list, kept in step with the
 * document store through the upload and delete handlers, the training
 * switch, and the readiness indicators drawn from the list's length. Each
 * awaited call is a parameter holding its outcome (`None` where the promise
 * rejects); the training timer is a separate step.
 */
module Admin {
  import opened Wrappers
  import opened Text
  import opened DocumentList
  import DocumentService

  /** The toast titles the page shows. */
  const LoadFailed: string := "Error"
  const UploadComplete: string := "Upload Complete"
  const UploadFailed: string := "Upload Failed"
  const DeleteFailed: string := "Delete Failed"
  const NoDocuments: string := "No Documents"
  const TrainingComplete: string := "Training Complete"

  /** The description of the upload toast: the count, then "document", pluralised unless the count is one. */
  function UploadedText(n: nat): (s: string)
    ensures StartsWith(s, NatToString(n) + " document")
    ensures EndsWith(s, "s uploaded successfully.") <==> n != 1
  {
    var head := NatToString(n) + " document";
    var tail := if n != 1 then "s uploaded successfully." else " uploaded successfully.";
    var s := head + tail;
    assert s[..|head|] == head && s[|s| - |tail|..] == tail;
    assert n == 1 ==> s[|s| - 24] == 't';
    s
  }

  // ------------------------------------------------------------- indicators

  /** The width of the progress bar in percent: one fifth per document, full at five. */
  function ProgressWidth(n: nat): (w: nat)
    ensures w <= 100
    ensures w == 100 <==> n >= 5
    ensures n < 5 ==> w == 20 * n
  {
    if 20 * n < 100 then 20 * n else 100
  }

  /** The bar never shrinks as documents are added. */
  lemma ProgressWidthMonotone(m: nat, n: nat)
    requires m <= n
    ensures ProgressWidth(m) <= ProgressWidth(n)
  {
  }

  /** The hint under the progress bar. */
  function ReadinessMessage(n: nat): (m: string)
    ensures m == "Upload documents to train the AI" <==> n == 0
    ensures m == "We recommend uploading at least 3 documents" <==> 1 <= n < 3
    ensures m == "Ready to train" <==> n >= 3
  {
    if n == 0 then "Upload documents to train the AI"
    else if n < 3 then "We recommend uploading at least 3 documents"
    else "Ready to train"
  }

  /** The train button's `disabled` attribute. */
  function TrainDisabled(isTraining: bool, n: nat): (disabled: bool)
    ensures isTraining ==> disabled
    ensures !isTraining ==> (disabled <==> TrainRefusal(n).Some?)
  {
    isTraining || n == 0
  }

  /** `handleTrainModel`'s guard: the toast it refuses with, or nothing when training may start. */
  function TrainRefusal(n: nat): (refusal: Option<string>)
    ensures refusal.Some? <==> n == 0
    ensures refusal.Some? ==> refusal.value == NoDocuments
  {
    if n == 0 then Some(NoDocuments) else None
  }

  /** "Ready to train" shows exactly when the bar has at least three fifths. */
  lemma ReadyIffThreeFifths(n: nat)
    ensures ReadinessMessage(n) == "Ready to train" <==> ProgressWidth(n) >= 60
  {
  }

  class AdminPage {
    var documents: seq<Document>
    var isLoading: bool
    var isTraining: bool
    /** The titles of the toasts shown so far, oldest first. */
    var toasts: seq<string>

    /** The page's initial state: no documents yet, loading, not training. */
    constructor ()
      ensures documents == [] && isLoading && !isTraining && toasts == []
    {
      documents := [];
      isLoading := true;
      isTraining := false;
      toasts := [];
    }

    /** `loadDocuments`: the fetched list replaces the page's, or an error toast; loading ends either way. */
    method LoadDocuments(fetched: Option<seq<Document>>)
      modifies this
      ensures fetched.Some? ==> documents == fetched.value && toasts == old(toasts)
      ensures fetched.None? ==> documents == old(documents) && toasts == old(toasts) + [LoadFailed]
      ensures !isLoading && isTraining == old(isTraining)
    {
      isLoading := true;
      match fetched {
        case Some(docs) => documents := docs;
        case None => toasts := toasts + [LoadFailed];
      }
      isLoading := false;
    }

    /**
     * `handleUploadComplete`: the records the store returned are appended
     * after the page's list, which otherwise stays as it was; when the upload
     * fails only a toast is added.
     */
    method HandleUploadComplete(files: seq<UploadFile>, uploaded: Option<seq<Document>>)
      modifies this
      ensures uploaded.Some? ==> documents == old(documents) + uploaded.value && toasts == old(toasts) + [UploadComplete]
      ensures uploaded.None? ==> documents == old(documents) && toasts == old(toasts) + [UploadFailed]
      ensures isLoading == old(isLoading) && isTraining == old(isTraining)
    {
      match uploaded {
        case Some(docs) =>
          documents := documents + docs;
          toasts := toasts + [UploadComplete];
        case None =>
          toasts := toasts + [UploadFailed];
      }
    }

    /**
     * `handleDeleteDocument`: after the store confirms, every record with
     * that id leaves the list and the rest keep their order; when the store
     * call fails the list is unchanged and a toast is added.
     */
    method HandleDeleteDocument(id: string, deleted: bool)
      modifies this
      ensures deleted ==> documents == Without(old(documents), id) && toasts == old(toasts)
      ensures !deleted ==> documents == old(documents) && toasts == old(toasts) + [DeleteFailed]
      ensures isLoading == old(isLoading) && isTraining == old(isTraining)
    {
      if deleted {
        documents := Without(documents, id);
      } else {
        toasts := toasts + [DeleteFailed];
      }
    }

    /** `handleTrainModel`: refused with a toast on an empty list, otherwise training starts. */
    method HandleTrainModel()
      modifies this
      ensures old(documents) == [] ==> isTraining == old(isTraining) && toasts == old(toasts) + [NoDocuments]
      ensures old(documents) != [] ==> isTraining && toasts == old(toasts)
      ensures !TrainDisabled(old(isTraining), |old(documents)|) ==> isTraining
      ensures !old(isTraining) ==> (TrainDisabled(old(isTraining), |old(documents)|) <==> !isTraining)
      ensures documents == old(documents) && isLoading == old(isLoading)
    {
      match TrainRefusal(|documents|) {
        case Some(title) =>
          toasts := toasts + [title];
          return;
        case None =>
      }
      isTraining := true;
    }

    /** The training timer firing: training ends and is announced. */
    method FinishTraining()
      modifies this
      ensures !isTraining && toasts == old(toasts) + [TrainingComplete]
      ensures documents == old(documents) && isLoading == old(isLoading)
    {
      isTraining := false;
      toasts := toasts + [TrainingComplete];
    }

    /**
     * Loading from the store: the page's list becomes the store's contents.
     */
    method LoadFrom(store: DocumentService.DocumentStore)
      modifies this
      ensures documents == store.documents && !isLoading
      ensures toasts == old(toasts) && isTraining == old(isTraining)
    {
      var docs := store.GetDocuments();
      LoadDocuments(Some(docs));
    }

    /**
     * An upload through the store followed by the page's handler: a page
     * whose list mirrors the store still mirrors it afterwards.
     */
    method UploadThrough(store: DocumentService.DocumentStore, files: seq<UploadFile>, ids: seq<string>, clock: seq<int>)
      requires |ids| == |files| && |clock| == |files|
      modifies this, store
      ensures old(documents) == old(store.documents) ==> documents == store.documents
      ensures |store.documents| == |old(store.documents)| + |files|
      ensures documents == old(documents) + store.documents[|old(store.documents)|..]
      ensures toasts == old(toasts) + [UploadComplete]
      ensures isLoading == old(isLoading) && isTraining == old(isTraining)
    {
      var added := store.UploadDocuments(files, ids, clock);
      HandleUploadComplete(files, Some(added));
    }

    /**
     * A delete through the store followed by the page's handler: a page
     * whose list mirrors the store still mirrors it afterwards.
     */
    method DeleteThrough(store: DocumentService.DocumentStore, id: string)
      modifies this, store
      ensures old(documents) == old(store.documents) ==> documents == store.documents
      ensures documents == Without(old(documents), id)
      ensures toasts == old(toasts) && isLoading == old(isLoading) && isTraining == old(isTraining)
    {
      store.DeleteDocument(id);
      HandleDeleteDocument(id, true);
    }
  }
}
