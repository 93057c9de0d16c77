/**
 * The upload widget: the selection it builds from picked or dropped files
 * (allowed types only, never more than `maxFiles`), removal by position,
 * and the submit sequence with its simulated progress counter. Timers are
 * separate steps: `Tick` is one run of the interval callback, `FinishTransfer`
 * the end of the simulated transfer, `DeliverUpload` the final timeout.
 */
module FileUpload {
  import opened DocumentList
  import Seqs

  const DefaultMaxFiles: nat := 5
  const DefaultAllowedTypes: seq<string> := ["application/pdf"]

  /** `file => allowedTypes.includes(file.type)`. */
  function IsAllowed(allowedTypes: seq<string>): UploadFile -> bool {
    (f: UploadFile) => f.mimeType in allowedTypes
  }

  /** Every file of the list has an allowed type. */
  predicate AllAllowed(files: seq<UploadFile>, allowedTypes: seq<string>) {
    forall i :: 0 <= i < |files| ==> files[i].mimeType in allowedTypes
  }

  /** The files of a pick that have an allowed type, in their order. */
  function ValidFiles(newFiles: seq<UploadFile>, allowedTypes: seq<string>): (valid: seq<UploadFile>)
    ensures |valid| <= |newFiles|
    ensures AllAllowed(valid, allowedTypes)
    ensures forall f :: f in valid <==> f in newFiles && f.mimeType in allowedTypes
  {
    var valid := Seqs.Filter(newFiles, IsAllowed(allowedTypes));
    assert forall i :: 0 <= i < |valid| ==> valid[i] in valid;
    valid
  }

  /**
   * The selection after `processFiles`: the valid files are appended when
   * they fit; when they would overflow, only as many as there are free
   * slots are appended, and none when there are no slots.
   */
  function Select(files: seq<UploadFile>, newFiles: seq<UploadFile>, maxFiles: nat, allowedTypes: seq<string>): (r: seq<UploadFile>)
    ensures |r| >= |files| && r[..|files|] == files
    ensures |files| + |ValidFiles(newFiles, allowedTypes)| <= maxFiles ==> r == files + ValidFiles(newFiles, allowedTypes)
    ensures |files| + |ValidFiles(newFiles, allowedTypes)| > maxFiles ==>
      r == files + ValidFiles(newFiles, allowedTypes)[..if |files| < maxFiles then maxFiles - |files| else 0]
  {
    var valid := ValidFiles(newFiles, allowedTypes);
    if |files| + |valid| > maxFiles then
      var remainingSlots := maxFiles - |files|;
      if remainingSlots > 0 then files + valid[..remainingSlots] else
        assert valid[..0] == [];
        assert files + valid[..0] == files;
        files
    else files + valid
  }

  /** A selection within the limit stays within it. */
  lemma SelectStaysWithinLimit(files: seq<UploadFile>, newFiles: seq<UploadFile>, maxFiles: nat, allowedTypes: seq<string>)
    requires |files| <= maxFiles
    ensures |Select(files, newFiles, maxFiles, allowedTypes)| <= maxFiles
  {
  }

  /** A selection of allowed files stays one. */
  lemma SelectKeepsAllowed(files: seq<UploadFile>, newFiles: seq<UploadFile>, maxFiles: nat, allowedTypes: seq<string>)
    requires AllAllowed(files, allowedTypes)
    ensures AllAllowed(Select(files, newFiles, maxFiles, allowedTypes), allowedTypes)
  {
    var valid := ValidFiles(newFiles, allowedTypes);
    var r := Select(files, newFiles, maxFiles, allowedTypes);
    forall i | 0 <= i < |r| ensures r[i].mimeType in allowedTypes {
      if i >= |files| {
        assert r[i] == valid[i - |files|];
      } else {
        assert r[i] == r[..|files|][i];
      }
    }
  }

  /** `prev.filter((_, i) => i !== index)`, one element at a time. */
  function DropIndex(s: seq<UploadFile>, index: int): (r: seq<UploadFile>)
    ensures |r| <= |s|
  {
    if s == [] then [] else (if index == 0 then [] else [s[0]]) + DropIndex(s[1..], index - 1)
  }

  /** Removal takes out exactly the element at `index`; an index out of range removes nothing. */
  lemma {:induction false} DropIndexIsSplice(s: seq<UploadFile>, index: int)
    ensures DropIndex(s, index) == if 0 <= index < |s| then s[..index] + s[index + 1..] else s
  {
    if s != [] {
      var tail := s[1..];
      DropIndexIsSplice(tail, index - 1);
      var rest := DropIndex(tail, index - 1);
      if index == 0 {
        assert DropIndex(s, index) == rest;
        assert rest == tail;
        assert s[..0] + s[1..] == tail;
      } else {
        assert DropIndex(s, index) == [s[0]] + rest;
        if 0 < index < |s| {
          assert rest == tail[..index - 1] + tail[index..];
          assert s[..index] == [s[0]] + tail[..index - 1];
          assert s[index + 1..] == tail[index..];
        } else {
          assert rest == tail;
          assert [s[0]] + tail == s;
        }
      }
    }
  }

  /** One run of the interval callback: five more, unless the value already reached 95. */
  function NextProgress(p: nat): (q: nat)
    ensures p < 95 ==> q == p + 5
    ensures p >= 95 ==> q == p
  {
    if p >= 95 then p else p + 5
  }

  /** The value after `k` runs of the callback from 0. */
  function ProgressAfter(k: nat): nat {
    if k == 0 then 0 else NextProgress(ProgressAfter(k - 1))
  }

  /** The counter climbs by fives from 0 and stops at 95. */
  lemma {:induction false} ProgressAfterIsCapped(k: nat)
    ensures ProgressAfter(k) == if 5 * k < 95 then 5 * k else 95
    ensures ProgressAfter(k) % 5 == 0 && ProgressAfter(k) <= 95
  {
    if k > 0 {
      ProgressAfterIsCapped(k - 1);
    }
  }

  class UploadSelector {
    const maxFiles: nat
    const allowedTypes: seq<string>
    var files: seq<UploadFile>
    var isUploading: bool
    var uploadProgress: nat
    /** Whether the progress interval is still registered. */
    var timerRunning: bool
    /** The titles of the toasts shown so far, oldest first. */
    var toasts: seq<string>

    /** A widget with the default props: at most 5 files, PDF only. */
    constructor Default()
      ensures maxFiles == DefaultMaxFiles && allowedTypes == DefaultAllowedTypes
      ensures files == [] && !isUploading && uploadProgress == 0 && !timerRunning && toasts == []
    {
      maxFiles := DefaultMaxFiles;
      allowedTypes := DefaultAllowedTypes;
      files := [];
      isUploading := false;
      uploadProgress := 0;
      timerRunning := false;
      toasts := [];
    }

    /** A widget with the given props. */
    constructor (maxFiles: nat, allowedTypes: seq<string>)
      ensures this.maxFiles == maxFiles && this.allowedTypes == allowedTypes
      ensures files == [] && !isUploading && uploadProgress == 0 && !timerRunning && toasts == []
    {
      this.maxFiles := maxFiles;
      this.allowedTypes := allowedTypes;
      files := [];
      isUploading := false;
      uploadProgress := 0;
      timerRunning := false;
      toasts := [];
    }

    /** The selection invariant `processFiles` keeps: allowed types only and no more than `maxFiles`. */
    predicate Valid()
      reads this
    {
      AllAllowed(files, allowedTypes) && |files| <= maxFiles
    }

    /**
     * `processFiles`: the selection becomes `Select` of the old one; a toast
     * reports rejected types and another an overflow.
     */
    method ProcessFiles(newFiles: seq<UploadFile>)
      modifies this
      ensures files == Select(old(files), newFiles, maxFiles, allowedTypes)
      ensures old(Valid()) ==> Valid()
      ensures toasts == old(toasts)
        + (if |ValidFiles(newFiles, allowedTypes)| != |newFiles| then ["Invalid file type"] else [])
        + (if |old(files)| + |ValidFiles(newFiles, allowedTypes)| > maxFiles then ["Too many files"] else [])
      ensures isUploading == old(isUploading) && uploadProgress == old(uploadProgress) && timerRunning == old(timerRunning)
    {
      var validFiles := ValidFiles(newFiles, allowedTypes);
      var shown := toasts;
      if |validFiles| != |newFiles| {
        shown := shown + ["Invalid file type"];
      }
      if |files| + |validFiles| > maxFiles {
        shown := shown + ["Too many files"];
      }
      toasts := shown;
      if AllAllowed(files, allowedTypes) {
        SelectKeepsAllowed(files, newFiles, maxFiles, allowedTypes);
      }
      files := Select(files, newFiles, maxFiles, allowedTypes);
    }

    /** `removeFile`: the file at `index` leaves the selection, the others keep their order. */
    method RemoveFile(index: int)
      modifies this
      ensures files == if 0 <= index < |old(files)| then old(files)[..index] + old(files)[index + 1..] else old(files)
      ensures old(Valid()) ==> Valid()
      ensures isUploading == old(isUploading) && uploadProgress == old(uploadProgress) && toasts == old(toasts)
      ensures timerRunning == old(timerRunning)
    {
      DropIndexIsSplice(files, index);
      files := DropIndex(files, index);
      assert forall i :: 0 <= i < |files| ==> files[i] in old(files);
    }

    /**
     * The synchronous part of `handleSubmit`: an empty selection only shows
     * a toast; otherwise uploading starts at 0 with the interval running.
     */
    method BeginSubmit() returns (started: bool)
      modifies this
      ensures started <==> old(files) != []
      ensures !started ==> isUploading == old(isUploading) && uploadProgress == old(uploadProgress) &&
                           timerRunning == old(timerRunning) && toasts == old(toasts) + ["No files selected"]
      ensures started ==> isUploading && uploadProgress == 0 && timerRunning && toasts == old(toasts)
      ensures files == old(files)
    {
      if |files| == 0 {
        toasts := toasts + ["No files selected"];
        return false;
      }
      isUploading := true;
      uploadProgress := 0;
      timerRunning := true;
      started := true;
    }

    /** The interval callback: the counter advances; at 95 or more it stays and the interval is cleared. */
    method Tick()
      modifies this
      ensures timerRunning ==> old(timerRunning)
      ensures old(timerRunning) ==> uploadProgress == NextProgress(old(uploadProgress)) && timerRunning == (old(uploadProgress) < 95)
      ensures !old(timerRunning) ==> uploadProgress == old(uploadProgress)
      ensures files == old(files) && isUploading == old(isUploading) && toasts == old(toasts)
    {
      if timerRunning {
        if uploadProgress >= 95 {
          timerRunning := false;
        } else {
          uploadProgress := uploadProgress + 5;
        }
      }
    }

    /** The simulated transfer ending: the interval is cleared and the counter shows 100. */
    method FinishTransfer()
      modifies this
      ensures uploadProgress == 100 && !timerRunning
      ensures files == old(files) && isUploading == old(isUploading) && toasts == old(toasts)
    {
      timerRunning := false;
      uploadProgress := 100;
    }

    /** The final timeout: the selection goes to `onUploadComplete`, then the widget resets. */
    method DeliverUpload() returns (delivered: seq<UploadFile>)
      modifies this
      ensures delivered == old(files)
      ensures files == [] && !isUploading && uploadProgress == 0 && toasts == old(toasts) + ["Upload complete"]
      ensures timerRunning == old(timerRunning)
    {
      delivered := files;
      toasts := toasts + ["Upload complete"];
      files := [];
      isUploading := false;
      uploadProgress := 0;
    }

    /** The `catch` path: the interval is cleared and uploading ends; the selection stays. */
    method AbortUpload()
      modifies this
      ensures !isUploading && !timerRunning && toasts == old(toasts) + ["Upload failed"]
      ensures files == old(files) && uploadProgress == old(uploadProgress)
    {
      timerRunning := false;
      isUploading := false;
      toasts := toasts + ["Upload failed"];
    }

    /**
     * A whole submission of a non-empty selection, with `ticks` runs of the
     * interval before the transfer ends: during the transfer the counter
     * is a multiple of 5 no higher than 95 and equals `ProgressAfter`; the
     * selection is delivered unchanged and the widget ends reset.
     */
    method SimulateUpload(ticks: nat) returns (delivered: seq<UploadFile>, shownBeforeEnd: nat)
      requires files != []
      modifies this
      ensures delivered == old(files)
      ensures shownBeforeEnd == ProgressAfter(ticks) && shownBeforeEnd % 5 == 0 && shownBeforeEnd <= 95
      ensures files == [] && !isUploading && uploadProgress == 0 && !timerRunning
      ensures toasts == old(toasts) + ["Upload complete"]
    {
      var started := BeginSubmit();
      var k := 0;
      while k < ticks
        invariant 0 <= k <= ticks
        invariant uploadProgress == ProgressAfter(k) && files == old(files) && isUploading
        invariant toasts == old(toasts)
        invariant timerRunning <==> k == 0 || ProgressAfter(k - 1) < 95
        decreases ticks - k
      {
        ProgressAfterIsCapped(k);
        Tick();
        k := k + 1;
      }
      ProgressAfterIsCapped(ticks);
      shownBeforeEnd := uploadProgress;
      FinishTransfer();
      delivered := DeliverUpload();
    }
  }
}
