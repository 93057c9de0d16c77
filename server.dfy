/**
 * The upload server: how a stored file is named, which files the upload
 * pipeline lets through, the descriptors `POST /upload` answers with, the
 * decision `DELETE /files/:filename` takes over the storage directory, and
 * the status codes the error middleware maps failures to.
 */
module UploadServer {
  import opened Wrappers
  import opened Text
  import NodePath

  /** `limits.fileSize`: 10 MiB. */
  const MaxFileSize: nat := 10 * 1024 * 1024
  /** `limits.files`. */
  const MaxFiles: nat := 5
  /** The only MIME type the file filter accepts. */
  const PdfMime: string := "application/pdf"
  /** The multipart field `upload.array` reads the files from. */
  const FilesField: string := "files"

  /** A file as the multipart parser announces it, before anything is written. */
  datatype IncomingFile = IncomingFile(field: string, originalName: string, mimeType: string, size: nat)

  /** A file the storage engine has written: the fields of `req.files[i]` the handler reads. */
  datatype StoredFile = StoredFile(originalName: string, filename: string, path: string, size: nat)

  /** What `POST /upload` answers for one stored file. */
  datatype Descriptor = Descriptor(id: string, originalName: string, storedName: string, path: string, size: nat, uploadedAt: int)

  /** A failure that reaches the error middleware: a `multer.MulterError` with its code, or any other `Error`. */
  datatype ServerError = MulterError(code: string, message: string) | PlainError(message: string)

  datatype Body = Files(descriptors: seq<Descriptor>) | Message(message: string) | ErrorBody(error: string)

  datatype Response = Response(status: int, body: Body)

  /** The clock reading and the random draw the filename callback uses for one file. */
  datatype Draw = Draw(now: nat, random: nat)

  // ---------------------------------------------------------------- naming

  /** `Date.now() + '-' + Math.round(Math.random() * 1E9)`. */
  function UniqueSuffix(d: Draw): (s: string)
    ensures s != [] && '.' !in s && '/' !in s
  {
    var s := NatToString(d.now) + "-" + NatToString(d.random);
    assert forall i :: 0 <= i < |s| ==> IsDigit(s[i]) || s[i] == '-' by {
      var a, b := NatToString(d.now), NatToString(d.random);
      forall i | 0 <= i < |s| ensures IsDigit(s[i]) || s[i] == '-' {
        if i < |a| { assert s[i] == a[i]; } else if i > |a| { assert s[i] == b[i - |a| - 1]; }
      }
    }
    s
  }

  /**
   * The `filename` callback: the unique suffix followed by the extension of
   * the original name. The stored name keeps that extension, and its parsed
   * `name` is exactly the suffix.
   */
  function StoredName(d: Draw, originalName: string): (name: string)
    ensures NodePath.ExtName(name) == NodePath.ExtName(originalName)
    ensures NodePath.ParseName(name) == UniqueSuffix(d)
    ensures StartsWith(name, UniqueSuffix(d)) && EndsWith(name, NodePath.ExtName(originalName))
  {
    var stem, e := UniqueSuffix(d), NodePath.ExtName(originalName);
    NodePath.SplitsAtExtension(stem, e);
    ConcatAffixes(stem, e);
    stem + e
  }

  /** A concatenation starts with its first part and ends with its second. */
  lemma ConcatAffixes(a: string, b: string)
    ensures StartsWith(a + b, a) && EndsWith(a + b, b)
  {
    assert (a + b)[..|a|] == a;
    assert (a + b)[|a + b| - |b|..] == b;
  }

  // ------------------------------------------------------------- accepting

  datatype Verdict = Accept | Reject(error: ServerError)

  /** The `fileFilter` option: `cb(null, true)` for a PDF, `cb(new Error(...))` for anything else. */
  function FileFilter(f: IncomingFile): (v: Verdict)
    ensures v.Accept? <==> f.mimeType == PdfMime
    ensures v.Reject? ==> v.error.PlainError?
  {
    if f.mimeType == PdfMime then Accept else Reject(PlainError("Only PDF files are allowed"))
  }

  datatype IntakeResult = Stored(files: seq<StoredFile>) | Failed(error: ServerError)

  /** A file that passes every check the upload pipeline makes of a single file. */
  predicate Acceptable(f: IncomingFile) {
    f.field == FilesField && f.mimeType == PdfMime && f.size <= MaxFileSize
  }

  /**
   * The checks the upload pipeline `upload.array('files')` makes of the
   * `i`-th file of a request, in its order: a file past the fifth fails the
   * count limit, a file under another field name is unexpected, then the
   * file filter decides, then a file longer than the size limit fails.
   */
  function CheckFile(f: IncomingFile, i: nat): (e: Option<ServerError>)
    ensures e.None? <==> i < MaxFiles && Acceptable(f)
  {
    if i >= MaxFiles then Some(MulterError("LIMIT_FILE_COUNT", "Too many files"))
    else if f.field != FilesField then Some(MulterError("LIMIT_UNEXPECTED_FILE", "Unexpected field"))
    else
      match FileFilter(f)
      case Reject(e) => Some(e)
      case Accept =>
        if f.size > MaxFileSize then Some(MulterError("LIMIT_FILE_SIZE", "File too large")) else None
  }

  /**
   * The first failure the pipeline meets from the `i`-th file on, each file
   * checked in arrival order; `None` when every remaining file passes.
   */
  function FirstFailure(incoming: seq<IncomingFile>, i: nat): (e: Option<ServerError>)
    requires i <= |incoming|
    ensures e.None? <==> forall j :: i <= j < |incoming| ==> CheckFile(incoming[j], j).None?
    ensures e.Some? ==>
      exists j :: i <= j < |incoming| && CheckFile(incoming[j], j) == e &&
        forall k :: i <= k < j ==> CheckFile(incoming[k], k).None?
    decreases |incoming| - i
  {
    if i == |incoming| then None
    else
      var check := CheckFile(incoming[i], i);
      if check.Some? then check else FirstFailure(incoming, i + 1)
  }

  /** The record of a file the storage engine wrote under its generated name. */
  function Store(f: IncomingFile, d: Draw, root: string): (s: StoredFile)
    ensures s.originalName == f.originalName && s.size == f.size
    ensures s.filename == StoredName(d, f.originalName) && s.path == NodePath.Join(root, s.filename)
  {
    var name := StoredName(d, f.originalName);
    StoredFile(f.originalName, name, NodePath.Join(root, name), f.size)
  }

  /**
   * The pipeline `upload.array('files')`: the first failing file aborts the
   * request and nothing of it stays stored; otherwise every file is written
   * as `path.join(root, filename)`, in arrival order.
   */
  function Intake(incoming: seq<IncomingFile>, draws: seq<Draw>, root: string): (r: IntakeResult)
    requires |draws| == |incoming|
    ensures r.Stored? <==> forall j :: 0 <= j < |incoming| ==> CheckFile(incoming[j], j).None?
    ensures r.Stored? ==> |r.files| == |incoming| && forall j :: 0 <= j < |incoming| ==> r.files[j] == Store(incoming[j], draws[j], root)
    ensures r.Failed? ==>
      exists j :: 0 <= j < |incoming| && CheckFile(incoming[j], j) == Some(r.error) &&
        forall k :: 0 <= k < j ==> CheckFile(incoming[k], k).None?
  {
    match FirstFailure(incoming, 0)
    case Some(e) => Failed(e)
    case None => Stored(seq(|incoming|, j requires 0 <= j < |incoming| => Store(incoming[j], draws[j], root)))
  }

  // ------------------------------------------------------------ responding

  /** The `POST /upload` handler proper, on the files the pipeline stored. */
  function HandleUpload(files: seq<StoredFile>, clock: seq<int>): (r: Response)
    requires |clock| == |files|
    ensures r.status == 400 <==> files == []
    ensures r.status == 200 <==> files != []
    ensures r.status == 200 ==> r.body.Files? && |r.body.descriptors| == |files|
  {
    if |files| == 0 then Response(400, ErrorBody("No files uploaded"))
    else Response(200, Files(Descriptors(files, clock)))
  }

  /**
   * `req.files.map(...)`: one descriptor per stored file, in order; each
   * element reads the clock on its own, `clock[i]` for the i-th.
   */
  function Descriptors(files: seq<StoredFile>, clock: seq<int>): (ds: seq<Descriptor>)
    requires |clock| == |files|
    ensures |ds| == |files|
    ensures forall i :: 0 <= i < |files| ==>
      ds[i].uploadedAt == clock[i] && ds[i].storedName == files[i].filename &&
      ds[i].originalName == files[i].originalName && ds[i].path == files[i].path && ds[i].size == files[i].size
    ensures forall i :: 0 <= i < |files| ==>
      ds[i].id + NodePath.ExtName(files[i].filename) == NodePath.Base(files[i].filename)
  {
    seq(|files|, i requires 0 <= i < |files| =>
      var f := files[i];
      Descriptor(NodePath.ParseName(f.filename), f.originalName, f.filename, f.path, f.size, clock[i]))
  }

  /** The error-handling middleware: every multer error is the client's fault (400), anything else is 500. */
  function ErrorResponse(e: ServerError): (r: Response)
    ensures r.status == 400 <==> e.MulterError?
    ensures r.status == 500 <==> e.PlainError?
    ensures r.body.ErrorBody?
  {
    match e
    case MulterError(code, message) =>
      if code == "LIMIT_FILE_SIZE" then Response(400, ErrorBody("File size too large. Maximum size is 10MB."))
      else if code == "LIMIT_FILE_COUNT" then Response(400, ErrorBody("Too many files. Maximum is 5 files."))
      else Response(400, ErrorBody(message))
    case PlainError(_) => Response(500, ErrorBody("Internal server error"))
  }

  /** A whole `POST /upload` request: the pipeline, then the handler or the error middleware. */
  function UploadRequest(incoming: seq<IncomingFile>, draws: seq<Draw>, root: string, clock: seq<int>): (r: Response)
    requires |draws| == |incoming| && |clock| == |incoming|
    ensures r.status == 200 <==> incoming != [] && forall j :: 0 <= j < |incoming| ==> CheckFile(incoming[j], j).None?
    ensures r.status == 400 || r.status == 500 || r.status == 200
  {
    match Intake(incoming, draws, root)
    case Failed(e) => ErrorResponse(e)
    case Stored(files) => HandleUpload(files, clock)
  }

  /**
   * An upload of one to five acceptable files answers 200 with one
   * descriptor per file, in order: original name and size copied, the stored
   * name the unique suffix plus the original extension, the id that stored
   * name without its extension, the path the file was written to.
   */
  lemma UploadDescribesEachFile(incoming: seq<IncomingFile>, draws: seq<Draw>, root: string, clock: seq<int>)
    requires |draws| == |incoming| && |clock| == |incoming|
    requires 0 < |incoming| <= MaxFiles && forall j :: 0 <= j < |incoming| ==> Acceptable(incoming[j])
    ensures var r := UploadRequest(incoming, draws, root, clock);
      r.status == 200 && r.body.Files? && |r.body.descriptors| == |incoming| &&
      forall j :: 0 <= j < |incoming| ==>
        var d := r.body.descriptors[j];
        d.originalName == incoming[j].originalName && d.size == incoming[j].size &&
        d.id == UniqueSuffix(draws[j]) &&
        d.storedName == d.id + NodePath.ExtName(incoming[j].originalName) &&
        d.path == NodePath.Join(root, d.storedName) && d.uploadedAt == clock[j]
  {
    var intake := Intake(incoming, draws, root);
    assert intake.Stored?;
    var files := intake.files;
    var r := HandleUpload(files, clock);
    assert r == UploadRequest(incoming, draws, root, clock);
    forall j | 0 <= j < |incoming|
      ensures var d := r.body.descriptors[j];
        d.originalName == incoming[j].originalName && d.size == incoming[j].size &&
        d.id == UniqueSuffix(draws[j]) &&
        d.storedName == d.id + NodePath.ExtName(incoming[j].originalName) &&
        d.path == NodePath.Join(root, d.storedName) && d.uploadedAt == clock[j]
    {
      var f := files[j];
      assert f == Store(incoming[j], draws[j], root);
      var d := r.body.descriptors[j];
      assert d == Descriptor(NodePath.ParseName(f.filename), f.originalName, f.filename, f.path, f.size, clock[j]);
      UniqueSuffixIsStem(draws[j], incoming[j].originalName);
    }
  }

  /** The generated name is exactly its parsed name followed by the original extension. */
  lemma UniqueSuffixIsStem(d: Draw, originalName: string)
    ensures StoredName(d, originalName) == UniqueSuffix(d) + NodePath.ExtName(originalName)
  {
    NodePath.SplitsAtExtension(UniqueSuffix(d), NodePath.ExtName(originalName));
  }

  /** A request with no files is refused with 400 and describes nothing. */
  lemma EmptyUploadRefused(root: string)
    ensures UploadRequest([], [], root, []) == Response(400, ErrorBody("No files uploaded"))
  {
  }

  /**
   * A non-PDF file among the first five, after only acceptable ones, fails
   * the request with the filter's plain error, which the middleware answers
   * with 500 rather than 400.
   */
  lemma NonPdfIsServerError(incoming: seq<IncomingFile>, draws: seq<Draw>, root: string, clock: seq<int>, k: nat)
    requires |draws| == |incoming| && |clock| == |incoming| && k < |incoming| && k < MaxFiles
    requires forall j :: 0 <= j < k ==> Acceptable(incoming[j])
    requires incoming[k].field == FilesField && incoming[k].mimeType != PdfMime
    ensures UploadRequest(incoming, draws, root, clock) == Response(500, ErrorBody("Internal server error"))
  {
    NonPdfFailsFrom(incoming, k, 0);
  }

  lemma {:induction false} NonPdfFailsFrom(incoming: seq<IncomingFile>, k: nat, i: nat)
    requires i <= k < |incoming| && k < MaxFiles
    requires forall j :: i <= j < k ==> Acceptable(incoming[j])
    requires incoming[k].field == FilesField && incoming[k].mimeType != PdfMime
    ensures FirstFailure(incoming, i) == Some(PlainError("Only PDF files are allowed"))
    decreases k - i
  {
    if i < k {
      NonPdfFailsFrom(incoming, k, i + 1);
    }
  }

  /** Six or more files, the first five acceptable, are refused by the count limit with 400. */
  lemma TooManyFilesRefused(incoming: seq<IncomingFile>, draws: seq<Draw>, root: string, clock: seq<int>)
    requires |draws| == |incoming| && |clock| == |incoming| && |incoming| > MaxFiles
    requires forall j :: 0 <= j < MaxFiles ==> Acceptable(incoming[j])
    ensures UploadRequest(incoming, draws, root, clock) == Response(400, ErrorBody("Too many files. Maximum is 5 files."))
  {
    var tooMany := Some(MulterError("LIMIT_FILE_COUNT", "Too many files"));
    assert FirstFailure(incoming, MaxFiles) == tooMany;
    assert FirstFailure(incoming, 4) == tooMany;
    assert FirstFailure(incoming, 3) == tooMany;
    assert FirstFailure(incoming, 2) == tooMany;
    assert FirstFailure(incoming, 1) == tooMany;
  }

  /** A PDF over the size limit, after only acceptable files, is refused with 400. */
  lemma OversizeRefused(incoming: seq<IncomingFile>, draws: seq<Draw>, root: string, clock: seq<int>, k: nat)
    requires |draws| == |incoming| && |clock| == |incoming| && k < |incoming| && k < MaxFiles
    requires forall j :: 0 <= j < k ==> Acceptable(incoming[j])
    requires incoming[k].field == FilesField && incoming[k].mimeType == PdfMime && incoming[k].size > MaxFileSize
    ensures UploadRequest(incoming, draws, root, clock) == Response(400, ErrorBody("File size too large. Maximum size is 10MB."))
  {
    OversizeFailsFrom(incoming, k, 0);
  }

  lemma {:induction false} OversizeFailsFrom(incoming: seq<IncomingFile>, k: nat, i: nat)
    requires i <= k < |incoming| && k < MaxFiles
    requires forall j :: i <= j < k ==> Acceptable(incoming[j])
    requires incoming[k].field == FilesField && incoming[k].mimeType == PdfMime && incoming[k].size > MaxFileSize
    ensures FirstFailure(incoming, i) == Some(MulterError("LIMIT_FILE_SIZE", "File too large"))
    decreases k - i
  {
    if i < k {
      OversizeFailsFrom(incoming, k, i + 1);
    }
  }
  /** A file sent under another field name, after only acceptable files, is refused with 400 "Unexpected field". */
  lemma UnexpectedFieldRefused(incoming: seq<IncomingFile>, draws: seq<Draw>, root: string, clock: seq<int>, k: nat)
    requires |draws| == |incoming| && |clock| == |incoming| && k < |incoming| && k < MaxFiles
    requires forall j :: 0 <= j < k ==> Acceptable(incoming[j])
    requires incoming[k].field != FilesField
    ensures UploadRequest(incoming, draws, root, clock) == Response(400, ErrorBody("Unexpected field"))
  {
    UnexpectedFieldFailsFrom(incoming, k, 0);
  }

  lemma {:induction false} UnexpectedFieldFailsFrom(incoming: seq<IncomingFile>, k: nat, i: nat)
    requires i <= k < |incoming| && k < MaxFiles
    requires forall j :: i <= j < k ==> Acceptable(incoming[j])
    requires incoming[k].field != FilesField
    ensures FirstFailure(incoming, i) == Some(MulterError("LIMIT_UNEXPECTED_FILE", "Unexpected field"))
    decreases k - i
  {
    if i < k {
      UnexpectedFieldFailsFrom(incoming, k, i + 1);
    }
  }


  // -------------------------------------------------------------- deleting

  /**
   * The branches of the `DELETE /files/:filename` handler, given what
   * `realpathSync(filepath)` and `realpathSync(uploadsDir)` returned (`None`
   * where they throw), whether `existsSync(filepath)` held (`present`) and whether
   * `unlinkSync(filepath)` succeeds.
   */
  function DeleteDecision(resolved: Option<string>, rootResolved: Option<string>, present: bool, removable: bool): (r: Response)
    ensures r.status == 403 <==> resolved.Some? && rootResolved.Some? && !StartsWith(resolved.value, rootResolved.value)
    ensures r.status == 200 <==> resolved.Some? && rootResolved.Some? && StartsWith(resolved.value, rootResolved.value) && present && removable
    ensures r.status == 404 <==> resolved.Some? && rootResolved.Some? && StartsWith(resolved.value, rootResolved.value) && !present
    ensures r.status == 500 <==> resolved.None? || rootResolved.None? || (StartsWith(resolved.value, rootResolved.value) && present && !removable)
  {
    if resolved.None? || rootResolved.None? then Response(500, ErrorBody("Failed to delete file"))
    else if !StartsWith(resolved.value, rootResolved.value) then Response(403, ErrorBody("Invalid file path"))
    else if present then
      if removable then Response(200, Message("File deleted successfully"))
      else Response(500, ErrorBody("Failed to delete file"))
    else Response(404, ErrorBody("File not found"))
  }

  /** `fs.realpathSync(p)` over a storage tree: it throws (`None`) unless `p` exists. */
  function RealPath(canon: string -> string, files: set<string>, dirs: set<string>, p: string): (r: Option<string>)
    ensures r.Some? <==> p in files || p in dirs
    ensures r.Some? ==> r.value == canon(p)
  {
    if p in files || p in dirs then Some(canon(p)) else None
  }

  /**
   * The handler over a storage tree whose regular files are `files`, whose
   * directories are `dirs`, and where `canon` says where a path leads once
   * symbolic links are followed; unlinking a directory throws.
   */
  function DeleteResponse(root: string, canon: string -> string, files: set<string>, dirs: set<string>, filename: string): (r: Response)
    ensures var p := NodePath.Join(root, filename);
      r.status == 200 <==> p in files && (root in files || root in dirs) && StartsWith(canon(p), canon(root))
    ensures var p := NodePath.Join(root, filename);
      p !in files && p !in dirs ==> r.status == 500
  {
    var filepath := NodePath.Join(root, filename);
    DeleteDecision(RealPath(canon, files, dirs, filepath), RealPath(canon, files, dirs, root),
                   filepath in files || filepath in dirs, filepath in files)
  }

  /** The files left after the handler ran: it removes `path.join(root, filename)` exactly when it answers 200. */
  function FilesAfterDelete(root: string, canon: string -> string, files: set<string>, dirs: set<string>, filename: string): (after: set<string>)
    ensures after <= files
    ensures files - after <= {NodePath.Join(root, filename)}
  {
    if DeleteResponse(root, canon, files, dirs, filename).status == 200 then files - {NodePath.Join(root, filename)} else files
  }

  /** A 403 is answered exactly when the resolved path does not start, as a string, with the resolved root; nothing is removed then. */
  lemma ForbiddenIffOutsidePrefix(root: string, canon: string -> string, files: set<string>, dirs: set<string>, filename: string)
    requires root in dirs
    ensures var p := NodePath.Join(root, filename);
      (DeleteResponse(root, canon, files, dirs, filename).status == 403 <==>
        (p in files || p in dirs) && !StartsWith(canon(p), canon(root)))
    ensures DeleteResponse(root, canon, files, dirs, filename).status == 403 ==>
      FilesAfterDelete(root, canon, files, dirs, filename) == files
  {
  }

  /** Deleting an existing file whose resolved path starts with the resolved root removes exactly that file and answers 200. */
  lemma DeleteRemovesExactlyThatFile(root: string, canon: string -> string, files: set<string>, dirs: set<string>, filename: string)
    requires root in dirs
    requires NodePath.Join(root, filename) in files
    requires StartsWith(canon(NodePath.Join(root, filename)), canon(root))
    ensures DeleteResponse(root, canon, files, dirs, filename).status == 200
    ensures FilesAfterDelete(root, canon, files, dirs, filename) == files - {NodePath.Join(root, filename)}
  {
  }

  /**
   * Once a name has been deleted, deleting it again does not succeed; as
   * written it answers 500, because the path no longer resolves.
   */
  lemma SecondDeleteFails(root: string, canon: string -> string, files: set<string>, dirs: set<string>, filename: string)
    requires DeleteResponse(root, canon, files, dirs, filename).status == 200
    ensures DeleteResponse(root, canon, FilesAfterDelete(root, canon, files, dirs, filename), dirs, filename).status != 200
    ensures NodePath.Join(root, filename) !in dirs ==>
      DeleteResponse(root, canon, FilesAfterDelete(root, canon, files, dirs, filename), dirs, filename).status == 500
  {
  }

  /**
   * As written, a name that does not exist makes `realpathSync` throw, so
   * the answer is 500; the 404 branch is never reached.
   */
  lemma MissingNameIsServerError(root: string, canon: string -> string, files: set<string>, dirs: set<string>, filename: string)
    requires NodePath.Join(root, filename) !in files && NodePath.Join(root, filename) !in dirs
    ensures DeleteResponse(root, canon, files, dirs, filename).status == 500
  {
  }

  lemma NeverNotFound(root: string, canon: string -> string, files: set<string>, dirs: set<string>, filename: string)
    ensures DeleteResponse(root, canon, files, dirs, filename).status != 404
  {
  }

  /**
   * As written, the containment check is a plain string prefix test, so a
   * path next to the root whose name extends the root's passes it: with the
   * root at `/a`, the name `../ab` resolves to `/ab`, which lies outside the
   * root, yet it is deleted with 200.
   */
  lemma PrefixCheckAdmitsSibling()
    ensures var canon := (p: string) => p;
      NodePath.Join("/a", "../ab") == "/ab" &&
      !NodePath.Descendant("/ab", "/a") &&
      DeleteResponse("/a", canon, {"/ab"}, {"/a"}, "../ab").status == 200 &&
      FilesAfterDelete("/a", canon, {"/ab"}, {"/a"}, "../ab") == {}
  {
    NodePath.JoinClimbsOut();
    assert StartsWith("/ab", "/a");
  }

  // --------------------------------------------------- the intended delete

  /** The containment the check evidently means: the resolved path lies strictly inside the resolved root. */
  predicate Inside(p: string, dir: string) {
    StartsWith(p, dir + "/")
  }

  /** What passes the corrected check lies below the root in the directory tree. */
  lemma InsideIsDescendant(p: string, dir: string)
    requires Inside(p, dir)
    ensures NodePath.Descendant(p, dir)
  {
    var rest := p[|dir| + 1..];
    assert p == dir + "/" + rest;
    NodePath.SplitAppend(dir, rest);
    assert NodePath.Split(p) == NodePath.Split(dir) + NodePath.Split(rest);
    assert NodePath.Split(p)[..|NodePath.Split(dir)|] == NodePath.Split(dir);
  }

  /**
   * The delete handler as evidently intended: a missing file is 404, the
   * resolved path must lie inside the resolved root (403 otherwise), an I/O
   * failure is 500.
   */
  function DeleteResponseIntended(root: string, canon: string -> string, files: set<string>, dirs: set<string>, filename: string): (r: Response)
    ensures var p := NodePath.Join(root, filename);
      (r.status == 404 <==> p !in files && p !in dirs) &&
      (r.status == 200 ==> p in files && root in dirs && NodePath.Descendant(canon(p), canon(root)))
  {
    var filepath := NodePath.Join(root, filename);
    if filepath !in files && filepath !in dirs then Response(404, ErrorBody("File not found"))
    else if root !in dirs then Response(500, ErrorBody("Failed to delete file"))
    else if !Inside(canon(filepath), canon(root)) then Response(403, ErrorBody("Invalid file path"))
    else if filepath in files then
      InsideIsDescendant(canon(filepath), canon(root));
      Response(200, Message("File deleted successfully"))
    else Response(500, ErrorBody("Failed to delete file"))
  }

  /** The files left after the intended handler ran: it removes the joined path exactly when it answers 200. */
  function FilesAfterIntendedDelete(root: string, canon: string -> string, files: set<string>, dirs: set<string>, filename: string): (after: set<string>)
    ensures after <= files
    ensures files - after <= {NodePath.Join(root, filename)}
  {
    if DeleteResponseIntended(root, canon, files, dirs, filename).status == 200 then files - {NodePath.Join(root, filename)} else files
  }

  /** With the intended handler, a second delete of the same name answers 404. */
  lemma IntendedSecondDeleteNotFound(root: string, canon: string -> string, files: set<string>, dirs: set<string>, filename: string)
    requires DeleteResponseIntended(root, canon, files, dirs, filename).status == 200
    requires NodePath.Join(root, filename) !in dirs
    ensures DeleteResponseIntended(root, canon, FilesAfterIntendedDelete(root, canon, files, dirs, filename), dirs, filename).status == 404
  {
  }

  /** On an existing name that resolves inside the root, the intended handler answers as the written one does. */
  lemma IntendedAgreesInside(root: string, canon: string -> string, files: set<string>, dirs: set<string>, filename: string)
    requires root in dirs
    requires var p := NodePath.Join(root, filename); (p in files || p in dirs) && Inside(canon(p), canon(root))
    ensures DeleteResponseIntended(root, canon, files, dirs, filename) == DeleteResponse(root, canon, files, dirs, filename)
  {
    var p := NodePath.Join(root, filename);
    assert StartsWith(canon(p), canon(root)) by {
      assert canon(p)[..|canon(root)|] == (canon(p)[..|canon(root)| + 1])[..|canon(root)|];
    }
  }

  /**
   * The storage directory as the delete handler sees it. `files` changes
   * as files are removed; where a path leads after symbolic links and which
   * paths are directories stay fixed.
   */
  class FileStore {
    const root: string
    const canon: string -> string
    const dirs: set<string>
    var files: set<string>

    constructor (root: string, canon: string -> string, dirs: set<string>, files: set<string>)
      ensures this.root == root && this.canon == canon && this.dirs == dirs && this.files == files
    {
      this.root := root;
      this.canon := canon;
      this.dirs := dirs;
      this.files := files;
    }

    /** `existsSync(p)`. */
    predicate Exists(p: string)
      reads this
    {
      p in files || p in dirs
    }

    /** `DELETE /files/:filename`. */
    method Delete(filename: string) returns (r: Response)
      modifies this
      ensures r == DeleteResponse(root, canon, old(files), dirs, filename)
      ensures files == FilesAfterDelete(root, canon, old(files), dirs, filename)
    {
      var filepath := NodePath.Join(root, filename);
      if !Exists(filepath) {
        // realpathSync(filepath) throws
        return Response(500, ErrorBody("Failed to delete file"));
      }
      var realPath := canon(filepath);
      if !Exists(root) {
        return Response(500, ErrorBody("Failed to delete file"));
      }
      if !StartsWith(realPath, canon(root)) {
        return Response(403, ErrorBody("Invalid file path"));
      }
      if Exists(filepath) {
        if filepath in files {
          files := files - {filepath};
          r := Response(200, Message("File deleted successfully"));
        } else {
          // unlinkSync of a directory throws
          r := Response(500, ErrorBody("Failed to delete file"));
        }
      } else {
        r := Response(404, ErrorBody("File not found"));
      }
    }

    /** The delete handler with the missing-file answer and the containment check as evidently intended. */
    method DeleteIntended(filename: string) returns (r: Response)
      modifies this
      ensures r == DeleteResponseIntended(root, canon, old(files), dirs, filename)
      ensures files == FilesAfterIntendedDelete(root, canon, old(files), dirs, filename)
    {
      var filepath := NodePath.Join(root, filename);
      if !Exists(filepath) {
        return Response(404, ErrorBody("File not found"));
      }
      if root !in dirs {
        return Response(500, ErrorBody("Failed to delete file"));
      }
      if !Inside(canon(filepath), canon(root)) {
        return Response(403, ErrorBody("Invalid file path"));
      }
      if filepath in files {
        files := files - {filepath};
        r := Response(200, Message("File deleted successfully"));
      } else {
        r := Response(500, ErrorBody("Failed to delete file"));
      }
    }
  }
}
