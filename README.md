# myn-mentor, modelled in Dafny

myn-mentor is an AI mentor for a team's documentation. It has three parts:

- an admin panel where PDF documents are uploaded, listed, deleted and used to "train" the assistant;
- a chat where questions get answers that may carry code snippets and diagrams;
- a small Express server that stores uploaded PDFs and deletes them on request.

This project models the logic of those parts and proves what that logic promises:

- **Upload server.** How a stored file is named and what its descriptor holds. Which files the upload pipeline accepts, and in which order its limits apply. Which status each failure gets from the error middleware. How the delete handler decides over a storage tree.
- **Document registries.** The front end's simulated document store, the admin page's copy of the list, and the AI service's own list. Each is a class over a sequence, updated in place.
- **Upload widget.** The type filter and the `maxFiles` cap. Removal by position. The simulated progress counter.
- **Chat.** The transcript appends, the sidebar lists and labels, the question box and its send guard.
- **Classifiers and small views.** The AI service's keyword classifiers (language, code template, diagram template). The file-size text of the document list. The diagram viewer's zoom and its download name.

The modules follow the source files:

- `UploadServer` (server.dfy): `server.js`.
- `NodePath` (node_path.dfy): Node's posix `path.extname`, `path.parse(..).name` and `path.join`, as `server.js` uses them.
- `DocumentList` (document_list.dfy): `src/components/DocumentList.tsx`, and the `Document` record with the id-keyed list operations the registries share.
- `DocumentService` (document_service.dfy): `src/utils/documentService.ts`.
- `Admin` (admin.dfy): `src/pages/Admin.tsx`.
- `AiService` (ai_service.dfy): `src/utils/aiService.ts`.
- `ResponseDisplay` (response_display.dfy): `src/components/ResponseDisplay.tsx`.
- `Chat` (chat.dfy): `src/pages/Chat.tsx`.
- `QuestionInput` (question_input.dfy): `src/components/QuestionInput.tsx`.
- `FileUpload` (file_upload.dfy): `src/components/FileUpload.tsx`.
- `DiagramDisplay` (diagram_display.dfy): `src/components/DiagramDisplay.tsx`.
- `Text`, `Seqs`, `Wrappers` (text.dfy, seqs.dfy, wrappers.dfy): ASCII string helpers, `filter`/`find` on sequences, `Option`.

Things outside the program become parameters:

- clock readings, `Math.random` draws and `uuidv4` ids;
- the outcome of each awaited call;
- the question endpoint, as a `string -> QueryOutcome` function;
- the storage tree: its files, its directories, and where each path leads once symbolic links are followed.

Each asynchronous handler is split at its `await` or timer boundary into separate methods.

Two behaviours of the code are easy to misread, and the model follows what the code does:

- A non-PDF upload fails in the file filter (server.js:61), which passes a plain `Error`, not a `multer.MulterError`. The error middleware therefore takes its last branch and answers 500 "Internal server error" (server.js:134), not a 400 rejection.
- Deleting a name that does not exist answers 500, not 404: `realpathSync` throws first (server.js:104), so the 404 branch at server.js:113-115 cannot be reached. A second delete of the same name also answers 500. This is finding 1 below.

## Model

| member | source | states |
|---|---|---|
| `NodePath.ExtName` | server.js:44 | The extension is empty or is one '.' followed by non-dot characters, with no '/'. It is a proper suffix of the base name. |
| `NodePath.ParseName` | server.js:81 | `path.parse(p).name` followed by the extension gives back the base name. |
| `NodePath.SplitsAtExtension` | server.js:44-45 | A non-empty stem without '.' or '/', followed by an extension, has exactly that extension, and `path.parse(..).name` gives back the stem. |
| `NodePath.Join` | server.js:100 | `path.join` always yields a non-empty path. |
| `NodePath.Normalize` | server.js:100 | `path.normalize` never yields the empty path. It keeps a leading '/' and a trailing '/'. |
| `NodePath.JoinPartsCons` | server.js:100 | Joining segments puts one '/' between the first segment and the join of the rest. |
| `NodePath.SplitJoinRoundTrip` | server.js:100 | Splitting a path at '/' and joining the segments with '/' gives the path back. |
| `NodePath.ResolveAppendPlain` | server.js:100 | Segments that are not empty, `.` or `..` are kept as they are, after the resolution of what precedes them. |
| `NodePath.JoinPlainComponent` | server.js:100 | Joining a clean absolute directory, whose segments are all plain (not empty, `.` or `..`), with a plain name without '/' gives the directory, '/', then the name. |
| `NodePath.SplitAppend` | server.js:100 | Splitting `a + "/" + b` into segments gives the segments of `a` followed by those of `b`. |
| `NodePath.JoinClimb` | server.js:100 | For plain components `a` and `b` without '/', joining `/a` with `../b` gives `/b`: a `..` in the name leaves the directory. |
| `NodePath.JoinClimbsOut` | server.js:100 | Worked example: joining `/a` with `../ab` gives `/ab`, which is not below `/a` in the directory tree. |
| `Text.Trim` | src/components/QuestionInput.tsx:24-25 | The result has no leading or trailing whitespace. It is a slice of the input with only whitespace cut off either side. It is empty exactly when the input is all whitespace. |
| `Text.TrimIdempotent` | src/components/QuestionInput.tsx:24-25 | Trimming twice is trimming once. |
| `Text.NatToString` | server.js:43 | The rendering of a number is a non-empty string of digits with no leading zero. |
| `Text.NatToStringRoundTrip` | server.js:43 | Reading a rendered number back gives the number. |
| `Text.NatToStringInjective` | server.js:43 | Distinct numbers render differently. |
| `Text.ToLower` | src/utils/aiService.ts:95 | Lower-casing keeps the length and lowers each ASCII letter in place. |
| `Text.ToLowerIdempotent` | src/utils/aiService.ts:95 | Lower-casing twice is lower-casing once. |
| `Seqs.Filter` | src/utils/documentService.ts:60 | `filter` keeps exactly the elements that pass, and never lengthens. |
| `Seqs.FilterAppend` | src/utils/documentService.ts:60 | Filtering a concatenation filters each part, so what is kept stays in input order. |
| `Seqs.FilterKeepsAll` | src/utils/documentService.ts:60 | When every element passes, the sequence is returned unchanged. |
| `Seqs.FilterKeepsNone` | src/components/ResponseDisplay.tsx:33-43 | When no element passes, the result is empty. |
| `Seqs.FilterIdempotent` | src/utils/documentService.ts:60 | Filtering twice by the same predicate is filtering once. |
| `Seqs.FilterKeepsDistinct` | src/utils/documentService.ts:60 | Filtering keeps keys pairwise distinct. |
| `Seqs.DistinctKeysAppend` | src/utils/documentService.ts:50 | Two key-distinct sequences with no shared key concatenate to a key-distinct sequence. |
| `Seqs.Find` | src/utils/documentService.ts:70 | `find` yields nothing exactly when no element passes. Otherwise it yields an element that passes, with no passing element before it. |
| `UploadServer.UniqueSuffix` | server.js:43 | The time/random prefix is non-empty and contains no '.' or '/'. |
| `UploadServer.StoredName` | server.js:41-46 | The stored name keeps the original's extension. It starts with the prefix, and `path.parse(..).name` of it is exactly the prefix. |
| `UploadServer.UniqueSuffixIsStem` | server.js:43-45 | The stored name is the prefix followed by the original's extension. |
| `UploadServer.FileFilter` | server.js:56-63 | A file is accepted exactly when its MIME type is exactly `application/pdf`. The rejection is a plain `Error`, not a multer error. |
| `UploadServer.CheckFile` | server.js:50-64 | The i-th file passes every check exactly when i < 5, its field is `files`, it is a PDF and it is at most 10 MiB. |
| `UploadServer.FirstFailure` | server.js:50-64 | No failure exactly when every file from i on passes. A failure reported is that of the first failing file from i on: every file before it passes. |
| `UploadServer.Store` | server.js:33-46 | A written file keeps its original name and size. It is stored under the generated name, at `path.join(root, name)`. |
| `UploadServer.Intake` | server.js:74 | The request is stored exactly when every file passes, and then all files are stored in order. Otherwise it fails with the error of the first failing file, every earlier file passing, and nothing is stored. |
| `UploadServer.HandleUpload` | server.js:76-90 | An empty upload is 400 and a non-empty one is 200, with one descriptor per stored file. |
| `UploadServer.Descriptors` | server.js:80-87 | There is one descriptor per stored file, in order. Each copies the stored file's name, original name, path and size, its id is the stored name without its extension, and it carries the clock reading taken for its own element of the `map`. |
| `UploadServer.ErrorResponse` | server.js:123-135 | Every multer error answers 400 and any other error answers 500, always with an error body. |
| `UploadServer.UploadRequest` | server.js:74-135 | A whole `POST /upload`: 200 exactly when there is at least one file and every file passes its checks. Every other request answers 400 or 500. |
| `UploadServer.UploadDescribesEachFile` | server.js:74-90 | One to five acceptable files answer 200 with one descriptor per file, in order. Each keeps the original name and size. Its stored name is the prefix plus the original extension, its id is the stored name without that extension, and its path is the joined path. Its date is the clock reading of its own element. |
| `UploadServer.EmptyUploadRefused` | server.js:76-78 | A request without files answers 400 "No files uploaded". |
| `UploadServer.NonPdfIsServerError` | server.js:56-63 | A non-PDF among the first five files, after acceptable ones, makes the whole request answer 500 "Internal server error". |
| `UploadServer.NonPdfFailsFrom` | server.js:56-63 | The pipeline's first failure is then the filter's error. |
| `UploadServer.TooManyFilesRefused` | server.js:129-131 | Six or more files, the first five acceptable, answer 400 "Too many files. Maximum is 5 files." |
| `UploadServer.OversizeRefused` | server.js:126-128 | A PDF over 10 MiB, after acceptable files, answers 400 "File size too large. Maximum size is 10MB." |
| `UploadServer.OversizeFailsFrom` | server.js:50-55 | The pipeline's first failure is then the size-limit error. |
| `UploadServer.UnexpectedFieldRefused` | server.js:125-132 | A file under a field other than `files`, after acceptable files, answers 400 "Unexpected field", multer's own message. |
| `UploadServer.UnexpectedFieldFailsFrom` | server.js:74 | The pipeline's first failure is then the unexpected-field error. |
| `UploadServer.RealPath` | server.js:104-105 | `realpathSync` resolves exactly the paths that exist as a file or a directory, to where they lead. |
| `UploadServer.DeleteResponse` | server.js:98-120 | The handler as written answers 200 exactly when the joined path is an existing file, the root exists, and the file's resolved path starts with the resolved root. A joined path that does not exist answers 500. |
| `UploadServer.DeleteDecision` | server.js:98-120 | 403 exactly when both paths resolve and the file's resolved path does not start with the root's. 200 exactly when it does, the path exists and unlinking succeeds. 404 exactly when it does and the path does not exist. 500 otherwise. |
| `UploadServer.FilesAfterDelete` | server.js:109-112 | Deleting removes at most the joined path, and nothing else. |
| `UploadServer.ForbiddenIffOutsidePrefix` | server.js:104-107 | With the root present, 403 is answered exactly when the joined path exists and its resolved path does not start, as a string, with the resolved root. Nothing is removed then. |
| `UploadServer.DeleteRemovesExactlyThatFile` | server.js:109-112 | An existing file whose resolved path starts with the resolved root is removed, exactly it, and the answer is 200. |
| `UploadServer.SecondDeleteFails` | server.js:104-119 | Deleting the same name again does not succeed; as written it answers 500. |
| `UploadServer.MissingNameIsServerError` | server.js:104 | A name that does not exist answers 500, because `realpathSync` throws. |
| `UploadServer.NeverNotFound` | server.js:113-115 | The 404 branch is never reached. |
| `UploadServer.PrefixCheckAdmitsSibling` | server.js:105 | Worked example: with root `/a`, the name `../ab` resolves outside the root, yet it passes the check, answers 200 and is removed. |
| `UploadServer.InsideIsDescendant` | server.js:105 | A path that starts with the directory followed by '/' lies below that directory in the tree. |
| `UploadServer.DeleteResponseIntended` | server.js:98-120 | Corrected handler: 404 exactly when the joined path does not exist. 200 only for an existing file whose resolved path lies below the resolved root. |
| `UploadServer.FilesAfterIntendedDelete` | server.js:109-112 | The corrected handler removes at most the joined path. |
| `UploadServer.IntendedSecondDeleteNotFound` | server.js:113-115 | With the corrected handler, a second delete of the same name answers 404. |
| `UploadServer.IntendedAgreesInside` | server.js:104-115 | On an existing name that resolves inside the root, the corrected handler answers as the written one does. |
| `UploadServer.FileStore.Delete` | server.js:98-120 | The handler as written, step by step: the answer is `DeleteResponse` of the old tree, and the files become `FilesAfterDelete`. |
| `UploadServer.FileStore.DeleteIntended` | server.js:98-120 | The corrected handler on the same store: the answer is `DeleteResponseIntended`, and the files become `FilesAfterIntendedDelete`. |
| `DocumentList.Without` | src/pages/Admin.tsx:64 | Removing an id keeps exactly the documents with other ids. |
| `DocumentList.WithoutUnknownId` | src/utils/documentService.ts:57-63 | Removing an id no document has leaves the list unchanged. |
| `DocumentList.WithoutAppend` | src/utils/documentService.ts:60 | Removal works part by part, so what is kept keeps its order. |
| `DocumentList.WithoutKeepsUnique` | src/utils/documentService.ts:60 | Removal keeps ids unique. |
| `DocumentList.AppendKeepsUnique` | src/utils/documentService.ts:44-50 | Appending records with fresh ids keeps ids unique. |
| `DocumentList.UnitOf` | src/components/DocumentList.tsx:62-66 | Exactly one unit applies to each size: bytes below 1024, KB in [1024, 1048576), MB from 1048576 on. |
| `DocumentList.Scale` | src/components/DocumentList.tsx:64-65 | Each unit divides by a positive amount. |
| `DocumentList.UnitMonotone` | src/components/DocumentList.tsx:62-66 | A larger size never takes a smaller unit. |
| `DocumentList.Tenths` | src/components/DocumentList.tsx:64-65 | `toFixed(1)` picks the nearest tenth of size/unit, the larger one on a tie. |
| `DocumentList.Fixed1` | src/components/DocumentList.tsx:64-65 | The one-decimal rendering is digits, a point, then one digit. |
| `DocumentList.Fixed1RoundTrip` | src/components/DocumentList.tsx:64-65 | Its digits read back, without the point, give the count of tenths. |
| `DocumentList.FormatFileSize` | src/components/DocumentList.tsx:62-66 | The text ends with the unit of the size's branch. |
| `DocumentList.FormatFileSizeDenotes` | src/components/DocumentList.tsx:62-66 | Below 1024 the text is the exact integer plus " bytes". Otherwise it is a one-decimal number within half a tenth of size/unit, plus the unit. |
| `DocumentList.HandleDelete` | src/components/DocumentList.tsx:41-47 | The callback is called once with exactly the id when one was given, and never otherwise. The last effect is the toast. |
| `DocumentService.Seeded` | src/utils/documentService.ts:9-28 | The store starts with three records under the given ids, all dated before now. |
| `DocumentService.SeededUnique` | src/utils/documentService.ts:9-28 | Distinct seed ids give unique ids. |
| `DocumentService.NewRecords` | src/utils/documentService.ts:43-48 | There is one record per file, in order, with the new id, the file's name and size, and the clock reading taken for that element. |
| `DocumentService.DocumentStore.constructor` | src/utils/documentService.ts:9-28 | The store holds the seeded records. |
| `DocumentService.DocumentStore.GetDocuments` | src/utils/documentService.ts:31-37 | The copy equals the store, record for record, in order. |
| `DocumentService.DocumentStore.UploadDocuments` | src/utils/documentService.ts:40-54 | One record per file, in order, with name and size copied. The new store is the old one followed by them, old records untouched. Unique ids stay unique when the new ids are fresh. |
| `DocumentService.DocumentStore.DeleteDocument` | src/utils/documentService.ts:57-64 | Every record with the id goes and the others stay in order. An unknown id changes nothing. Unique ids stay unique. |
| `DocumentService.DocumentStore.GetDocumentDetails` | src/utils/documentService.ts:67-74 | Nothing exactly when no record has the id. Otherwise the first record with that id. |
| `Admin.UploadedText` | src/pages/Admin.tsx:49 | The toast text starts with the count and " document", and reads "documents" unless the count is 1. |
| `Admin.ProgressWidth` | src/pages/Admin.tsx:150-153 | The bar is at most 100%. It is 20% per document below five, and full exactly from five documents on. |
| `Admin.ProgressWidthMonotone` | src/pages/Admin.tsx:150-153 | The bar never shrinks as documents are added. |
| `Admin.ReadinessMessage` | src/pages/Admin.tsx:158-162 | The three hints each hold exactly on 0, on 1-2 and on 3 or more documents. |
| `Admin.ReadyIffThreeFifths` | src/pages/Admin.tsx:150-162 | "Ready to train" shows exactly when the bar is at least 60%. |
| `Admin.AdminPage.constructor` | src/pages/Admin.tsx:15-18 | The page starts empty, loading and not training. |
| `Admin.AdminPage.LoadDocuments` | src/pages/Admin.tsx:25-40 | The fetched list replaces the page's list; on failure the list stays and an error toast is shown. Loading ends on both paths. |
| `Admin.AdminPage.HandleUploadComplete` | src/pages/Admin.tsx:42-59 | On success the new records are appended after the list. On failure the list is unchanged and a toast is added. |
| `Admin.AdminPage.HandleDeleteDocument` | src/pages/Admin.tsx:61-73 | Once the store confirms, the records with that id leave the list and the rest keep their order. On failure the list is unchanged and a toast is added. |
| `Admin.TrainRefusal` | src/pages/Admin.tsx:76-83 | `handleTrainModel` refuses exactly when there are no documents, and then with the "No Documents" toast. |
| `Admin.TrainDisabled` | src/pages/Admin.tsx:169 | The train button is disabled while training runs. Otherwise it is disabled exactly when `handleTrainModel` would refuse. |
| `Admin.AdminPage.HandleTrainModel` | src/pages/Admin.tsx:75-86 | An empty list leaves `isTraining` unchanged and adds a toast. Otherwise training starts. When no training ran, training starts exactly when the button was enabled. |
| `Admin.AdminPage.FinishTraining` | src/pages/Admin.tsx:88-94 | Training ends and is announced. |
| `Admin.AdminPage.LoadFrom` | src/pages/Admin.tsx:28-29 | Loading from the store makes the page's list equal the store's. Toasts and `isTraining` are unchanged. |
| `Admin.AdminPage.UploadThrough` | src/pages/Admin.tsx:44-45 | After an upload through the store, a page that mirrored the store still mirrors it. Exactly one toast is added, and `isLoading` and `isTraining` are unchanged. |
| `Admin.AdminPage.DeleteThrough` | src/pages/Admin.tsx:63-64 | After a delete through the store, a page that mirrored the store still mirrors it. Toasts, `isLoading` and `isTraining` are unchanged. |
| `AiService.SampleContent` | src/utils/aiService.ts:18 | The content is "Sample content for " followed by the file name. |
| `AiService.SampleContentInjective` | src/utils/aiService.ts:18 | Different names give different contents. |
| `AiService.AiDocuments.constructor` | src/utils/aiService.ts:6 | The service starts with no documents. |
| `AiService.AiDocuments.AddDocument` | src/utils/aiService.ts:9-23 | Exactly one record is appended, with the new id, the name and its sample content, and the id is returned. |
| `AiService.AiDocuments.GetDocuments` | src/utils/aiService.ts:447-461 | One document per record, in order, with its id and name. The size is under 5 MiB. The date is the day count before the clock reading taken for that element, so within its last 30 days. |
| `AiService.TextResponse` | src/utils/aiService.ts:68-90 | The service's `ai_response` on status 200 when the body carries one, and the apology on every other status or failure. |
| `AiService.ProcessQuestion` | src/utils/aiService.ts:26-65 | An assistant message with exactly one text item, the reply. It adds nothing to the Code or Diagrams tabs. |
| `AiService.AnyIncluded` | src/utils/aiService.ts:95 | `some(includes)` holds exactly when the text contains one of the keywords. |
| `AiService.ShouldGenerateCode` | src/utils/aiService.ts:93-96 | True exactly when the lower-cased question contains one of the eight code keywords. |
| `AiService.ShouldGenerateDiagram` | src/utils/aiService.ts:289-292 | True exactly when the lower-cased question contains one of the seven diagram keywords. |
| `AiService.ClassifiersIgnoreCase` | src/utils/aiService.ts:95 | The classifiers answer the same for a question and its lower-cased form. |
| `AiService.DetermineLanguage` | src/utils/aiService.ts:99-113 | The answer is one of javascript, typescript, python, java, csharp. |
| `AiService.FirstMatch` | src/utils/aiService.ts:99-113 | The first rule whose keywords match decides, and the default applies when none matches. |
| `AiService.FirstMatchCons` | src/utils/aiService.ts:99-113 | One step of first-match: the head rule decides if it matches, otherwise the rest does. |
| `AiService.DetermineLanguageIsFirstMatch` | src/utils/aiService.ts:99-113 | The if/else chain is the first-match rule over its five tests, with javascript as the default. |
| `AiService.JsAlwaysWins` | src/utils/aiService.ts:100-101 | A question containing "js" gets javascript, whatever else it mentions. |
| `AiService.GenerateCodeSnippet` | src/utils/aiService.ts:116-119 | The template is the one keyed by the chosen language. |
| `AiService.FallbackNeverNeeded` | src/utils/aiService.ts:285 | Every chosen language is a key, so the javascript fallback never fires. |
| `AiService.GenerateDiagram` | src/utils/aiService.ts:295-444 | The auth diagram exactly when "authentication" or "login" appears. Otherwise the architecture diagram exactly when "architecture" or "system" appears. Otherwise the generic one. |
| `AiService.ArchitectureImpliesDiagram` | src/utils/aiService.ts:289-292 | A question that picks the architecture diagram also asks for a diagram. |
| `ResponseDisplay.Gather` | src/components/ResponseDisplay.tsx:33-43 | `flatMap(filter)` holds exactly the matching items of the messages. |
| `ResponseDisplay.GatherAppend` | src/components/ResponseDisplay.tsx:33-43 | The list for a longer transcript continues the list for its beginning, so order follows the messages. |
| `ResponseDisplay.GatherSnoc` | src/components/ResponseDisplay.tsx:33-43 | One more message adds exactly its own matching items, in order, at the end. |
| `ResponseDisplay.CodeSnippets` | src/components/ResponseDisplay.tsx:33-37 | The Code tab holds exactly the code items of the transcript. |
| `ResponseDisplay.Diagrams` | src/components/ResponseDisplay.tsx:39-43 | The Diagrams tab holds exactly the diagram and PlantUML items. |
| `ResponseDisplay.TextOnlyAddsNothing` | src/components/ResponseDisplay.tsx:33-43 | A message of text items adds nothing to either tab. |
| `ResponseDisplay.UserPreview` | src/components/ResponseDisplay.tsx:88-93 | "User message" when the first item is missing or not text. Otherwise the text itself when it has at most 30 characters, and its first 30 plus "..." when longer. |
| `ResponseDisplay.UserPreviewBounded` | src/components/ResponseDisplay.tsx:88-93 | A text preview is at most 33 characters. It is a prefix of the text or ends with "...". |
| `ResponseDisplay.ResponseCountLabel` | src/components/ResponseDisplay.tsx:100 | The count followed by " response", with a final 's' exactly when the count is not 1. |
| `ResponseDisplay.HistoryEntry` | src/components/ResponseDisplay.tsx:84-103 | A user message shows a preview of at most 33 characters, a prefix of its text or ending in "...". An assistant message shows its item count followed by " response", with a final 's' exactly when the count is not 1. |
| `ResponseDisplay.SnippetLabel` | src/components/ResponseDisplay.tsx:127 | "<language> snippet " followed by the position counted from one. |
| `ResponseDisplay.SnippetLabelsDistinct` | src/components/ResponseDisplay.tsx:127 | Two positions in the same language get different labels. |
| `ResponseDisplay.DiagramLabel` | src/components/ResponseDisplay.tsx:154 | A non-empty title is the label. Otherwise "Diagram " followed by the position counted from one. |
| `ResponseDisplay.UntitledLabelsDistinct` | src/components/ResponseDisplay.tsx:154 | Untitled diagrams at different positions get different labels. |
| `ResponseDisplay.Sidebar.constructor` | src/components/ResponseDisplay.tsx:31 | The sidebar starts open. |
| `ResponseDisplay.Sidebar.Toggle` | src/components/ResponseDisplay.tsx:45 | Toggling flips the state. |
| `ResponseDisplay.Sidebar.ToggleTwice` | src/components/ResponseDisplay.tsx:45 | Toggling twice restores the state. |
| `Chat.Welcome` | src/pages/Chat.tsx:17-29 | The welcome is an assistant message with a single text item. |
| `Chat.UserMessage` | src/pages/Chat.tsx:34-39 | The question becomes a user message with one text item holding exactly the question. |
| `Chat.UserMessagePreview` | src/pages/Chat.tsx:34-39 | The history shows the question itself, cut after 30 characters with "...". |
| `Chat.ChatPage.constructor` | src/pages/Chat.tsx:15-30 | After mounting, the transcript is the welcome alone and nothing is processing. |
| `Chat.ChatPage.BeginSend` | src/pages/Chat.tsx:41-42 | The question is appended and processing starts. |
| `Chat.ChatPage.FinishSend` | src/pages/Chat.tsx:44-56 | On success the answer is appended; on failure an error toast is shown. Processing ends on both paths. |
| `Chat.ChatPage.HandleSendQuestion` | src/pages/Chat.tsx:32-57 | The question goes in first and the answer after it, and then the transcript is exactly the old one plus those two. On failure only the question is added. Processing is off at the end. |
| `Chat.ChatPage.Ask` | src/pages/Chat.tsx:46-47 | Asking the service adds the question and a single-text assistant reply after the old transcript, which is kept as it was. The Code and Diagrams tabs are unchanged, no error toast is added, and processing is off. |
| `QuestionInput.SendDecision` | src/components/QuestionInput.tsx:23-28 | Nothing is sent exactly when the question is all whitespace or processing is on. Otherwise the trimmed, non-empty question is sent. |
| `QuestionInput.SentTextIsTrimmed` | src/components/QuestionInput.tsx:24-25 | What is sent has no surrounding whitespace, and sending it again would send the same text. |
| `QuestionInput.SendDisabled` | src/components/QuestionInput.tsx:85 | The send button is disabled exactly when sending would be refused. |
| `QuestionInput.TriggersSend` | src/components/QuestionInput.tsx:30-31 | A key press sends exactly when it is Enter without Shift. |
| `QuestionInput.VoiceMakesSendable` | src/components/QuestionInput.tsx:44 | After the voice phrase is appended, there is always something to send. |
| `QuestionInput.QuestionBox.constructor` | src/components/QuestionInput.tsx:20-21 | The box starts empty and not listening. |
| `QuestionInput.QuestionBox.HandleSend` | src/components/QuestionInput.tsx:23-28 | A sendable question is sent trimmed and the box is cleared. Otherwise nothing changes. |
| `QuestionInput.QuestionBox.HandleKeyDown` | src/components/QuestionInput.tsx:30-35 | Enter without Shift is a send. Every other key changes nothing. |
| `QuestionInput.QuestionBox.ToggleVoiceInput` | src/components/QuestionInput.tsx:37-48 | Listening flips, and the recognition is scheduled exactly when listening was off. |
| `QuestionInput.QuestionBox.CompleteVoiceRecognition` | src/components/QuestionInput.tsx:43-46 | The phrase is appended, listening ends, and the question becomes sendable. |
| `FileUpload.ValidFiles` | src/components/FileUpload.tsx:61-63 | Exactly the files with an allowed type are kept. |
| `FileUpload.Select` | src/components/FileUpload.tsx:74-88 | The old selection stays as a prefix. Within the limit all valid files are appended. Over it, only the first `maxFiles - files.length` are, and none when there are no slots. |
| `FileUpload.SelectStaysWithinLimit` | src/components/FileUpload.tsx:74-88 | From at most `maxFiles` files, the selection never exceeds `maxFiles`. |
| `FileUpload.SelectKeepsAllowed` | src/components/FileUpload.tsx:61-63 | A selection of allowed files stays one. |
| `FileUpload.DropIndex` | src/components/FileUpload.tsx:92 | Index-filtering never lengthens. |
| `FileUpload.DropIndexIsSplice` | src/components/FileUpload.tsx:92 | `filter((_, i) => i !== index)` removes exactly the element at the index, and nothing when the index is out of range. |
| `FileUpload.NextProgress` | src/components/FileUpload.tsx:110-116 | The updater adds 5 below 95 and keeps the value from 95 on. |
| `FileUpload.ProgressAfterIsCapped` | src/components/FileUpload.tsx:110-116 | From 0, k runs give min(5k, 95), always a multiple of 5 no higher than 95. |
| `FileUpload.UploadSelector.constructor` | src/components/FileUpload.tsx:16-25 | The widget starts empty, idle, at 0, with the given `maxFiles` and allowed types. |
| `FileUpload.UploadSelector.Default` | src/components/FileUpload.tsx:16-21 | Without props, the widget allows 5 files, of type `application/pdf` only, and starts empty and idle. |
| `FileUpload.UploadSelector.ProcessFiles` | src/components/FileUpload.tsx:59-89 | The selection becomes `Select` of the old one, and the selection invariant is kept. Toasts report rejected types and an overflow. |
| `FileUpload.UploadSelector.RemoveFile` | src/components/FileUpload.tsx:91-93 | Only the file at the index leaves, and an out-of-range index changes nothing. |
| `FileUpload.UploadSelector.BeginSubmit` | src/components/FileUpload.tsx:95-117 | An empty selection only adds a toast. Otherwise uploading starts at 0 with the interval running. |
| `FileUpload.UploadSelector.Tick` | src/components/FileUpload.tsx:110-116 | While the interval runs, the counter advances by `NextProgress`. The interval stops once the value has reached 95. |
| `FileUpload.UploadSelector.FinishTransfer` | src/components/FileUpload.tsx:124-125 | The interval is cleared and the counter shows 100. |
| `FileUpload.UploadSelector.DeliverUpload` | src/components/FileUpload.tsx:127-136 | The selection is handed to `onUploadComplete`, then the selection empties and progress returns to 0. |
| `FileUpload.UploadSelector.AbortUpload` | src/components/FileUpload.tsx:137-145 | The interval is cleared and uploading ends. The selection stays. |
| `FileUpload.UploadSelector.SimulateUpload` | src/components/FileUpload.tsx:95-136 | A whole submission: during the transfer the counter is `ProgressAfter(ticks)`, a multiple of 5 no higher than 95. The selection is delivered unchanged, and the widget ends reset. Exactly one toast, "Upload complete", is added. |
| `DiagramDisplay.ZoomInStep` | src/components/DiagramDisplay.tsx:22 | One tenth more below 2, and exactly 2 from 2 on. |
| `DiagramDisplay.ZoomOutStep` | src/components/DiagramDisplay.tsx:26 | One tenth less above 0.5, and exactly 0.5 from 0.5 down. |
| `DiagramDisplay.ZoomInRepeated` | src/components/DiagramDisplay.tsx:21-23 | n presses of zoom-in from z take the zoom to min(z + n tenths, 2). |
| `DiagramDisplay.ZoomOutRepeated` | src/components/DiagramDisplay.tsx:25-27 | n presses of zoom-out from z take the zoom to max(z - n tenths, 0.5). |
| `DiagramDisplay.ZoomStaysInRange` | src/components/DiagramDisplay.tsx:18-26 | No sequence of presses takes the zoom out of [0.5, 2]. |
| `DiagramDisplay.ZoomPercent` | src/components/DiagramDisplay.tsx:69 | In range, the label lies between 50% and 200%. |
| `DiagramDisplay.Hyphenate` | src/components/DiagramDisplay.tsx:39 | After `replace(/\s+/g, "-")` no whitespace is left, and the text is no longer than before. |
| `DiagramDisplay.HyphenateWord` | src/components/DiagramDisplay.tsx:39 | Text without whitespace passes through unchanged. |
| `DiagramDisplay.HyphenateRun` | src/components/DiagramDisplay.tsx:39 | A whole run of whitespace becomes exactly one '-'. |
| `DiagramDisplay.DownloadName` | src/components/DiagramDisplay.tsx:39 | "diagram.svg" without a title or with an empty one. Otherwise the title hyphenated and lower-cased, plus ".svg". Always ends in ".svg" and contains no whitespace. |
| `DiagramDisplay.DiagramView.constructor` | src/components/DiagramDisplay.tsx:18-19 | The viewer opens at 100%, not fullscreen. |
| `DiagramDisplay.DiagramView.ZoomIn` | src/components/DiagramDisplay.tsx:21-23 | The zoom takes `ZoomInStep` and stays in range. |
| `DiagramDisplay.DiagramView.ZoomOut` | src/components/DiagramDisplay.tsx:25-27 | The zoom takes `ZoomOutStep` and stays in range. |
| `DiagramDisplay.DiagramView.ToggleFullscreen` | src/components/DiagramDisplay.tsx:29-31 | Fullscreen flips and the zoom stays. |
| `DiagramDisplay.DiagramView.ToggleFullscreenTwice` | src/components/DiagramDisplay.tsx:29-31 | Toggling twice restores the state. |
| `DiagramDisplay.DiagramView.Press` | src/components/DiagramDisplay.tsx:21-27 | Pressing the buttons in order lands on `ZoomAfter`, inside the range. |

## Left out

- Network, filesystem and startup. These are Express routing, CORS, the static serving of `/uploads` with its headers, creating the storage directory and exiting at startup, and multer's multipart parsing. The storage engine's check that the directory still exists is left out too: the directory is created at startup.
- Upload pipeline: multer's limits and filter are abstracted to the order in which one file is checked (count, field, filter, size). Streaming, partial writes and the cleanup of files already written are not modelled. A failing request simply stores nothing. Multer silently skips a file part with an empty file name; the model has no such case and checks and stores every part it is given.
- Upload handler: its `catch` branch (500 "Failed to upload files") cannot be reached in the model, because mapping the stored files cannot throw here.
- Delete handler: `realpathSync` failures other than a missing path, such as permissions or symbolic-link loops, are not modelled. A path exists exactly when it is a file or a directory of the tree.
- `NodePath.Join`: only the posix form is modelled, with no Windows separators. Percent-decoding of the route parameter happens before the handler and is not modelled.
- Time, randomness and ids (`Date.now`, `new Date()`, `Math.random`, `uuidv4`) are parameters. Each element of a `map` gets its own clock reading, so the model does not assume that one request's records share a date. The seed records of `DocumentService` are the exception: the three `Date.now()` calls of documentService.ts:14, 20 and 26 are taken as one reading `now`. Generated names and ids are not proved unique, only that fresh ids keep a list's ids unique.
- Timers, promises and React state updates become sequential method calls. Stale-closure races are not modelled, for instance `files` versus `prev` in `processFiles`, or the `files` captured by the final upload timeout.
- Toasts are kept as their titles, or as a count in the chat page. Descriptions, variants and the `console` output are left out.
- `DocumentList.FormatFileSize`: `toFixed` is exact for these quotients, which are exact binary fractions, but its exponent form for values of 1e21 or more is not modelled.
- `Admin.ProgressWidth`: a whole number of percent. The floating-point rounding of `(n / 5) * 100` is not modelled.
- `DiagramDisplay` zoom: counted in whole tenths, so the drift of repeated `± 0.1` in floating point is not modelled.
- Strings are sequences of characters. JavaScript's UTF-16 lengths are not modelled, nor Unicode `toLowerCase`, nor the full Unicode `\s` class used by `trim` and `/\s+/`: only ASCII letters and ASCII whitespace are treated.
- `AiService.TextResponse`: on status 200 the source returns `response.ai_response` as it is, which is `undefined` when the parsed body has no such field, and a non-JSON body throws into the apology. The model gives the apology for a parsed body without `ai_response`, because its messages hold strings only.
- `AiService`: the bodies of the five snippet templates and the three SVG templates are named, not spelled out. The question endpoint's request format and the synchronous XHR are not modelled; only its outcome is.
- The other components, the drag-and-drop and preview dialogs, `formatDate`, the PlantUML renderer, the clipboard use and the audio service are presentation only and not part of this model.

## Findings

| source | as written | input that shows it | evidently intended | confidence | as-written member | corrected member |
|---|---|---|---|---|---|---|
| server.js:104-115 | `realpathSync(filepath)` throws on a path that does not exist, and the `catch` answers 500, so the `existsSync` / 404 branch is never reached | `DELETE /files/nothing.pdf` with no such stored file: answers 500 "Failed to delete file" | a missing file answers 404 "File not found", and a second delete of a removed name answers 404 | not executed | `UploadServer.NeverNotFound` | `UploadServer.DeleteResponseIntended` |
| server.js:105 | the containment check is a plain string prefix test on the resolved paths | root `/a` holding nothing, sibling file `/ab`, `DELETE` of the name `../ab`: the path resolves to `/ab`, passes the check and is removed with 200 (for the real root, a sibling directory such as `uploads_hackerramp2`) | only paths inside the root pass: the resolved path starts with the resolved root followed by a separator | not executed | `UploadServer.PrefixCheckAdmitsSibling` | `UploadServer.DeleteResponseIntended` |

`UploadServer.FileStore.Delete` models the handler as written. `UploadServer.FileStore.DeleteIntended` runs the corrected decision on the same store. `UploadServer.IntendedSecondDeleteNotFound` and `UploadServer.InsideIsDescendant` prove the intended properties about it.
