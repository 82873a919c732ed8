# documentoIA in Dafny

documentoIA is a browser "chat with your documents" application with two sides.

- An administrator uploads documents. Each document's text is extracted, cut into word-aligned chunks of about 1000 characters, and each chunk is embedded and stored in a local database.
- A client asks questions. Each question is embedded, the stored chunks are ranked by similarity, and the best five become the context for a generated answer that cites its source documents.

A second, simpler flow chats about one uploaded file: the file is sent inline to a chat session, and the user questions that session.

This project models the logic of both flows in Dafny:

- the users, files and chunks tables;
- ingestion: extraction, chunking, sequential embedding, and the `processed` flag;
- deletion;
- similarity ranking;
- answer assembly;
- spreadsheet text extraction;
- the upload validator;
- login, registration and routing;
- the two chat logs;
- the single-file chat session.

The remote model calls are function-valued parameters that may fail:

- text extraction: `Gemini.Extractor`;
- embedding: `Gemini.EmbedService`;
- generation: `Gemini.Generator`;
- the chat session: `GeminiService.ChatService`.

So are the browser's file reads (`Result` values), the spreadsheet parser's outcome (`Excel.WorkbookRead`), the `confirm` dialog (a `bool`), and the clock (integer parameters).

The similarity score is an abstract function `Db.Similarity`. The cosine formula's division and square roots are not modelled; only its accumulator loop is.

Modules, one per source file:

- `Types`: types.ts.
- `Db`: services/db.ts.
- `Gemini`: services/gemini.ts.
- `Excel`: services/excel.ts.
- `Chunking` and `AdminPanel`: components/AdminPanel.tsx.
- `UploadScreen`: components/UploadScreen.tsx.
- `App`: App.tsx.
- `ClientChat`: components/ClientChat.tsx.
- `ChatScreen`: components/ChatScreen.tsx.
- `GeminiService`: services/geminiService.ts.

Shared helpers:

- `Outcomes`: Option and Result.
- `Strings`: JavaScript whitespace, `trim`, `split(/\s+/)`, `join`, `includes`, `endsWith`, `split(sep)[1]`.
- `Seqs`: `filter`, `[...new Set(..)]`.

Tables are sequences in primary-key order with auto-incremented keys that are never reused. `toArray()` and `anyOf(..).toArray()` return rows in that order.

Three consequences of the code worth knowing:

- **The 5000-character fallback chunk can never be taken.** A non-empty text always packs into at least one chunk, and a single word longer than the budget becomes a chunk of its own (`Chunking.FallbackNeverTaken`).
- **Only a chunk of two or more words is bounded by the budget.** Such a chunk is shorter than 1000 UTF-16 code units (JavaScript's `length`); a one-word chunk can be any length (`Chunking.ChunkSizeBound`).
- **`processed` is set after every non-blank chunk has an embedding.** Blank chunks are skipped, and a blank text is marked processed without any chunk (`AdminPanel.ProcessedIffEveryChunkEmbedded`, `AdminPanel.BlankTextProcessedWithoutChunks`).

## Model

| member | source | states |
|---|---|---|
| Db.Database.constructor | services/db.ts:4-20 | the three tables start empty, with every key counter at 1 |
| Db.Database.AddUser | services/db.ts:29-35 | `users.add` stores the row under the next key, returns that key, and keeps the table in key order |
| Db.Database.AddFile | components/AdminPanel.tsx:26-32 | `files.add` stores the row under the next key and returns it |
| Db.Database.AddChunk | components/AdminPanel.tsx:88-92 | `chunks.add` stores the row under the next key and returns it |
| Db.Database.ChangeFile | components/AdminPanel.tsx:46 | `files.update` changes the row with that key and no other |
| Db.UpdateFile | components/AdminPanel.tsx:96 | same length; the row with the key gets the change, every other row is kept |
| Db.Database.DeleteFile | components/AdminPanel.tsx:113 | the files table loses exactly the rows with that key |
| Db.Database.DeleteChunksOf | components/AdminPanel.tsx:114 | the chunks table loses exactly the chunks of that document |
| Db.FirstWithEmail | services/db.ts:27 | `where('email').equals(e).first()`: none when no user has the email; otherwise a stored user with that email, before which no user has it |
| Db.FirstWithEmailUnique | services/db.ts:27 | with unique emails, `first()` finds the one user holding the email |
| Db.UserWithId | App.tsx:45 | `users.get(id)`: none exactly when no row has the key; otherwise a stored row with that key |
| Db.Database.SeedAdmin | services/db.ts:26-38 | adds the demo admin only if no user has admin@test.com, under the next key with the counter moved on by one; otherwise the table and counter are unchanged; afterwards an admin exists; a second call adds nothing; unique emails are kept |
| Db.Database.FindSimilarChunks | services/db.ts:42-54 | the result is a top-k ranking: k = `slice(0, limit)` of the table size (default 4); best first; each result is a stored chunk with its score; every chunk left out scores no higher than the last result; the chunks are distinct |
| Db.SliceEnd | services/db.ts:53 | `slice(0, end)` keeps `min(end, n)` for `end >= 0` and counts from the end for negative `end` |
| Db.ScoreAll | services/db.ts:45-48 | every stored chunk, in table order, paired with its similarity to the query |
| Db.SortByScore | services/db.ts:51 | the in-place sort leaves scores non-increasing and is a permutation |
| Db.InsertLast | services/db.ts:51 | one insertion step extends the sorted prefix by one and keeps the multiset |
| Db.RankingOfSortedPermutation | services/db.ts:51-53 | any sorted rearrangement of the scored rows, cut at k, is a top-k ranking |
| Db.LeftOutScoresLower | services/db.ts:51-53 | a chunk not returned scores at most the last returned score |
| Db.PrefixDistinctChunks | services/db.ts:45-53 | the returned chunks are pairwise distinct |
| Db.CosineSimilarityParts | services/db.ts:56-64 | the loop computes dot product and both squared norms over the indices of `vecA`; it has no defined result when `vecB` is shorter |
| Db.DotSymmetric | services/db.ts:61 | for vectors of one length the dot product is symmetric |
| Db.DotPrefix | services/db.ts:60-61 | entries of `vecB` past the length of `vecA` do not matter |
| Db.NormNonNegative | services/db.ts:62-63 | the squared norms are non-negative |
| Chunking.ChunkText | components/AdminPanel.tsx:50-76 | the packing loop produces exactly the chunks of the specification function `TextChunks` |
| Chunking.ChunksRejoin | components/AdminPanel.tsx:55-71 | the chunks joined with single spaces are the words joined with single spaces, and there is at least one chunk |
| Chunking.TextChunksKeepCharacters | components/AdminPanel.tsx:54-71 | chunking keeps every non-whitespace character of the text, in order |
| Chunking.ChunkSizeBound | components/AdminPanel.tsx:51-66 | every chunk of two or more words is shorter than 1000 UTF-16 code units, the unit of JavaScript's `length` |
| Chunking.ChunksAreMaximal | components/AdminPanel.tsx:60-64 | every chunk but the last was closed because the next word, measured in UTF-16 code units with its space, would have pushed it past 1000 |
| Chunking.GroupsFromPartition | components/AdminPanel.tsx:59-70 | the word groups are non-empty and, glued together, are the words in order |
| Chunking.GroupsFromWithinBudget | components/AdminPanel.tsx:60-66 | a group of two or more words costs at most the budget |
| Chunking.GroupsFromMaximal | components/AdminPanel.tsx:60-64 | a group is closed only when the next word overflows it |
| Chunking.FallbackNeverTaken | components/AdminPanel.tsx:73-76 | a non-empty text always yields packed chunks, so the 5000-character fallback is dead |
| Chunking.BlankTextBlankChunks | components/AdminPanel.tsx:54-81 | the text is blank exactly when every chunk is blank |
| Chunking.CostOfJoin | components/AdminPanel.tsx:61-66 | a chunk's `length`, counted in UTF-16 code units, is its `currentLength` minus one |
| Excel.ExtractTextFromExcel | services/excel.ts:3-33 | the per-sheet loop gives the text of `ExcelText`: the reader's error, the fixed parse error, or the sheets' text |
| Excel.SheetInPlace | services/excel.ts:14-19 | every non-blank sheet contributes exactly `--- Hoja: <name> ---\n<csv>\n\n`, after the earlier sheets and before the later ones |
| Excel.SheetsTextEmpty | services/excel.ts:12-23 | the text is empty exactly when every sheet's CSV is blank, and it is never blank without being empty |
| Excel.SheetsTextAppend | services/excel.ts:14-21 | the text of two runs of sheets is the first run's text followed by the second's |
| Gemini.TextOr | services/gemini.ts:100 | `text \|\| fallback`: a missing or empty text is replaced by the fallback |
| Gemini.FileToBase64 | services/gemini.ts:109-121 | a read error propagates; otherwise the payload is missing exactly when the data URL has no comma |
| Gemini.FileToBase64OfDataUrl | services/gemini.ts:116 | for `header,payload` with no other comma, the payload is returned |
| Gemini.ProcessFileWithGemini | services/gemini.ts:9-35 | an extraction error becomes "Failed to extract text from file."; otherwise the reply text, or "" when it is missing or empty |
| Gemini.EmbeddingOf | services/gemini.ts:42-53 | the first embedding's values are returned exactly when `embeddings` is present and non-empty and its first entry has values; a thrown error propagates |
| Gemini.ChatWithKnowledgeBase | services/gemini.ts:57-107 | an embedding error propagates with no generation call; otherwise a distinct top-5 retrieval feeds the answer; an empty table answers without generation |
| Gemini.NoChunksNoGeneration | services/gemini.ts:63-65 | with nothing retrieved, the canned reply, no sources and no generation call |
| Gemini.GenerationRequestShape | services/gemini.ts:68-97 | with chunks retrieved there is exactly one call, to the chat model; its instruction ends in the chunk texts joined by the separator; its contents are the history followed by one user turn holding the query |
| Gemini.ContextLayout | services/gemini.ts:68 | the context starts with the best chunk's text, and its length is the texts' total plus one separator between each two |
| Gemini.SourceIdsProperties | services/gemini.ts:71 | the cited document ids are distinct; at most the number retrieved, so at most 5; exactly the retrieved chunks' documents; in order of first occurrence |
| Gemini.SourceNamesProperties | services/gemini.ts:72-73 | the cited names are exactly the names of stored documents behind retrieved chunks, no more of them than the ids |
| Gemini.GenerationErrorFailsClosed | services/gemini.ts:103-106 | a generation error gives the apology with no sources |
| Gemini.GenerationSuccess | services/gemini.ts:99-102 | a returned generation answers with its text (or the fixed fallback for an empty one) and cites the source names |
| Seqs.DedupElements | services/gemini.ts:71 | `[...new Set(s)]` holds exactly the elements of `s`, none twice, no more than `s` has |
| Seqs.DedupFirstOccurrenceOrder | services/gemini.ts:71 | `[...new Set(s)]` keeps the order of first occurrence |
| Seqs.Filter | components/AdminPanel.tsx:81 | what `filter` keeps is drawn from the input and passes the test, every passing element is kept, and the result is never longer than the input |
| Seqs.FilterAppend | components/AdminPanel.tsx:81 | `filter` keeps the input's order: filtering two runs one after the other gives the first run's survivors followed by the second's |
| AdminPanel.AdminPanel.HandleFileUpload | components/AdminPanel.tsx:14-109 | without a picked file nothing changes; an unreadable file stores nothing; otherwise the tables grow by the metadata record and the chunk records of `Ingest`, the file key counter by one and the chunk key counter by the number of records (an unreadable file leaves both counters), the status is success exactly when ingestion completed, and `isUploading` ends false |
| AdminPanel.AdminPanel.Upload | components/AdminPanel.tsx:21-103 | the `try` block: the metadata is stored, the extracted text attached, the chunks embedded in order, and `processed` set only at the end; the result is `Ingest`, with no rollback on failure; the file key counter moves on by one and the chunk key counter by the records added, and neither moves when the file could not be read |
| AdminPanel.AdminPanel.ExtractText | components/AdminPanel.tsx:37-44 | spreadsheets (by extension or MIME type) go to the local extractor, everything else to the extraction model |
| AdminPanel.AdminPanel.EmbedChunks | components/AdminPanel.tsx:78-94 | the non-blank chunks before the first embedding failure each get one chunk record of this document, in order, with consecutive keys, and the chunk key counter moves on by their number; success exactly when none failed |
| AdminPanel.EmbeddedCount | components/AdminPanel.tsx:80-94 | the number of chunks embedded is the position of the first embedding failure, or all of them |
| AdminPanel.ChunkRecords | components/AdminPanel.tsx:88-92 | one record per embedded chunk |
| AdminPanel.ExtractionFailureLeavesMetadata | components/AdminPanel.tsx:26-103 | a failed extraction leaves the bare unprocessed metadata record and no chunks |
| AdminPanel.ProcessedIffEveryChunkEmbedded | components/AdminPanel.tsx:46-96 | the record keeps the text; it is processed exactly when every non-blank chunk got a record; the records carry the chunks' texts, the document id and consecutive keys |
| AdminPanel.BlankTextProcessedWithoutChunks | components/AdminPanel.tsx:54-96 | a blank text stores no chunk and is still marked processed |
| AdminPanel.VisibleTextGetsChunks | components/AdminPanel.tsx:54-94 | a completed upload of a text with a visible character stores at least one chunk |
| AdminPanel.EmbeddableStep | components/AdminPanel.tsx:80-81 | the chunks sent for embedding grow by a chunk exactly when it is not blank |
| AdminPanel.FirstFailure | components/AdminPanel.tsx:87 | the embedded count is the index of the first failing chunk |
| AdminPanel.AdminPanel.DeleteFile | components/AdminPanel.tsx:111-116 | unconfirmed, nothing changes; confirmed, the file and exactly its chunks are removed and the other rows are kept |
| UploadScreen.Rejection | components/UploadScreen.tsx:21-31 | accepted exactly when the size is at most 10 MiB and the type is one of the six allowed; size is checked first |
| UploadScreen.UploadScreen.HandleFile | components/UploadScreen.tsx:17-47 | a rejected file reports its error and is not handed on; an unreadable one reports "Failed to read file."; otherwise it is handed on with name, type and size unchanged and the read data; `isProcessing` ends false once validation passes |
| UploadScreen.SizeLimitIsInclusive | components/UploadScreen.tsx:21-22 | exactly 10 MiB passes the size check and one byte more fails it |
| App.DashboardFor | App.tsx:55-60 | admins go to the admin dashboard, everyone else to the client dashboard |
| App.View | App.tsx:107-237 | a dashboard is shown exactly when route and role agree; the role choice only while nobody is signed in; the register form on its route; the login form otherwise |
| App.App.constructor | App.tsx:23-36 | the shell starts at the role choice with nobody signed in and empty forms; over a valid table with unique emails it is valid |
| App.App.HandleLoginSuccess | App.tsx:55-60 | signs the user in, remembers the session key, and routes by role |
| App.App.Init | App.tsx:39-53 | seeds the admin exactly as `seedAdmin` does (the table is unchanged when the admin email is taken, and otherwise gains exactly the admin record under the next key and the key counter moves on by one), keeps the session key, then resumes the remembered session when its user still exists |
| App.App.Login | App.tsx:62-72 | succeeds exactly when a stored user has the typed email and password, signing that user in, storing its key as the session and routing by role; otherwise the fixed error, and the user, route and session key are kept |
| App.LoginDecidedByFirstMatch | App.tsx:66-67 | with unique emails, checking the first user with the email decides whether the credentials match |
| App.App.Register | App.tsx:74-94 | a taken email gives the error and changes neither the table, the key counter, the user, the route nor the session key; otherwise exactly one client is added under the next key, signed in with that key as the session, and routed to the client dashboard; emails stay unique |
| App.NewestFoundById | App.tsx:92 | the user just stored is the one `get` finds under its key |
| App.App.Logout | App.tsx:96-103 | clears the session, user, user type, email and password, and returns to the role choice |
| App.App.ChooseRole | App.tsx:129-146 | remembers the chosen role and opens the login form |
| ClientChat.ClientChat.constructor | components/ClientChat.tsx:13-21 | the log is the single model greeting |
| ClientChat.ClientChat.HandleSend | components/ClientChat.tsx:27-70 | blank input or a pending answer changes nothing; otherwise the input is cleared and the log grows by the question and one model message; that message carries the answer and its sources, or the error text with none; the answer comes from a top-5 retrieval with the history of the messages before the question |
| ClientChat.History | components/ClientChat.tsx:43-46 | the last `min(5, n)` messages, in order, each as a turn of its role holding its content |
| ClientChat.Response | components/ClientChat.tsx:50-66 | the model's message carries the answer and `relevantDocs` equal to its sources, or the error text and no `relevantDocs` |
| ClientChat.HistoryPrecedesQuestion | components/ClientChat.tsx:37-43 | the history never holds the new question: it ends before it |
| ClientChat.HistorySlides | components/ClientChat.tsx:43 | with a full window, a new message drops the oldest turn and comes in last |
| ClientChat.ExchangeAlternates | components/ClientChat.tsx:37-66 | each exchange keeps the log alternating: greeting, then question and model message in turn |
| ChatScreen.ChatScreen.constructor | components/ChatScreen.tsx:14-23 | the log is the single bot welcome; input empty, not typing |
| ChatScreen.ChatScreen.HandleSendMessage | components/ChatScreen.tsx:34-69 | blank input or a pending answer changes nothing; otherwise the input is cleared and the log grows by the user's message with exactly the input and the bot's message for the chat's reply; `isTyping` ends false |
| ChatScreen.Response | components/ChatScreen.tsx:50-65 | the bot message is flagged as an error exactly when the chat failed, with the fixed error text, and otherwise carries the reply |
| ChatScreen.ExchangeAlternates | components/ChatScreen.tsx:44-65 | each exchange keeps the log alternating: welcome, then user and bot messages in turn |
| ChatScreen.EveryQuestionAnswered | components/ChatScreen.tsx:44-65 | every user message in the log is followed by a bot message, and the log ends with a bot message |
| GeminiService.DocumentChat.constructor | services/geminiService.ts:9 | there is no session before initialisation |
| GeminiService.DocumentChat.InitializeChatWithFile | services/geminiService.ts:16-55 | replaces any session by one primed with the file's stripped data, the prompt and the ready reply |
| GeminiService.DocumentChat.SendMessageToGemini | services/geminiService.ts:57-72 | the outcome is `Reply` for the current session |
| GeminiService.Reply | services/geminiService.ts:57-72 | without a session the "Chat session not initialized" error; a service error is passed on unchanged; otherwise the reply text, a missing or empty one replaced by the fixed text, never empty |
| GeminiService.StrippedHasNoMarker | services/geminiService.ts:20-22 | the data sent inline never contains "base64," |
| GeminiService.StripDataUrlOfDataUrl | services/geminiService.ts:20-22 | for `header` + "base64," + `payload` with the marker only there, the payload is sent |
| GeminiService.StripDataUrlWithoutMarker | services/geminiService.ts:20-22 | data without the marker is sent unchanged |

## Left out

- Floating-point cosine similarity: the division, `Math.sqrt`, and NaN for zero vectors or a shorter `vecB`. The score is an abstract function; only the accumulator loop is modelled.
- The order the sort gives to equal scores: the ranking properties hold for any order of ties.
- The embedding, generation, extraction and chat calls are modelled as functions of their request, so a repeated request gets the same reply. The model does not capture retries or varying replies.
- Reading files (FileReader), the base64 encoding, and the spreadsheet library (`XLSX.read`, `sheet_to_csv`) are parameters.
- IndexedDB internals: indexes, `useLiveQuery`, the display order of the file list, and the unused `sessions` and `messages` tables.
- Browser side effects: `localStorage` beyond the session key field, `console` output, `setTimeout` clearing the success status, resetting the file input, `alert`/`confirm` dialogs (a boolean), scrolling, and rendering.
- The intermediate upload statuses (reading, extracting, vectorizing, the per-chunk progress text). Only the final status is modelled.
- Asynchrony: each handler runs to completion before the next one starts. Interleaved handlers and two uploads at once are not modelled.
- The chat service's own history growth after `sendMessage`: the session value is what `chats.create` was given.
- ChatScreen.ChatScreen.HandleSendMessage: the two clock readings for the user's message (its id and its timestamp) are the single parameter `sentAt`, and the two after the reply are the single parameter `repliedAt`.
- ClientChat.ClientChat.HandleSend: the sequential model always ends with `isTyping` false. The guard against sending while an answer is pending is modelled, but it cannot fire here.
- Chunking.TextChunks: the unreachable 5000-length fallback (`substring(0, 5000)`) keeps 5000 characters rather than 5000 UTF-16 code units, since a cut inside a surrogate pair has no `char` value; the fallback is proved never taken.
- The simulated login screen (components/AuthScreen.tsx) and the layout are not part of this model.
