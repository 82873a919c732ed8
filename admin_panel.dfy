/** The administrator's console (components/AdminPanel.tsx): ingesting an uploaded document
    into the knowledge base (metadata, text extraction, chunking, one embedding per non-blank
    chunk) and deleting a document with its chunks. */
module AdminPanel {
  import opened Outcomes
  import opened Types
  import opened Strings
  import opened Seqs
  import Db
  import Gemini
  import Excel
  import Chunking

  const Reading := "Leyendo archivo..."
  const ExcelLocally := "Procesando Excel localmente..."
  const ExtractingRemotely := "Extrayendo contenido con Gemini..."
  const Vectorizing := "Vectorizando contenido..."
  const Success := "\U{00A1}\U{00C9}xito!"
  const Failure := "Error procesando archivo."

  /** The metadata of the `File` picked in the upload input. */
  datatype PickedFile = PickedFile(name: string, mimeType: string, size: nat)

  /** What ingesting a file leaves behind: its metadata record, the chunk records added, and
      whether the upload reports success. */
  datatype Ingestion = Ingestion(file: DocumentFile, chunks: seq<DocumentChunk>, succeeded: bool)

  /** Spreadsheets are read locally; everything else goes to the extraction model. */
  predicate IsSpreadsheet(file: PickedFile) {
    || EndsWith(file.name, ".xlsx") || EndsWith(file.name, ".xls")
    || Contains(file.mimeType, "spreadsheet") || Contains(file.mimeType, "excel")
  }

  /** The text extraction of an upload, given the file's base64 data, what reading it as a
      workbook gave, and the extraction service. */
  function Extracted(file: PickedFile, base64: Option<string>, workbook: Excel.WorkbookRead,
                     extract: Gemini.Extractor): Result<string> {
    if IsSpreadsheet(file) then Excel.ExcelText(workbook)
    else Gemini.ProcessFileWithGemini(base64, file.mimeType, extract)
  }

  function IsEmbeddable(chunk: string): bool {
    !IsBlank(chunk)
  }

  /** The chunks that get an embedding: those that are not blank, in order. */
  function Embeddable(chunks: seq<string>): seq<string> {
    Filter(chunks, IsEmbeddable)
  }

  /** How many of `pieces`, from the first, embed before the first embedding error. */
  function EmbeddedCount(pieces: seq<string>, embed: Gemini.EmbedService): (k: nat)
    ensures k <= |pieces|
    ensures forall i :: 0 <= i < k ==> Gemini.GenerateEmbedding(embed, pieces[i]).Ok?
    ensures k < |pieces| ==> Gemini.GenerateEmbedding(embed, pieces[k]).Err?
  {
    if pieces == [] || Gemini.GenerateEmbedding(embed, pieces[0]).Err? then 0
    else 1 + EmbeddedCount(pieces[1..], embed)
  }

  /** The chunk records for `pieces` of document `docId`, keyed from `firstId` on. */
  function ChunkRecords(pieces: seq<string>, docId: nat, firstId: nat, embed: Gemini.EmbedService): (r: seq<DocumentChunk>)
    requires forall i :: 0 <= i < |pieces| ==> Gemini.GenerateEmbedding(embed, pieces[i]).Ok?
    ensures |r| == |pieces|
  {
    seq(|pieces|, i requires 0 <= i < |pieces| =>
      DocumentChunk(firstId + i, docId, pieces[i], Gemini.GenerateEmbedding(embed, pieces[i]).value))
  }

  /** The outcome of the upload's `try` block once the file is read, for the file key `fileId`
      and the next chunk key `firstChunkId`. */
  function Ingest(file: PickedFile, extracted: Result<string>, now: int, fileId: nat, firstChunkId: nat,
                  embed: Gemini.EmbedService): Ingestion
  {
    var meta := DocumentFile(fileId, file.name, file.mimeType, file.size, now, false, None);
    if extracted.Err? then Ingestion(meta, [], false)
    else
      var pieces := Embeddable(Chunking.TextChunks(extracted.value));
      var k := EmbeddedCount(pieces, embed);
      Ingestion(meta.(content := Some(extracted.value), processed := k == |pieces|),
                ChunkRecords(pieces[..k], fileId, firstChunkId, embed), k == |pieces|)
  }

  class AdminPanel {
    const db: Db.Database
    var isUploading: bool
    var uploadStatus: string

    ghost predicate Valid()
      reads this, db
    {
      db.Valid()
    }

    constructor (db: Db.Database)
      requires db.Valid()
      ensures Valid()
      ensures this.db == db && !isUploading && uploadStatus == ""
    {
      this.db := db;
      isUploading := false;
      uploadStatus := "";
    }

    /** `handleFileUpload`: nothing happens without a picked file; otherwise the upload runs,
        reports success or failure, and the spinner stops. `dataUrl` is what reading the file
        as a data URL gave, `workbook` what reading it as a spreadsheet gave, `now` the clock,
        and `extract` and `embed` the remote services. */
    method HandleFileUpload(picked: Option<PickedFile>, dataUrl: Result<string>, now: int,
                            workbook: Excel.WorkbookRead, extract: Gemini.Extractor,
                            embed: Gemini.EmbedService)
      requires Valid()
      modifies this`isUploading, this`uploadStatus, db`files, db`nextFileId, db`chunks, db`nextChunkId
      ensures Valid()
      ensures picked.None? ==> unchanged(this) && unchanged(db)
      ensures picked.Some? ==> !isUploading && db.users == old(db.users)
      ensures picked.Some? && dataUrl.Err? ==>
        && db.files == old(db.files) && db.chunks == old(db.chunks) && uploadStatus == Failure
        && db.nextFileId == old(db.nextFileId) && db.nextChunkId == old(db.nextChunkId)
      ensures picked.Some? && dataUrl.Ok? ==>
        var base64 := Gemini.FileToBase64(dataUrl).value;
        var result := Ingest(picked.value, Extracted(picked.value, base64, workbook, extract), now,
                             old(db.nextFileId), old(db.nextChunkId), embed);
        && db.files == old(db.files) + [result.file]
        && db.chunks == old(db.chunks) + result.chunks
        && db.nextFileId == old(db.nextFileId) + 1
        && db.nextChunkId == old(db.nextChunkId) + |result.chunks|
        && uploadStatus == (if result.succeeded then Success else Failure)
    {
      if picked.None? {
        return;
      }
      isUploading := true;
      uploadStatus := Reading;
      var ok := Upload(picked.value, dataUrl, now, workbook, extract, embed);
      if !ok {
        uploadStatus := Failure;
      }
      isUploading := false;
    }

    /** The `try` block of `handleFileUpload`: `ok` is false where it throws. */
    method Upload(file: PickedFile, dataUrl: Result<string>, now: int,
                  workbook: Excel.WorkbookRead, extract: Gemini.Extractor,
                  embed: Gemini.EmbedService) returns (ok: bool)
      requires Valid()
      modifies this`uploadStatus, db`files, db`nextFileId, db`chunks, db`nextChunkId
      ensures Valid()
      ensures db.users == old(db.users)
      ensures dataUrl.Err? ==>
        && !ok && db.files == old(db.files) && db.chunks == old(db.chunks)
        && db.nextFileId == old(db.nextFileId) && db.nextChunkId == old(db.nextChunkId)
      ensures dataUrl.Ok? ==>
        var base64 := Gemini.FileToBase64(dataUrl).value;
        var result := Ingest(file, Extracted(file, base64, workbook, extract), now,
                             old(db.nextFileId), old(db.nextChunkId), embed);
        && db.files == old(db.files) + [result.file]
        && db.chunks == old(db.chunks) + result.chunks
        && db.nextFileId == old(db.nextFileId) + 1
        && db.nextChunkId == old(db.nextChunkId) + |result.chunks|
        && ok == result.succeeded
      ensures ok ==> uploadStatus == Success
    {
      var base64 := Gemini.FileToBase64(dataUrl);
      if base64.Err? {
        return false;
      }
      ghost var before := db.files;
      var meta := DocumentFile(0, file.name, file.mimeType, file.size, now, false, None);
      var fileId := db.AddFile(meta);
      var extracted := ExtractText(file, base64.value, workbook, extract);
      if extracted.Err? {
        return false;
      }
      var text := extracted.value;
      UpdateNewest(before, meta.(id := fileId), Db.SetContent(text));
      db.ChangeFile(fileId, Db.SetContent(text));
      uploadStatus := Vectorizing;
      var chunks := Chunking.ChunkText(text);
      ok := EmbedChunks(fileId, chunks, embed);
      if !ok {
        return;
      }
      UpdateNewest(before, meta.(id := fileId, content := Some(text)), Db.SetProcessed(true));
      db.ChangeFile(fileId, Db.SetProcessed(true));
      uploadStatus := Success;
    }

    /** Step 3 of the upload: spreadsheets are read locally, other files sent for extraction. */
    method ExtractText(file: PickedFile, base64: Option<string>, workbook: Excel.WorkbookRead,
                       extract: Gemini.Extractor) returns (r: Result<string>)
      modifies this`uploadStatus
      ensures r == Extracted(file, base64, workbook, extract)
    {
      if IsSpreadsheet(file) {
        uploadStatus := ExcelLocally;
        r := Excel.ExtractTextFromExcel(workbook);
      } else {
        uploadStatus := ExtractingRemotely;
        r := Gemini.ProcessFileWithGemini(base64, file.mimeType, extract);
      }
    }

    /** Step 5 of the upload: one embedding and one chunk record per non-blank chunk, in order,
        stopping at the first embedding error with the records already added kept. */
    method EmbedChunks(fileId: nat, chunks: seq<string>, embed: Gemini.EmbedService) returns (ok: bool)
      requires db.Valid()
      modifies db`chunks, db`nextChunkId
      ensures db.Valid()
      ensures var pieces := Embeddable(chunks);
        var k := EmbeddedCount(pieces, embed);
        && db.chunks == old(db.chunks) + ChunkRecords(pieces[..k], fileId, old(db.nextChunkId), embed)
        && db.nextChunkId == old(db.nextChunkId) + k
        && ok == (k == |pieces|)
    {
      var firstChunkId := db.nextChunkId;
      ghost var pieces := Embeddable(chunks);
      var completedChunks := 0;
      for i := 0 to |chunks|
        invariant EmbeddedSoFar(fileId, chunks, embed, old(db.chunks), firstChunkId, i, completedChunks)
      {
        if IsBlank(chunks[i]) {
          NextPiece(chunks, i, completedChunks);
          continue;
        }
        var stored := EmbedNext(fileId, chunks, embed, old(db.chunks), firstChunkId, i, completedChunks);
        if !stored {
          FirstFailure(pieces, completedChunks, embed);
          return false;
        }
        completedChunks := completedChunks + 1;
      }
      assert chunks[..|chunks|] == chunks;
      FirstFailure(pieces, |pieces|, embed);
      ok := true;
    }

    /** The embedding loop's state after the first `i` chunks: the `c` non-blank ones among
        them were embedded, and their records stored after `base` with keys from `firstId` on. */
    ghost predicate EmbeddedSoFar(fileId: nat, chunks: seq<string>, embed: Gemini.EmbedService,
                                  base: seq<DocumentChunk>, firstId: nat, i: nat, c: nat)
      reads db
    {
      && i <= |chunks|
      && c <= |Embeddable(chunks)|
      && Embeddable(chunks)[..c] == Embeddable(chunks[..i])
      && (forall j :: 0 <= j < c ==> Gemini.GenerateEmbedding(embed, Embeddable(chunks)[j]).Ok?)
      && db.Valid()
      && db.chunks == base + ChunkRecords(Embeddable(chunks)[..c], fileId, firstId, embed)
      && db.nextChunkId == firstId + c
    }

    /** The loop body for a non-blank chunk `i`: it is the next embeddable chunk, and its
        record is stored exactly when its embedding succeeds. */
    method EmbedNext(fileId: nat, chunks: seq<string>, embed: Gemini.EmbedService,
                     ghost base: seq<DocumentChunk>, ghost firstId: nat, i: nat, c: nat)
      returns (stored: bool)
      requires i < |chunks| && !IsBlank(chunks[i])
      requires EmbeddedSoFar(fileId, chunks, embed, base, firstId, i, c)
      modifies db`chunks, db`nextChunkId
      ensures c < |Embeddable(chunks)| && Embeddable(chunks)[c] == chunks[i]
      ensures stored ==> EmbeddedSoFar(fileId, chunks, embed, base, firstId, i + 1, c + 1)
      ensures !stored ==>
        && EmbeddedSoFar(fileId, chunks, embed, base, firstId, i, c)
        && Gemini.GenerateEmbedding(embed, chunks[i]).Err?
    {
      NextPiece(chunks, i, c);
      stored := EmbedOne(fileId, chunks[i], embed, base, Embeddable(chunks)[..c], firstId);
    }

    /** One step of the embedding loop: embeds `piece` and, when that succeeds, stores its
        chunk record after the records of the pieces `done` before it. */
    method EmbedOne(fileId: nat, piece: string, embed: Gemini.EmbedService,
                    ghost base: seq<DocumentChunk>, ghost done: seq<string>, ghost firstChunkId: nat)
      returns (stored: bool)
      requires db.Valid()
      requires forall j :: 0 <= j < |done| ==> Gemini.GenerateEmbedding(embed, done[j]).Ok?
      requires db.chunks == base + ChunkRecords(done, fileId, firstChunkId, embed)
      requires db.nextChunkId == firstChunkId + |done|
      modifies db`chunks, db`nextChunkId
      ensures db.Valid()
      ensures stored <==> Gemini.GenerateEmbedding(embed, piece).Ok?
      ensures !stored ==> db.chunks == old(db.chunks) && db.nextChunkId == old(db.nextChunkId)
      ensures stored ==>
        && db.chunks == base + ChunkRecords(done + [piece], fileId, firstChunkId, embed)
        && db.nextChunkId == firstChunkId + |done| + 1
    {
      var vector := Gemini.GenerateEmbedding(embed, piece);
      if vector.Err? {
        return false;
      }
      ghost var prior := db.chunks;
      var record := DocumentChunk(0, fileId, piece, vector.value);
      var chunkId := db.AddChunk(record);
      assert chunkId == firstChunkId + |done|;
      assert db.chunks == prior + [record.(id := chunkId)];
      ChunkRecordsAppend(done, piece, fileId, firstChunkId, embed);
      stored := true;
    }

    /** `deleteFile(id)`: once confirmed, the document and every chunk of it are removed, and
        nothing else is. */
    method DeleteFile(id: nat, confirmed: bool)
      requires Valid()
      modifies db`files, db`chunks
      ensures Valid()
      ensures !confirmed ==> db.files == old(db.files) && db.chunks == old(db.chunks)
      ensures confirmed ==> db.files == Db.FilesWithout(old(db.files), id) && db.chunks == Db.ChunksNotOf(old(db.chunks), id)
      ensures confirmed ==> forall i :: 0 <= i < |db.files| ==> db.files[i].id != id
      ensures confirmed ==> forall i :: 0 <= i < |db.chunks| ==> db.chunks[i].documentId != id
    {
      if confirmed {
        db.DeleteFile(id);
        db.DeleteChunksOf(id);
      }
    }
  }

  /** A failed extraction leaves the bare metadata record: unprocessed, without content and
      without chunks, and the upload reports failure. */
  lemma ExtractionFailureLeavesMetadata(file: PickedFile, extracted: Result<string>, now: int, fileId: nat,
                                        firstChunkId: nat, embed: Gemini.EmbedService)
    requires extracted.Err?
    ensures var result := Ingest(file, extracted, now, fileId, firstChunkId, embed);
      && result.file == DocumentFile(fileId, file.name, file.mimeType, file.size, now, false, None)
      && result.chunks == [] && !result.succeeded
  {
  }

  /** Once the text is extracted, the record keeps it; it is marked processed exactly when
      every non-blank chunk got its embedding; and the chunk records hold the non-blank
      chunks from the first on, in order, under consecutive keys, all pointing at the file. */
  lemma {:induction false} ProcessedIffEveryChunkEmbedded(file: PickedFile, text: string, now: int, fileId: nat,
                                                          firstChunkId: nat, embed: Gemini.EmbedService)
    ensures var result := Ingest(file, Ok(text), now, fileId, firstChunkId, embed);
      var pieces := Embeddable(Chunking.TextChunks(text));
      && result.file.content == Some(text)
      && (result.file.processed <==> result.succeeded)
      && (result.succeeded <==> |result.chunks| == |pieces|)
      && |result.chunks| <= |pieces|
      && (forall i :: 0 <= i < |result.chunks| ==>
            && result.chunks[i].text == pieces[i]
            && result.chunks[i].documentId == fileId
            && result.chunks[i].id == firstChunkId + i)
  {
    var pieces := Embeddable(Chunking.TextChunks(text));
    var k := EmbeddedCount(pieces, embed);
    var records := ChunkRecords(pieces[..k], fileId, firstChunkId, embed);
    forall i | 0 <= i < |records| ensures records[i].text == pieces[i] {
      assert pieces[..k][i] == pieces[i];
    }
  }

  /** A blank extracted text yields no chunk record and still counts as processed. */
  lemma BlankTextProcessedWithoutChunks(file: PickedFile, text: string, now: int, fileId: nat,
                                        firstChunkId: nat, embed: Gemini.EmbedService)
    requires IsBlank(text)
    ensures var result := Ingest(file, Ok(text), now, fileId, firstChunkId, embed);
      result.chunks == [] && result.succeeded && result.file.processed
  {
    Chunking.BlankTextBlankChunks(text);
  }

  /** A successful upload of a text with any visible character stores at least one chunk. */
  lemma VisibleTextGetsChunks(file: PickedFile, text: string, now: int, fileId: nat,
                              firstChunkId: nat, embed: Gemini.EmbedService)
    requires !IsBlank(text)
    requires Ingest(file, Ok(text), now, fileId, firstChunkId, embed).succeeded
    ensures |Ingest(file, Ok(text), now, fileId, firstChunkId, embed).chunks| >= 1
  {
    Chunking.BlankTextBlankChunks(text);
    var chunks := Chunking.TextChunks(text);
    var i :| 0 <= i < |chunks| && !IsBlank(chunks[i]);
    assert chunks[i] in Embeddable(chunks);
  }

  lemma ChunkRecordsAppend(pieces: seq<string>, piece: string, docId: nat, firstId: nat, embed: Gemini.EmbedService)
    requires forall i :: 0 <= i < |pieces| ==> Gemini.GenerateEmbedding(embed, pieces[i]).Ok?
    requires Gemini.GenerateEmbedding(embed, piece).Ok?
    ensures forall i :: 0 <= i < |pieces + [piece]| ==> Gemini.GenerateEmbedding(embed, (pieces + [piece])[i]).Ok?
    ensures ChunkRecords(pieces + [piece], docId, firstId, embed)
         == ChunkRecords(pieces, docId, firstId, embed)
            + [DocumentChunk(firstId + |pieces|, docId, piece, Gemini.GenerateEmbedding(embed, piece).value)]
  {
    var all := pieces + [piece];
    assert forall i :: 0 <= i < |all| ==> Gemini.GenerateEmbedding(embed, all[i]).Ok?;
    var lhs := ChunkRecords(all, docId, firstId, embed);
    var rhs := ChunkRecords(pieces, docId, firstId, embed)
            + [DocumentChunk(firstId + |pieces|, docId, piece, Gemini.GenerateEmbedding(embed, piece).value)];
    assert |lhs| == |rhs|;
    forall i | 0 <= i < |lhs| ensures lhs[i] == rhs[i] {
      if i < |pieces| {
        assert all[i] == pieces[i];
      }
    }
  }

  /** Updating the newest row, whose key no older row has, changes that row only. */
  lemma UpdateNewest(rows: seq<DocumentFile>, newest: DocumentFile, change: Db.FileChange)
    requires forall i :: 0 <= i < |rows| ==> rows[i].id < newest.id
    ensures Db.UpdateFile(rows + [newest], newest.id, change) == rows + [Db.Apply(newest, change)]
  {
  }

  /** One more chunk read: the embeddable ones grow by it exactly when it is not blank. */
  lemma EmbeddableStep(chunks: seq<string>, i: nat)
    requires i < |chunks|
    ensures Embeddable(chunks[..i + 1]) == Embeddable(chunks[..i]) + (if IsBlank(chunks[i]) then [] else [chunks[i]])
    ensures Embeddable(chunks) == Embeddable(chunks[..i + 1]) + Embeddable(chunks[i + 1..])
    ensures Embeddable(chunks) == Embeddable(chunks[..i]) + Embeddable(chunks[i..])
  {
    assert chunks[..i + 1] == chunks[..i] + [chunks[i]];
    FilterAppend(chunks[..i], [chunks[i]], IsEmbeddable);
    assert [chunks[i]][1..] == [];
    assert chunks == chunks[..i + 1] + chunks[i + 1..];
    FilterAppend(chunks[..i + 1], chunks[i + 1..], IsEmbeddable);
    assert chunks == chunks[..i] + chunks[i..];
    FilterAppend(chunks[..i], chunks[i..], IsEmbeddable);
  }

  /** Where chunk `i` lands among the embeddable ones, when the `c` before it are those of the
      chunks before it: nowhere if it is blank, at position `c` otherwise. */
  lemma NextPiece(chunks: seq<string>, i: nat, c: nat)
    requires i < |chunks|
    requires c <= |Embeddable(chunks)| && Embeddable(chunks)[..c] == Embeddable(chunks[..i])
    ensures IsBlank(chunks[i]) ==> Embeddable(chunks)[..c] == Embeddable(chunks[..i + 1])
    ensures !IsBlank(chunks[i]) ==>
      && c < |Embeddable(chunks)| && Embeddable(chunks)[c] == chunks[i]
      && Embeddable(chunks)[..c + 1] == Embeddable(chunks[..i + 1])
      && Embeddable(chunks)[..c + 1] == Embeddable(chunks)[..c] + [chunks[i]]
  {
    EmbeddableStep(chunks, i);
    var all := Embeddable(chunks);
    var before := Embeddable(chunks[..i]);
    assert |before| == c;
    if !IsBlank(chunks[i]) {
      var upTo := Embeddable(chunks[..i + 1]);
      assert upTo == before + [chunks[i]];
      assert all == upTo + Embeddable(chunks[i + 1..]);
      assert all[..c + 1] == upTo;
    }
  }

  /** `EmbeddedCount` is the position of the first failing piece. */
  lemma FirstFailure(pieces: seq<string>, k: nat, embed: Gemini.EmbedService)
    requires k <= |pieces|
    requires forall i :: 0 <= i < k ==> Gemini.GenerateEmbedding(embed, pieces[i]).Ok?
    requires k < |pieces| ==> Gemini.GenerateEmbedding(embed, pieces[k]).Err?
    ensures EmbeddedCount(pieces, embed) == k
  {
  }
}
