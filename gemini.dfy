/** The knowledge-base side of the generative-AI client (services/gemini.ts): text extraction
    on upload, embedding of texts, and retrieval-augmented answering. The remote calls are
    parameters: the reply a call received, or a function from request to reply. */
module Gemini {
  import opened Outcomes
  import opened Types
  import opened Seqs
  import opened Strings
  import Db

  const ExtractionModel := "gemini-2.5-flash"
  const EmbeddingModel := "text-embedding-004"
  const ChatModel := "gemini-2.5-flash"

  /** How many chunks retrieval asks the similarity search for. */
  const RetrievalLimit := 5

  const ContextSeparator := "\n\n---\n\n"
  const NoInformation := "I couldn't find any information in the uploaded documents to answer your question."
  const EmptyAnswer := "I processed the context but couldn't generate a response."
  const Apology := "I encountered an error while trying to answer your question."
  const ExtractionFailed := "Failed to extract text from file."
  const EmbeddingFailed := "Failed to generate embedding"

  /** The fixed part of the system instruction; the retrieved context follows it. */
  const InstructionPreamble :=
    "You are a helpful and professional assistant. \n"
    + "  Answer the user's question using ONLY the context provided below.\n"
    + "  If the answer is not in the context, politely say you don't have that information in the provided documents.\n"
    + "  Do not make up information.\n"
    + "  ALWAYS ANSWER IN SPANISH.\n"
    + "  \n"
    + "  CONTEXT:\n"
    + "  "

  const ExtractionPrompt :=
    "Extract all the text content from this document. Return ONLY the extracted text. "
    + "If it is an image or excel, describe the data in detail structurally. "
    + "Do not add markdown formatting like ```text."

  /** The extraction call: the file inline (its base64 data, `undefined` when absent) and the prompt. */
  datatype ExtractionRequest = ExtractionRequest(model: string, mimeType: string, data: Option<string>, prompt: string)

  /** One entry of an `embedContent` response; `values` may be missing. */
  datatype ContentEmbedding = ContentEmbedding(values: Option<seq<real>>)

  /** What `embedContent` did: threw, or returned a response whose `embeddings` may be missing. */
  datatype EmbedResponse = EmbedThrown(message: string) | EmbedReturned(embeddings: Option<seq<ContentEmbedding>>)

  /** The embedding capability: the response `embedContent` gives for a text. */
  type EmbedService = string -> EmbedResponse

  /** What `generateContent` did: threw, or returned a response whose `text` may be missing. */
  datatype GenerateReply = GenerateThrown(message: string) | GenerateReturned(text: Option<string>)

  /** One turn of a conversation: `{ role, parts: [{ text }, ...] }`. */
  datatype Turn = Turn(role: ChatRole, parts: seq<string>)

  /** A `generateContent` call of the answering step. */
  datatype GenerateRequest = GenerateRequest(model: string, systemInstruction: string, contents: seq<Turn>)

  /** The generation capability: the reply `generateContent` gives to a request. */
  type Generator = GenerateRequest -> GenerateReply

  /** The extraction capability: the reply `generateContent` gives to an extraction request. */
  type Extractor = ExtractionRequest -> GenerateReply

  /** `{ response, sources }`. */
  datatype Answer = Answer(response: string, sources: seq<string>)

  /** `text || fallback`: a missing or empty text is replaced. */
  function TextOr(text: Option<string>, fallback: string): (r: string)
    ensures text.Some? && text.value != "" ==> r == text.value
    ensures text.None? || text.value == "" ==> r == fallback
  {
    if text.Some? && text.value != "" then text.value else fallback
  }

  /** `fileToBase64`, given what reading the file as a data URL gave: the text between the
      first and second comma of the URL (`undefined` when it has no comma), or the reader's error. */
  function FileToBase64(read: Result<string>): (r: Result<Option<string>>)
    ensures read.Err? ==> r == Err(read.message)
    ensures read.Ok? ==> r.Ok? && (r.value.None? <==> !Contains(read.value, ","))
  {
    match read
    case Err(message) => Err(message)
    case Ok(url) => Ok(SecondPiece(url, ","))
  }

  /** A data URL `data:<type>;base64,<payload>` whose payload has no comma gives its payload. */
  lemma FileToBase64OfDataUrl(header: string, payload: string)
    requires forall k :: 0 <= k < |header| ==> header[k] != ','
    requires forall k :: 0 <= k < |payload| ==> payload[k] != ','
    ensures FileToBase64(Ok(header + "," + payload)) == Ok(Some(payload))
  {
    var s := header + "," + payload;
    forall k | 0 <= k < |header| ensures !OccursAt(s, ",", k) {
      assert s[k..k + 1][0] == header[k];
    }
    forall k | 0 <= k < |payload| ensures !OccursAt(payload, ",", k) {
      assert payload[k..k + 1][0] == payload[k];
    }
    SecondPieceOfSingle(header, ",", payload);
  }

  /** The extraction request for a file. */
  function ExtractionCall(fileBase64: Option<string>, mimeType: string): ExtractionRequest {
    ExtractionRequest(ExtractionModel, mimeType, fileBase64, ExtractionPrompt)
  }

  /** `processFileWithGemini(fileBase64, mimeType)`: the extracted text, "" when the reply has
      none, and a fixed error when the call threw. */
  function ProcessFileWithGemini(fileBase64: Option<string>, mimeType: string, extract: Extractor): (r: Result<string>)
    ensures var reply := extract(ExtractionCall(fileBase64, mimeType));
      && (reply.GenerateThrown? <==> r == Err(ExtractionFailed))
      && (reply.GenerateReturned? ==> r.Ok? && (r.value == "" <==> reply.text.None? || reply.text.value == ""))
      && (reply.GenerateReturned? && r.value != "" ==> reply.text == Some(r.value))
  {
    match extract(ExtractionCall(fileBase64, mimeType))
    case GenerateThrown(_) => Err(ExtractionFailed)
    case GenerateReturned(text) => Ok(TextOr(text, ""))
  }

  /** The check `generateEmbedding` makes of an `embedContent` response. */
  function EmbeddingOf(response: EmbedResponse): (r: Result<seq<real>>)
    ensures r.Ok? <==> && response.EmbedReturned?
                       && response.embeddings.Some?
                       && |response.embeddings.value| > 0
                       && response.embeddings.value[0].values.Some?
    ensures r.Ok? ==> r.value == response.embeddings.value[0].values.value
    ensures response.EmbedThrown? ==> r == Err(response.message)
    ensures response.EmbedReturned? && r.Err? ==> r.message == EmbeddingFailed
  {
    match response
    case EmbedThrown(message) => Err(message)
    case EmbedReturned(embeddings) =>
      if embeddings.None? || |embeddings.value| == 0 || embeddings.value[0].values.None? then Err(EmbeddingFailed)
      else Ok(embeddings.value[0].values.value)
  }

  /** `generateEmbedding(text)`: the embedding of `text`, or the error the call raised. */
  function GenerateEmbedding(embed: EmbedService, text: string): Result<seq<real>> {
    EmbeddingOf(embed(text))
  }

  function Texts(relevant: seq<Db.ScoredChunk>): (r: seq<string>)
    ensures |r| == |relevant| && forall i :: 0 <= i < |r| ==> r[i] == relevant[i].chunk.text
  {
    seq(|relevant|, i requires 0 <= i < |relevant| => relevant[i].chunk.text)
  }

  function DocumentIds(relevant: seq<Db.ScoredChunk>): (r: seq<nat>)
    ensures |r| == |relevant| && forall i :: 0 <= i < |r| ==> r[i] == relevant[i].chunk.documentId
  {
    seq(|relevant|, i requires 0 <= i < |relevant| => relevant[i].chunk.documentId)
  }

  function Names(docs: seq<DocumentFile>): (r: seq<string>)
    ensures |r| == |docs| && forall i :: 0 <= i < |r| ==> r[i] == docs[i].name
  {
    seq(|docs|, i requires 0 <= i < |docs| => docs[i].name)
  }

  /** The context block: the chunk texts in ranked order with a visible separator between them. */
  function ContextText(relevant: seq<Db.ScoredChunk>): string {
    Join(Texts(relevant), ContextSeparator)
  }

  /** `[...new Set(relevantChunks.map(c => c.documentId))]`. */
  function SourceIds(relevant: seq<Db.ScoredChunk>): seq<nat> {
    Dedup(DocumentIds(relevant))
  }

  /** The names of the stored documents behind the retrieved chunks, in key order. */
  function SourceNames(files: seq<DocumentFile>, relevant: seq<Db.ScoredChunk>): seq<string> {
    Names(Db.FilesWithIds(files, SourceIds(relevant)))
  }

  /** `[...history, { role: 'user', parts: [{ text: query }] }]`. */
  function Contents(history: seq<Turn>, query: string): seq<Turn> {
    history + [Turn(UserRole, [query])]
  }

  /** The generation request for the retrieved chunks. */
  function AnswerRequest(relevant: seq<Db.ScoredChunk>, history: seq<Turn>, query: string): GenerateRequest {
    GenerateRequest(ChatModel, InstructionPreamble + ContextText(relevant), Contents(history, query))
  }

  /** What `chatWithKnowledgeBase` does once the chunks are retrieved: the answer, and the
      generation requests it makes (none or one). */
  function AnswerFrom(relevant: seq<Db.ScoredChunk>, files: seq<DocumentFile>, history: seq<Turn>,
                      query: string, generate: Generator): (Answer, seq<GenerateRequest>)
  {
    if |relevant| == 0 then (Answer(NoInformation, []), [])
    else
      var request := AnswerRequest(relevant, history, query);
      match generate(request)
      case GenerateThrown(_) => (Answer(Apology, []), [request])
      case GenerateReturned(text) => (Answer(TextOr(text, EmptyAnswer), SourceNames(files, relevant)), [request])
  }

  /** `chatWithKnowledgeBase(query, history)`: embeds the query (an embedding error propagates),
      retrieves the top chunks, and answers from them. `retrieved` names the chunks the search returned. */
  method ChatWithKnowledgeBase(db: Db.Database, query: string, history: seq<Turn>,
                               embed: EmbedService, generate: Generator, sim: Db.Similarity)
    returns (r: Result<Answer>, ghost retrieved: seq<Db.ScoredChunk>, calls: seq<GenerateRequest>)
    requires db.Valid()
    ensures GenerateEmbedding(embed, query).Err? ==> r == Err(GenerateEmbedding(embed, query).message) && calls == []
    ensures GenerateEmbedding(embed, query).Ok? ==>
      && Db.IsTopK(retrieved, db.chunks, GenerateEmbedding(embed, query).value, sim,
                   Db.SliceEnd(|db.chunks|, RetrievalLimit))
      && Distinct(Db.ChunksOf(retrieved))
      && r == Ok(AnswerFrom(retrieved, db.files, history, query, generate).0)
      && calls == AnswerFrom(retrieved, db.files, history, query, generate).1
    ensures GenerateEmbedding(embed, query).Ok? && db.chunks == [] ==> r == Ok(Answer(NoInformation, [])) && calls == []
  {
    var queryEmbedding := GenerateEmbedding(embed, query);
    if queryEmbedding.Err? {
      return Err(queryEmbedding.message), [], [];
    }
    var relevant := db.FindSimilarChunks(queryEmbedding.value, sim, RetrievalLimit);
    retrieved := relevant;
    var result := AnswerFrom(relevant, db.files, history, query, generate);
    r, calls := Ok(result.0), result.1;
  }

  /** An empty retrieval short-circuits: the canned reply, no sources, and no generation call. */
  lemma NoChunksNoGeneration(files: seq<DocumentFile>, history: seq<Turn>, query: string, generate: Generator)
    ensures AnswerFrom([], files, history, query, generate) == (Answer(NoInformation, []), [])
  {
  }

  /** With chunks retrieved, exactly one generation call is made: the system instruction ends
      with the chunk texts in ranked order joined by the separator, and the contents are the
      history followed by one user turn holding the query. */
  lemma {:induction false} GenerationRequestShape(relevant: seq<Db.ScoredChunk>, files: seq<DocumentFile>,
                                                  history: seq<Turn>, query: string, generate: Generator)
    requires |relevant| > 0
    ensures var calls := AnswerFrom(relevant, files, history, query, generate).1;
      && |calls| == 1
      && calls[0].model == ChatModel
      && calls[0].systemInstruction[..|InstructionPreamble|] == InstructionPreamble
      && calls[0].systemInstruction[|InstructionPreamble|..] == Join(Texts(relevant), ContextSeparator)
      && |calls[0].contents| == |history| + 1
      && calls[0].contents[..|history|] == history
      && calls[0].contents[|history|] == Turn(UserRole, [query])
  {
    var request := AnswerRequest(relevant, history, query);
    assert request.contents[..|history|] == history;
  }

  /** The context starts with the best chunk's text, and its length is the texts' lengths plus
      one separator between each two neighbours. */
  lemma ContextLayout(relevant: seq<Db.ScoredChunk>)
    requires |relevant| > 0
    ensures |ContextText(relevant)| == |Concat(Texts(relevant))| + (|relevant| - 1) * |ContextSeparator|
    ensures |relevant[0].chunk.text| <= |ContextText(relevant)|
    ensures ContextText(relevant)[..|relevant[0].chunk.text|] == relevant[0].chunk.text
  {
    JoinLength(Texts(relevant), ContextSeparator);
    JoinStartsWithFirst(Texts(relevant), ContextSeparator);
  }

  /** The document ids looked up for citations are distinct, no more than the retrieved chunks
      (so at most five), exactly those of the retrieved chunks, in order of first occurrence. */
  lemma SourceIdsProperties(relevant: seq<Db.ScoredChunk>)
    ensures Distinct(SourceIds(relevant))
    ensures |SourceIds(relevant)| <= |relevant|
    ensures forall id :: id in SourceIds(relevant) <==> exists i :: 0 <= i < |relevant| && relevant[i].chunk.documentId == id
    ensures forall k :: 0 <= k < |SourceIds(relevant)| ==> SourceIds(relevant)[k] in DocumentIds(relevant)
    ensures forall i, j :: 0 <= i < j < |SourceIds(relevant)| ==>
      FirstIndex(DocumentIds(relevant), SourceIds(relevant)[i]) < FirstIndex(DocumentIds(relevant), SourceIds(relevant)[j])
  {
    var ids := DocumentIds(relevant);
    DedupElements(ids);
    forall id ensures id in SourceIds(relevant) <==> exists i :: 0 <= i < |relevant| && relevant[i].chunk.documentId == id {
      if id in ids {
        var i :| 0 <= i < |ids| && ids[i] == id;
        assert relevant[i].chunk.documentId == id;
      }
      if exists i :: 0 <= i < |relevant| && relevant[i].chunk.documentId == id {
        var i :| 0 <= i < |relevant| && relevant[i].chunk.documentId == id;
        assert ids[i] == id;
      }
    }
    forall k | 0 <= k < |SourceIds(relevant)| ensures SourceIds(relevant)[k] in ids {
      DedupAfterMember(ids, [], k);
    }
    forall i, j | 0 <= i < j < |SourceIds(relevant)|
      ensures FirstIndex(ids, SourceIds(relevant)[i]) < FirstIndex(ids, SourceIds(relevant)[j])
    {
      DedupFirstOccurrenceOrder(ids, i, j);
    }
  }

  /** The cited names are exactly the names of the stored documents behind the retrieved
      chunks; with files in key order there is at most one name per distinct document. */
  lemma SourceNamesProperties(files: seq<DocumentFile>, relevant: seq<Db.ScoredChunk>)
    requires IncreasingBy(files, Db.FileKey)
    ensures |SourceNames(files, relevant)| <= |SourceIds(relevant)| <= |relevant|
    ensures forall n :: n in SourceNames(files, relevant) <==>
      exists f, i :: f in files && 0 <= i < |relevant| && f.id == relevant[i].chunk.documentId && f.name == n
  {
    var ids := SourceIds(relevant);
    var docs := Db.FilesWithIds(files, ids);
    SourceIdsProperties(relevant);
    FilterIncreasing(files, (f: DocumentFile) => f.id in ids, Db.FileKey);
    DistinctKeysBound(docs, ids);
    forall n ensures n in SourceNames(files, relevant) <==>
      exists f, i :: f in files && 0 <= i < |relevant| && f.id == relevant[i].chunk.documentId && f.name == n
    {
      if n in SourceNames(files, relevant) {
        var k :| 0 <= k < |docs| && Names(docs)[k] == n;
        assert docs[k] in files && docs[k].id in ids;
        var i :| 0 <= i < |relevant| && relevant[i].chunk.documentId == docs[k].id;
      }
      if exists f, i :: f in files && 0 <= i < |relevant| && f.id == relevant[i].chunk.documentId && f.name == n {
        var f, i :| f in files && 0 <= i < |relevant| && f.id == relevant[i].chunk.documentId && f.name == n;
        var m :| 0 <= m < |files| && files[m] == f;
        assert f.id in ids;
        assert files[m] in docs;
        var k :| 0 <= k < |docs| && docs[k] == f;
        assert Names(docs)[k] == n;
      }
    }
  }

  /** Rows with strictly increasing keys, every key drawn from `ids`, are no more than `ids`. */
  lemma DistinctKeysBound(docs: seq<DocumentFile>, ids: seq<nat>)
    requires IncreasingBy(docs, Db.FileKey)
    requires forall i :: 0 <= i < |docs| ==> docs[i].id in ids
    ensures |docs| <= |ids|
  {
    var keys := set i | 0 <= i < |docs| :: docs[i].id;
    var idSet := set i | 0 <= i < |ids| :: ids[i];
    assert keys <= idSet;
    KeysCardinality(docs);
    SetOfSeqBound(ids);
    SubsetCardinality(keys, idSet);
  }

  lemma {:induction false} KeysCardinality(docs: seq<DocumentFile>)
    requires IncreasingBy(docs, Db.FileKey)
    ensures |set i | 0 <= i < |docs| :: docs[i].id| == |docs|
  {
    if docs != [] {
      var n := |docs| - 1;
      var init := docs[..n];
      assert IncreasingBy(init, Db.FileKey);
      KeysCardinality(init);
      var s := set i | 0 <= i < |init| :: init[i].id;
      assert (set i | 0 <= i < |docs| :: docs[i].id) == s + {docs[n].id};
      assert docs[n].id !in s;
    }
  }

  lemma {:induction false} SetOfSeqBound(ids: seq<nat>)
    ensures |set i | 0 <= i < |ids| :: ids[i]| <= |ids|
  {
    if ids != [] {
      var n := |ids| - 1;
      SetOfSeqBound(ids[..n]);
      assert (set i | 0 <= i < |ids| :: ids[i]) == (set i | 0 <= i < |ids[..n]| :: ids[..n][i]) + {ids[n]};
    }
  }

  lemma {:induction false} SubsetCardinality(a: set<nat>, b: set<nat>)
    requires a <= b
    ensures |a| <= |b|
  {
    if a != {} {
      var x :| x in a;
      SubsetCardinality(a - {x}, b - {x});
    }
  }

  /** Generation fails closed: an error becomes the apology with no sources. */
  lemma GenerationErrorFailsClosed(relevant: seq<Db.ScoredChunk>, files: seq<DocumentFile>,
                                   history: seq<Turn>, query: string, generate: Generator)
    requires |relevant| > 0
    requires generate(AnswerRequest(relevant, history, query)).GenerateThrown?
    ensures AnswerFrom(relevant, files, history, query, generate).0 == Answer(Apology, [])
  {
  }

  /** A successful generation answers with its text, or with the fixed fallback when the text
      is missing or empty, and cites the documents found. */
  lemma GenerationSuccess(relevant: seq<Db.ScoredChunk>, files: seq<DocumentFile>,
                          history: seq<Turn>, query: string, generate: Generator)
    requires |relevant| > 0
    requires generate(AnswerRequest(relevant, history, query)).GenerateReturned?
    ensures var text := generate(AnswerRequest(relevant, history, query)).text;
      var answer := AnswerFrom(relevant, files, history, query, generate).0;
      && answer.sources == SourceNames(files, relevant)
      && (text.None? || text.value == "" ==> answer.response == EmptyAnswer)
      && (text.Some? && text.value != "" ==> answer.response == text.value)
  {
  }
}
