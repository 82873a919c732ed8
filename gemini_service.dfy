/** The single-document chat client (services/geminiService.ts): one chat session primed with
    the uploaded file, and questions sent to it. The chat service is a parameter. */
module GeminiService {
  import opened Outcomes
  import opened Types
  import opened Strings

  const ModelId := "gemini-2.5-flash"
  const Marker := "base64,"
  const SystemPrompt :=
    "You are DocuMind, an intelligent document assistant. The user has uploaded a file. "
    + "Your task is to answer questions strictly based on the content of this file. "
    + "If the answer is not in the file, politely state that you cannot find the information. "
    + "Be concise, professional, and helpful."
  const FilePrompt := "Here is the file I want to discuss. Please analyze it and confirm you are ready."
  const ReadyReply := "I have analyzed the file and I am ready to answer your questions about it."
  const NotInitialized := "Chat session not initialized"
  const NoTextReply := "I processed that, but I didn't have a text response."

  /** A part of a turn: the file inline, or text. */
  datatype Part = InlineData(mimeType: string, data: string) | Text(text: string)

  datatype SessionTurn = SessionTurn(role: ChatRole, parts: seq<Part>)

  /** What `ai.chats.create` was given: the model, the system instruction and the primed history. */
  datatype ChatSession = ChatSession(model: string, systemInstruction: string, history: seq<SessionTurn>)

  /** What `sendMessage` did: threw, or returned a response whose `text` may be missing. */
  datatype SendReply = SendThrown(message: string) | SendReturned(text: Option<string>)

  /** The chat capability: the reply a session gives to a message. */
  type ChatService = (ChatSession, string) -> SendReply

  /** The file data without its data-URL prefix: the piece after the first "base64,", up to a
      second one if any; data without the marker is kept as it is. */
  function StripDataUrl(data: string): string {
    if Contains(data, Marker) then SecondPiece(data, Marker).value else data
  }

  /** The session `initializeChatWithFile` creates for a file. */
  function SessionFor(file: UploadedFile): ChatSession {
    ChatSession(ModelId, SystemPrompt, [
      SessionTurn(UserRole, [InlineData(file.mimeType, StripDataUrl(file.data)), Text(FilePrompt)]),
      SessionTurn(ModelRole, [Text(ReadyReply)])
    ])
  }

  /** The module-level `chatSession`. */
  class DocumentChat {
    var session: Option<ChatSession>

    constructor ()
      ensures session.None?
    {
      session := None;
    }

    /** `initializeChatWithFile(file)`: replaces any previous session by one primed with the file. */
    method InitializeChatWithFile(file: UploadedFile)
      modifies this
      ensures session == Some(SessionFor(file))
    {
      session := Some(SessionFor(file));
    }

    /** `sendMessageToGemini(text)`. */
    method SendMessageToGemini(text: string, send: ChatService) returns (r: Result<string>)
      ensures r == Reply(session, text, send)
    {
      r := Reply(session, text, send);
    }
  }

  /** What asking `session` about `text` settles with: an error without a session, the
      service's own error when it throws, and otherwise its text, a missing or empty one being
      replaced by a fixed reply. */
  function Reply(session: Option<ChatSession>, text: string, send: ChatService): (r: Result<string>)
    ensures session.None? ==> r == Err(NotInitialized)
    ensures session.Some? && send(session.value, text).SendThrown? ==> r == Err(send(session.value, text).message)
    ensures session.Some? && send(session.value, text).SendReturned? ==> r.Ok? && r.value != ""
    ensures session.Some? && send(session.value, text).SendReturned? ==>
      var reply := send(session.value, text).text;
      (reply.Some? && reply.value != "" ==> r == Ok(reply.value)) && (reply.None? || reply.value == "" ==> r == Ok(NoTextReply))
  {
    if session.None? then Err(NotInitialized)
    else match send(session.value, text)
      case SendThrown(message) => Err(message)
      case SendReturned(reply) => Ok(if reply.Some? && reply.value != "" then reply.value else NoTextReply)
  }

  /** The data sent inline never contains the marker: either it had none, or the piece taken
      stops before the next one. */
  lemma StrippedHasNoMarker(data: string)
    ensures !Contains(StripDataUrl(data), Marker)
  {
    if Contains(data, Marker) {
      SecondPieceHasNoSeparator(data, Marker);
    }
  }

  /** A data URL `<header>base64,<payload>` with the marker only there gives back the payload. */
  lemma StripDataUrlOfDataUrl(header: string, payload: string)
    requires forall k :: 0 <= k < |header| ==> !OccursAt(header + Marker + payload, Marker, k)
    requires !Contains(payload, Marker)
    ensures StripDataUrl(header + Marker + payload) == payload
  {
    var s := header + Marker + payload;
    assert OccursAt(s, Marker, |header|) by {
      assert s[|header|..|header| + |Marker|] == Marker;
    }
    SecondPieceOfSingle(header, Marker, payload);
  }

  /** Data without the marker is sent as it is. */
  lemma StripDataUrlWithoutMarker(data: string)
    requires !Contains(data, Marker)
    ensures StripDataUrl(data) == data
  {
  }
}
