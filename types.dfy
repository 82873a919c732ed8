/** The records the application stores and passes around (types.ts). Declarations only. */
module Types {
  import opened Outcomes

  datatype Role = Admin | Client

  /** A stored user. `passwordHash` holds the typed password verbatim. */
  datatype User = User(id: nat, name: string, email: string, passwordHash: string, role: Role, createdAt: int)

  /** An uploaded document's metadata; `content` is absent until extraction finishes. */
  datatype DocumentFile = DocumentFile(
    id: nat, name: string, mimeType: string, size: nat, uploadDate: int, processed: bool, content: Option<string>)

  /** One embedded span of a document's text. */
  datatype DocumentChunk = DocumentChunk(id: nat, documentId: nat, text: string, embedding: seq<real>)

  /** The author of a knowledge-base chat message: 'user' or 'model'. */
  datatype ChatRole = UserRole | ModelRole

  /** A message of the knowledge-base chat; `relevantDocs` holds the cited document names. */
  datatype ChatMessage = ChatMessage(
    sessionId: int, role: ChatRole, content: string, timestamp: int, relevantDocs: Option<seq<string>>)

  datatype AppRoute = RoleSelection | Login | Register | AdminDashboard | ClientDashboard

  /** A file picked for the single-document chat; `data` is the file read as a data URL. */
  datatype UploadedFile = UploadedFile(name: string, mimeType: string, size: nat, data: string)

  datatype Sender = UserSender | BotSender

  /** The id of a single-document chat message: the literal 'welcome', or the decimal string
      of a clock reading. */
  datatype MessageId = Welcome | Stamp(millis: int)

  /** A message of the single-document chat; an absent `isError` is false. */
  datatype Message = Message(id: MessageId, text: string, sender: Sender, timestamp: int, isError: bool)
}
