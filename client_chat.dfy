/** The knowledge-base chat of a client (components/ClientChat.tsx): a message log that starts
    with a greeting and grows by one question and one answer per accepted send; each question is
    answered over the whole document base with the last few messages as history. Clock readings
    and the remote services are parameters. */
module ClientChat {
  import opened Outcomes
  import opened Types
  import opened Strings
  import Db
  import Gemini

  const ErrorText := "Tengo problemas para conectarme a la base de conocimientos en este momento."

  /** How many of the latest messages go with a question as history. */
  const HistoryWindow := 5

  function GreetingText(name: string): string {
    "\U{00A1}Hola " + name + "! Tengo acceso a la base de conocimientos de la empresa. "
    + "Preg\U{00FA}ntame cualquier cosa sobre los documentos."
  }

  /** The message the log starts with, from the model. */
  function Greeting(user: User, now: int): (m: ChatMessage)
    ensures m.role == ModelRole && m.relevantDocs.None?
  {
    ChatMessage(0, ModelRole, GreetingText(user.name), now, None)
  }

  /** A send goes ahead only for non-blank input while no answer is pending. */
  predicate Accepts(input: string, isTyping: bool) {
    !IsBlank(input) && !isTyping
  }

  function Question(input: string, sentAt: int): (m: ChatMessage)
    ensures m.role == UserRole && m.content == input && m.relevantDocs.None?
  {
    ChatMessage(0, UserRole, input, sentAt, None)
  }

  /** The model's message for the outcome of the knowledge-base call: the answer citing its
      sources, or the fixed error text citing nothing. */
  function Response(outcome: Result<Gemini.Answer>, repliedAt: int): (m: ChatMessage)
    ensures m.role == ModelRole
    ensures outcome.Ok? ==> m.content == outcome.value.response && m.relevantDocs == Some(outcome.value.sources)
    ensures outcome.Err? ==> m.content == ErrorText && m.relevantDocs.None?
  {
    match outcome
    case Ok(answer) => ChatMessage(0, ModelRole, answer.response, repliedAt, Some(answer.sources))
    case Err(_) => ChatMessage(0, ModelRole, ErrorText, repliedAt, None)
  }

  /** `messages.slice(-5)` turned into turns: the last (at most) five messages of the log, in
      order, each as a turn of its role holding its content. */
  function History(log: seq<ChatMessage>): (h: seq<Gemini.Turn>)
    ensures |h| == if |log| < HistoryWindow then |log| else HistoryWindow
    ensures forall i :: 0 <= i < |h| ==>
      h[i] == Gemini.Turn(log[|log| - |h| + i].role, [log[|log| - |h| + i].content])
  {
    var recent := if |log| < HistoryWindow then log else log[|log| - HistoryWindow..];
    seq(|recent|, i requires 0 <= i < |recent| => Gemini.Turn(recent[i].role, [recent[i].content]))
  }

  /** A log of the chat: the greeting first, then user and model messages alternating. */
  predicate Alternates(log: seq<ChatMessage>) {
    && |log| % 2 == 1
    && forall i :: 0 <= i < |log| ==> (log[i].role == UserRole <==> i % 2 == 1)
  }

  class ClientChat {
    const db: Db.Database
    var messages: seq<ChatMessage>
    var input: string
    var isTyping: bool

    ghost predicate Valid()
      reads this
    {
      Alternates(messages) && !isTyping
    }

    /** The chat as it shows for `user` once the greeting effect ran at clock reading `now`. */
    constructor (db: Db.Database, user: User, now: int)
      ensures this.db == db
      ensures messages == [Greeting(user, now)] && input == "" && !isTyping
      ensures Valid()
    {
      this.db := db;
      messages := [ChatMessage(0, ModelRole, GreetingText(user.name), now, None)];
      input := "";
      isTyping := false;
    }

    /** `handleSend()`: ignored for blank input or while an answer is pending; otherwise the
        question is logged and the input cleared, the knowledge base is asked with the last
        messages before the question as history, and the answer (or the error message) is
        logged. `retrieved` is the ranking the answer was built on. */
    method HandleSend(embed: Gemini.EmbedService, generate: Gemini.Generator, sim: Db.Similarity,
                      sentAt: int, repliedAt: int)
      returns (outcome: Result<Gemini.Answer>, ghost retrieved: seq<Db.ScoredChunk>)
      requires Valid() && db.Valid()
      modifies this
      ensures Valid()
      ensures !Accepts(old(input), old(isTyping)) ==> messages == old(messages) && input == old(input)
      ensures Accepts(old(input), old(isTyping)) ==>
        && input == ""
        && messages == old(messages) + [Question(old(input), sentAt), Response(outcome, repliedAt)]
      ensures Accepts(old(input), old(isTyping)) ==>
        var query := Gemini.GenerateEmbedding(embed, old(input));
        && (query.Err? ==> outcome.Err?)
        && (query.Ok? ==>
              && Db.IsTopK(retrieved, db.chunks, query.value, sim, Db.SliceEnd(|db.chunks|, Gemini.RetrievalLimit))
              && outcome == Ok(Gemini.AnswerFrom(retrieved, db.files, History(old(messages)), old(input), generate).0))
    {
      outcome, retrieved := Err(""), [];
      if IsBlank(input) || isTyping {
        return;
      }
      var userMsg := Question(input, sentAt);
      var history := History(messages);
      messages := messages + [userMsg];
      input := "";
      isTyping := true;

      var calls;
      outcome, retrieved, calls := Gemini.ChatWithKnowledgeBase(db, userMsg.content, history, embed, generate, sim);
      var botMsg := Response(outcome, repliedAt);
      ExchangeAlternates(old(messages), userMsg.content, sentAt, outcome, repliedAt);
      messages := messages + [botMsg];
      assert messages == old(messages) + [userMsg, botMsg];
      isTyping := false;
    }
  }

  /** An exchange keeps the log alternating. */
  lemma ExchangeAlternates(log: seq<ChatMessage>, input: string, sentAt: int,
                           outcome: Result<Gemini.Answer>, repliedAt: int)
    requires Alternates(log)
    ensures Alternates(log + [Question(input, sentAt), Response(outcome, repliedAt)])
  {
    var next := log + [Question(input, sentAt), Response(outcome, repliedAt)];
    forall i | 0 <= i < |next| ensures next[i].role == UserRole <==> i % 2 == 1 {
      if i < |log| {
        assert next[i] == log[i];
      }
    }
  }

  /** The history of a question never holds the question itself: it is taken from the log
      before the question, so after the exchange it ends three messages before the end. */
  lemma HistoryPrecedesQuestion(log: seq<ChatMessage>, question: ChatMessage, answer: ChatMessage)
    ensures var h := History(log);
      var next := log + [question, answer];
      forall i :: 0 <= i < |h| ==> h[i] == Gemini.Turn(next[|log| - |h| + i].role, [next[|log| - |h| + i].content])
  {
    var h := History(log);
    var next := log + [question, answer];
    forall i | 0 <= i < |h|
      ensures h[i] == Gemini.Turn(next[|log| - |h| + i].role, [next[|log| - |h| + i].content])
    {
      assert next[|log| - |h| + i] == log[|log| - |h| + i];
    }
  }

  /** Once the log holds a full window, one more message slides it: the oldest turn drops out
      and the new message's turn comes in last. */
  lemma HistorySlides(log: seq<ChatMessage>, m: ChatMessage)
    requires |log| >= HistoryWindow
    ensures History(log + [m]) == History(log)[1..] + [Gemini.Turn(m.role, [m.content])]
  {
    var next := log + [m];
    var a := History(next);
    var b := History(log)[1..] + [Gemini.Turn(m.role, [m.content])];
    assert |a| == |b|;
    forall i | 0 <= i < |a| ensures a[i] == b[i] {
      if i < |a| - 1 {
        assert next[|next| - |a| + i] == log[|log| - HistoryWindow + i + 1];
      }
    }
  }
}
