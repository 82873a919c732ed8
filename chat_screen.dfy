/** The single-document chat screen (components/ChatScreen.tsx): a message log that starts with a
    welcome and grows by one question and one answer per accepted send. Clock readings are
    parameters. */
module ChatScreen {
  import opened Outcomes
  import opened Types
  import opened Strings
  import GeminiService

  const ErrorText :=
    "Sorry, I encountered an error communicating with Gemini. Please check your connection or API key."

  function WelcomeText(fileName: string): string {
    "Hello! I've analyzed **" + fileName + "**. You can now ask me any questions about its content."
  }

  /** The message the log starts with. */
  function WelcomeMessage(file: UploadedFile, now: int): (m: Message)
    ensures m.id == Welcome && m.sender == BotSender && !m.isError
  {
    Message(Welcome, WelcomeText(file.name), BotSender, now, false)
  }

  /** A send goes ahead only for non-blank input while no answer is pending. */
  predicate Accepts(input: string, isTyping: bool) {
    !IsBlank(input) && !isTyping
  }

  /** The user's message for a send at clock reading `sentAt`. */
  function Question(input: string, sentAt: int): (m: Message)
    ensures m.sender == UserSender && m.text == input && !m.isError && m.id == Stamp(sentAt)
  {
    Message(Stamp(sentAt), input, UserSender, sentAt, false)
  }

  /** The bot's message for the outcome of the chat call: the reply text, or the fixed error
      text flagged as an error. Its id is one past the clock reading. */
  function Response(outcome: Result<string>, repliedAt: int): (m: Message)
    ensures m.sender == BotSender && m.id == Stamp(repliedAt + 1)
    ensures m.isError <==> outcome.Err?
    ensures m.text == (if outcome.Ok? then outcome.value else ErrorText)
  {
    match outcome
    case Ok(text) => Message(Stamp(repliedAt + 1), text, BotSender, repliedAt, false)
    case Err(_) => Message(Stamp(repliedAt + 1), ErrorText, BotSender, repliedAt, true)
  }

  /** A log of the screen: the welcome first, then user and bot messages alternating, so that
      every question is followed by its answer. */
  predicate Alternates(log: seq<Message>) {
    && |log| % 2 == 1
    && log[0].id == Welcome
    && forall i :: 0 <= i < |log| ==> (log[i].sender == UserSender <==> i % 2 == 1)
  }

  class ChatScreen {
    var messages: seq<Message>
    var inputValue: string
    var isTyping: bool

    ghost predicate Valid()
      reads this
    {
      Alternates(messages) && !isTyping
    }

    /** The screen as it mounts for `file`, at clock reading `now`. */
    constructor (file: UploadedFile, now: int)
      ensures messages == [WelcomeMessage(file, now)] && inputValue == "" && !isTyping
      ensures Valid()
    {
      messages := [Message(Welcome, WelcomeText(file.name), BotSender, now, false)];
      inputValue := "";
      isTyping := false;
    }

    /** `handleSendMessage()`: ignored for blank input or while an answer is pending; otherwise
        the question is logged, the input cleared, the document chat asked, and its answer (or
        the error message) logged. The clock is read at `sentAt` and again at `repliedAt`. */
    method HandleSendMessage(chat: GeminiService.DocumentChat, send: GeminiService.ChatService,
                             sentAt: int, repliedAt: int)
      requires Valid()
      modifies this
      ensures Valid()
      ensures !Accepts(old(inputValue), old(isTyping)) ==> messages == old(messages) && inputValue == old(inputValue)
      ensures Accepts(old(inputValue), old(isTyping)) ==>
        && inputValue == ""
        && messages == old(messages) + [Question(old(inputValue), sentAt),
                                        Response(GeminiService.Reply(chat.session, old(inputValue), send), repliedAt)]
    {
      if IsBlank(inputValue) || isTyping {
        return;
      }
      var userMsg := Question(inputValue, sentAt);
      ExchangeAlternates(messages, inputValue, sentAt, GeminiService.Reply(chat.session, inputValue, send), repliedAt);
      messages := messages + [userMsg];
      inputValue := "";
      isTyping := true;

      var responseText := chat.SendMessageToGemini(userMsg.text, send);
      var botMsg := Response(responseText, repliedAt);
      messages := messages + [botMsg];
      assert messages == old(messages) + [userMsg, botMsg];
      isTyping := false;
    }
  }

  /** An exchange keeps the log alternating: the question lands at an odd position and its
      answer right after it. */
  lemma ExchangeAlternates(log: seq<Message>, input: string, sentAt: int, outcome: Result<string>, repliedAt: int)
    requires Alternates(log)
    ensures Alternates(log + [Question(input, sentAt), Response(outcome, repliedAt)])
  {
    var next := log + [Question(input, sentAt), Response(outcome, repliedAt)];
    forall i | 0 <= i < |next| ensures next[i].sender == UserSender <==> i % 2 == 1 {
      if i < |log| {
        assert next[i] == log[i];
      }
    }
  }

  /** In an alternating log every user message is answered by the bot message after it, and
      the log ends with a bot message. */
  lemma {:induction false} EveryQuestionAnswered(log: seq<Message>, i: nat)
    requires Alternates(log) && i < |log| && log[i].sender == UserSender
    ensures i + 1 < |log| && log[i + 1].sender == BotSender
    ensures log[|log| - 1].sender == BotSender
  {
    assert i % 2 == 1;
    assert |log| % 2 == 1;
    assert log[i + 1].sender != UserSender;
  }
}
