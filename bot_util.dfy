/**
 * Helpers shared by the bot's commands (`mensabot/bot/util.py`,
 * `stwno-bot/stwno_bot/util.py`): looking up the chat row behind a message,
 * cutting the command words out of a message to get its arguments, and what
 * a failing command answers.
 */
module BotUtil {
  import opened Common
  import opened Chats

  // ---------------------------------------------------------------------------
  // chat_record

  /**
   * What `chat_record` is handed: a sent message, an update carrying a
   * message, a plain chat id, or any other value, known here by its `%s` text.
   */
  datatype ChatRef = OfMessage(msg: Message) | OfUpdate(msg: Message) | OfId(id: int) | OfOther(text: string)

  /** The chat id behind a reference; anything that is not an int is a `ValueError`. */
  function ChatId(ref: ChatRef): (r: Result<int>)
    ensures r.Ok? <==> !ref.OfOther?
    ensures (ref.OfMessage? || ref.OfUpdate?) ==> r == Ok(ref.msg.chatId)
    ensures ref.OfId? ==> r == Ok(ref.id)
    ensures ref.OfOther? ==> r == Err(ValueError("ID '" + ref.text + "' is not an int."))
  {
    match ref
    case OfMessage(m) => Ok(m.chatId)
    case OfUpdate(m) => Ok(m.chatId)
    case OfId(id) => Ok(id)
    case OfOther(text) => Err(ValueError("ID '" + text + "' is not an int."))
  }

  /** `chat_record`: the row of the chat, `None` when the chat has none. */
  function ChatRecord(chats: ChatTable, ref: ChatRef): (r: Result<Option<ChatRow>>)
    reads chats
    ensures r.Err? <==> ref.OfOther?
    ensures r.Err? ==> r.error.ValueError?
    ensures r.Ok? ==> (r.value.Some? <==> ChatId(ref).value in chats.rows)
    ensures r.Ok? && r.value.Some? ==> r.value.value == chats.rows[ChatId(ref).value]
  {
    match ChatId(ref)
    case Err(e) => Err(e)
    case Ok(id) => Ok(chats.Record(id))
  }

  /** A message, an update carrying it and its chat id all find the same row. */
  lemma ChatRecordOfMessage(chats: ChatTable, m: Message)
    ensures ChatRecord(chats, OfMessage(m)) == ChatRecord(chats, OfUpdate(m)) == ChatRecord(chats, OfId(m.chatId))
    ensures ChatRecord(chats, OfMessage(m)).Ok?
  {
  }

  // ---------------------------------------------------------------------------
  // get_args

  /** The Telegram entity type of a command word. */
  const BotCommand: string := "bot_command"

  /** A marked-up span of a message: its type, and where it starts and how long it is in the original text. */
  datatype Entity = Entity(kind: string, offset: nat, length: nat)

  function Min(a: int, b: int): int
  {
    if a < b then a else b
  }

  /** `text[:offset] + text[offset + length:]`, with Python's clamping of slice bounds. */
  function Cut(text: string, offset: nat, length: nat): (r: string)
    ensures |r| == |text| - (Min(offset + length, |text|) - Min(offset, |text|))
    ensures offset >= |text| || length == 0 ==> r == text
    ensures forall i :: 0 <= i < Min(offset, |text|) ==> r[i] == text[i]
    ensures forall i :: Min(offset, |text|) <= i < |r| ==> r[i] == text[i + Min(offset + length, |text|) - Min(offset, |text|)]
  {
    var a := Min(offset, |text|);
    var b := Min(offset + length, |text|);
    text[..a] + text[b..]
  }

  /**
   * The text once every command entity has been cut out, in the order of
   * the entities. Each cut uses the entity's offset into the original text,
   * even after an earlier cut has shortened it.
   */
  function WithoutCommands(text: string, entities: seq<Entity>): string
    decreases |entities|
  {
    if entities == [] then text
    else
      var e := entities[0];
      WithoutCommands(if e.kind == BotCommand then Cut(text, e.offset, e.length) else text, entities[1..])
  }

  /** Cutting only ever removes characters. */
  lemma {:induction false} WithoutCommandsShortens(text: string, entities: seq<Entity>)
    ensures |WithoutCommands(text, entities)| <= |text|
    decreases |entities|
  {
    if entities != [] {
      var e := entities[0];
      WithoutCommandsShortens(if e.kind == BotCommand then Cut(text, e.offset, e.length) else text, entities[1..]);
    }
  }

  /** Entities that are not commands (links, mentions, bold text) leave the text alone. */
  lemma {:induction false} WithoutCommandsIgnoresOthers(text: string, entities: seq<Entity>)
    requires forall i :: 0 <= i < |entities| ==> entities[i].kind != BotCommand
    ensures WithoutCommands(text, entities) == text
    decreases |entities|
  {
    if entities != [] {
      WithoutCommandsIgnoresOthers(text, entities[1..]);
    }
  }

  /**
   * `get_args`: the message text with each command entity cut out, stripped
   * and split on single spaces.
   */
  method GetArgs(text: string, entities: seq<Entity>) returns (args: seq<string>)
    ensures args == Split(Strip(WithoutCommands(text, entities)), ' ')
    ensures |args| >= 1
  {
    var t := text;
    for i := 0 to |entities|
      invariant WithoutCommands(t, entities[i..]) == WithoutCommands(text, entities)
    {
      var e := entities[i];
      assert entities[i..][0] == e && entities[i..][1..] == entities[i + 1..];
      if e.kind == BotCommand {
        var a := if e.offset < |t| then e.offset else |t|;
        var b := if e.offset + e.length < |t| then e.offset + e.length else |t|;
        t := t[..a] + t[b..];
      }
    }
    assert entities[|entities|..] == [];
    args := Split(Strip(t), ' ');
  }

  /** A message that starts with its command: the arguments are the words after it. */
  lemma CommandThenWords(command: string, rest: string)
    ensures WithoutCommands(command + rest, [Entity(BotCommand, 0, |command|)]) == rest
  {
    var c := Cut(command + rest, 0, |command|);
    assert |c| == |rest|;
    assert forall i :: 0 <= i < |c| ==> c[i] == rest[i];
  }

  // ---------------------------------------------------------------------------
  // ComHandlerFunc

  /** The class of the exception a command raised. */
  datatype Failure = ConnectionError | Timeout | OtherFailure

  const NetworkProblems: string := "I got network problems, please try again later! \U{1F622}"
  const MasterIFailed: string := "Master, I failed! \U{1F622}"

  /** What the wrapper does about a command's outcome: the apology it sends, and the exception it lets escape. */
  datatype Wrapped = Wrapped(apology: Option<(int, string)>, raised: Option<Failure>)

  /**
   * `func_wrapper`: a command that returns is left alone; one that raises
   * gets an apology in its chat, the network one exactly for
   * `requests`' `ConnectionError` and `Timeout`, and the exception is
   * raised again.
   */
  function WrapCommand(chatId: int, outcome: Option<Failure>): (r: Wrapped)
    ensures r.raised == outcome
    ensures r.apology.Some? <==> outcome.Some?
    ensures r.apology.Some? ==> r.apology.value.0 == chatId
    ensures r.apology.Some? ==>
      (r.apology.value.1 == NetworkProblems <==> outcome.value == ConnectionError || outcome.value == Timeout)
    ensures r.apology.Some? ==> r.apology.value.1 == NetworkProblems || r.apology.value.1 == MasterIFailed
  {
    assert |NetworkProblems| != |MasterIFailed|;
    match outcome
    case None => Wrapped(None, None)
    case Some(f) =>
      var text := if f == ConnectionError || f == Timeout then NetworkProblems else MasterIFailed;
      Wrapped(Some((chatId, text)), Some(f))
  }
}
