/** Data model of the dialogue graph (internal/bot/bot.go) and of the outbound
    directives the renderer produces instead of Telegram calls. */
module Types {

  datatype Option<T> = None | Some(value: T)

  /** Telegram chat identifier (int64 in the source; only compared for equality here). */
  type ChatId = int

  /** One part of a state's message. `sleep` is the pause, in seconds, taken
      after this part and before the next one. */
  datatype MessagePart = MessagePart(text: string, sleep: real)

  /** A reply-keyboard button, matched by its label. */
  datatype QuickReply = QuickReply(text: string, nextState: string)

  datatype QuickReplyRow = QuickReplyRow(buttons: seq<QuickReply>)

  /** An inline button; when `requiresPremium` holds, non-premium users are sent
      to `fallbackState` instead of `nextState`. */
  datatype Button = Button(text: string, nextState: string, requiresPremium: bool, fallbackState: string)

  /** A node of the dialogue graph, as decoded from a state file. */
  datatype State = State(
    message: seq<MessagePart>,
    buttons: seq<Button>,
    images: seq<string>,
    audio: seq<string>,
    quickReplies: seq<QuickReplyRow>)

  /** The zero value of State, returned by a failed lookup. */
  const EmptyState := State([], [], [], [], [])

  /** An inline keyboard button as sent: its label and its callback payload. */
  datatype KeyButton = KeyButton(text: string, data: string)

  /** An inline keyboard: a sequence of rows. */
  type Keyboard = seq<seq<KeyButton>>

  /** What the engine asks the transport to do, in order. */
  datatype Directive =
    | Delay(seconds: real)
    | Photo(path: string, caption: string, markup: Option<Keyboard>)
    | Text(text: string, markup: Option<Keyboard>)

  /** The answer of the premium lookup for the chat being served. */
  datatype PremiumCheck = Premium(isPremium: bool) | CheckFailed
}
