/**
  The slice of the Telegram API the bot uses, as values: chats, messages,
  callback queries, inline buttons and keyboards, and the outbound calls
  (`Effect`) the handlers make. Sending and deleting are not performed; a
  handler returns the calls it makes, in order.
 */
module Telegram {
  import opened Wrappers

  datatype ChatKind = Private | Group | Supergroup | Channel

  datatype Chat = Chat(id: int, kind: ChatKind)

  /** An incoming message; `text` is `None` for messages without text. */
  datatype Message = Message(chat: Chat, messageId: int, text: Option<string>)

  /** Chat and id of the message that carries a pressed button. */
  datatype MessageRef = MessageRef(chatId: int, messageId: int)

  /** A pressed inline button: `message` is `None` for inline-mode messages. */
  datatype CallbackQuery = CallbackQuery(id: string, data: Option<string>, message: Option<MessageRef>)

  /** An inline button that opens a URL or sends callback data back to the bot. */
  datatype Button = UrlButton(text: string, url: string) | CallbackButton(text: string, data: string)

  /** A call the bot makes to Telegram; every send uses HTML parse mode. */
  datatype Effect =
    | DeleteMessage(chatId: int, messageId: int)
    | SendPhoto(chatId: int, photo: string, caption: string, markup: seq<seq<Button>>)
    | SendText(chatId: int, text: string, markup: seq<seq<Button>>)
    | AnswerCallback(callbackId: string, text: string)

  /** An inline keyboard under construction: `InlineKeyboardMarkup` and its rows of buttons. */
  class Keyboard {
    var rows: seq<seq<Button>>

    constructor ()
      ensures rows == []
    {
      rows := [];
    }

    /** `kb.add(button)`: a single button goes on a new row of its own. */
    method Add(b: Button)
      modifies this
      ensures rows == old(rows) + [[b]]
    {
      rows := rows + [[b]];
    }
  }
}
