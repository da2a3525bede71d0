/**
 The data shared by both chat servers and the browser client: a send request as
 the server decodes it, a message as the log stores it, and the replies a request
 handler can produce.
 */
module ChatTypes {

  datatype Option<+T> = None | Some(value: T)

  /** The optional attachment fields a stored message may carry. The client
      renders them but never compares them. */
  datatype Attachment =
    | NoAttachment
    | Image(src: string)
    | File(href: string, preview: Option<string>)

  /** A decoded send request: a JSON object whose fields are whatever the client
      put there. A field the client left out is `None`. */
  datatype Payload = Payload(
    username: Option<string>,
    text: Option<string>,
    timestamp: Option<string>,
    attachment: Attachment)

  /** A message as it sits in the log. The timestamp is always present, because
      the server writes it; the other fields are copied from the request. */
  datatype Message = Message(
    username: Option<string>,
    text: Option<string>,
    timestamp: string,
    attachment: Attachment)

  datatype ReplyBody =
    | ChatPage
    | MessageList(messages: seq<Message>)
    | StatusSuccess
    | StatusError(reason: string)

  /** What a request handler writes back. `NoReply` is a handler that returns
      without writing a response, or one that raised before writing it. */
  datatype Reply = Reply(status: nat, body: ReplyBody) | NoReply

  /** Turns an accepted request into the message to store: the server's clock
      reading `now` replaces whatever timestamp the client sent, and every other
      field is kept as sent. */
  function Stamp(p: Payload, now: string): (m: Message)
    ensures m.timestamp == now
    ensures m.username == p.username && m.text == p.text
    ensures m.attachment == p.attachment
  {
    Message(p.username, p.text, now, p.attachment)
  }
}
