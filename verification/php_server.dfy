/**
 The PHP server of index.php. `MessageManager` holds the log of one request: it
 loads the storage file when built and rewrites the whole file after every
 append. The request handlers in front of it validate a send and stamp it with
 the server's time. Every request builds a fresh manager, so the only state that
 outlives a request is the storage file, modelled here as `Storage`.
 */
module PhpServer {
  import opened ChatTypes
  import MessageLog

  /** The storage file as the manager sees it: missing, or present with content
      that either decodes to a message list or does not (`None`). */
  datatype Storage = Absent | Present(decoded: Option<seq<Message>>)

  /** loadMessages: the decoded list when there is one; the empty log when the
      file is missing or its content does not decode. */
  function Load(s: Storage): (log: seq<Message>)
    ensures (s == Absent || s == Present(None)) ==> log == []
    ensures s.Present? && s.decoded.Some? ==> log == s.decoded.value
  {
    match s
    case Absent => []
    case Present(d) => if d.Some? then d.value else []
  }

  /** saveMessages: rewrites the whole file with `log`, so that loading it again
      gives back `log`. A failed write (`writeOk` false) leaves the file as it
      was; the server only logs it. */
  function Save(s: Storage, log: seq<Message>, writeOk: bool): (r: Storage)
    ensures writeOk ==> Load(r) == log
    ensures !writeOk ==> r == s
  {
    if writeOk then Present(Some(log)) else s
  }

  /** PHP's `empty` on a request field: a missing field, "" and "0" are empty. */
  predicate IsEmptyField(v: Option<string>) {
    v == None || v == Some("") || v == Some("0")
  }

  /** The send handler's validation: the body decoded to an object whose
      username and message are both non-empty. */
  predicate SendAccepted(body: Option<Payload>) {
    body.Some? && !IsEmptyField(body.value.username) && !IsEmptyField(body.value.text)
  }

  const MissingFields: string := "Missing username or message"

  /** The request routing: a POST with `action=send` is a send, a GET with
      `action=messages` is a poll, and anything else gets the chat page. */
  datatype Action = SendAction | MessagesAction | PageAction

  function Route(verb: string, action: Option<string>): (a: Action)
    ensures a == SendAction <==> verb == "POST" && action == Some("send")
    ensures a == MessagesAction <==> verb == "GET" && action == Some("messages")
  {
    if verb == "POST" && action == Some("send") then SendAction
    else if verb == "GET" && action == Some("messages") then MessagesAction
    else PageAction
  }

  /** `action=send`: rejects a body without a username or message with 400 and
      leaves the file alone; otherwise loads the log, appends the message with
      the server's timestamp, saves, and answers success. The answer is success
      even when the write fails, and then the message is gone with the request. */
  function HandleSend(s: Storage, body: Option<Payload>, now: string, writeOk: bool): (r: (Reply, Storage))
    ensures r.0.Reply? && (r.0.status == 200 || r.0.status == 400)
    ensures r.0.status == 400 <==>
      || body.None?
      || body.value.username in {None, Some(""), Some("0")}
      || body.value.text in {None, Some(""), Some("0")}
    ensures r.0.status == 400 ==> r.0.body == StatusError(MissingFields) && r.1 == s
    ensures r.0.status == 200 ==> r.0.body == StatusSuccess
    ensures r.0.status == 200 && writeOk ==>
      var log := Load(r.1);
      && log == MessageLog.Append(Load(s), Stamp(body.value, now))
      && log[|log| - 1].timestamp == now
    ensures !writeOk ==> r.1 == s
    ensures writeOk && MessageLog.WithinCap(Load(s)) ==> MessageLog.WithinCap(Load(r.1))
  {
    if SendAccepted(body) then
      var log := MessageLog.Append(Load(s), Stamp(body.value, now));
      (Reply(200, StatusSuccess), Save(s, log, writeOk))
    else
      (Reply(400, StatusError(MissingFields)), s)
  }

  /** `action=messages`: the stored log, in stored order. */
  function HandleMessages(s: Storage): Reply {
    Reply(200, MessageList(Load(s)))
  }

  /** A successful send followed by a poll shows the old log with the new
      message, stamped by the server, at its tail. */
  lemma SendThenPollShowsMessage(s: Storage, p: Payload, now: string)
    requires SendAccepted(Some(p))
    ensures var shown := HandleMessages(HandleSend(s, Some(p), now, true).1).body.messages;
      && shown == MessageLog.Append(Load(s), Stamp(p, now))
      && shown[|shown| - 1] == Message(p.username, p.text, now, p.attachment)
  {
  }

  /** The `MessageManager` class as written: the log of one request and the
      file it mirrors. */
  class MessageManager {
    var messages: seq<Message>
    var storage: Storage

    predicate WithinCap()
      reads this
    {
      MessageLog.WithinCap(messages)
    }

    constructor (file: Storage)
      ensures messages == Load(file) && storage == file
    {
      messages := Load(file);
      storage := file;
    }

    method AddMessage(m: Message, writeOk: bool)
      modifies this
      ensures messages == MessageLog.Append(old(messages), m)
      ensures writeOk ==> Load(storage) == messages
      ensures !writeOk ==> storage == old(storage)
      ensures old(WithinCap()) ==> WithinCap()
    {
      messages := messages + [m];
      if |messages| > MessageLog.MaxMessages {
        messages := messages[1..];
      }
      storage := Save(storage, messages, writeOk);
    }

    method GetMessages() returns (r: seq<Message>)
      ensures r == messages
    {
      r := messages;
    }
  }

  /** The send handler written with a `MessageManager`, as the server does it;
      it answers and leaves the file exactly as `HandleSend` says. */
  method ServeSend(file: Storage, body: Option<Payload>, now: string, writeOk: bool)
    returns (reply: Reply, after: Storage)
    ensures (reply, after) == HandleSend(file, body, now, writeOk)
  {
    if SendAccepted(body) {
      var manager := new MessageManager(file);
      manager.AddMessage(Stamp(body.value, now), writeOk);
      reply := Reply(200, StatusSuccess);
      after := manager.storage;
    } else {
      reply := Reply(400, StatusError(MissingFields));
      after := file;
    }
  }

  /** The poll handler written with a `MessageManager`: it reports the loaded
      log and writes nothing. */
  method ServeMessages(file: Storage) returns (reply: Reply)
    ensures reply == HandleMessages(file)
  {
    var manager := new MessageManager(file);
    var log := manager.GetMessages();
    reply := Reply(200, MessageList(log));
  }

  /** One send request as it reaches the server, with the clock reading and
      the outcome of the file write it would cause. */
  datatype SendRequest = SendRequest(body: Option<Payload>, now: string, writeOk: bool)

  /** The file after a series of send requests, one after the other. */
  function SendAll(s: Storage, reqs: seq<SendRequest>): Storage
    decreases |reqs|
  {
    if reqs == [] then s
    else SendAll(HandleSend(s, reqs[0].body, reqs[0].now, reqs[0].writeOk).1, reqs[1..])
  }

  /** The stamped messages of the requests that pass validation, in order. */
  function AcceptedMessages(reqs: seq<SendRequest>): seq<Message>
    decreases |reqs|
  {
    if reqs == [] then []
    else
      var head := if SendAccepted(reqs[0].body) then [Stamp(reqs[0].body.value, reqs[0].now)] else [];
      head + AcceptedMessages(reqs[1..])
  }

  /** When every write succeeds, the file after a series of sends holds the old
      log with each accepted message appended in arrival order; rejected
      requests leave no trace. */
  lemma {:induction false} SendAllReplaysAccepted(s: Storage, reqs: seq<SendRequest>)
    requires forall i :: 0 <= i < |reqs| ==> reqs[i].writeOk
    ensures Load(SendAll(s, reqs)) == MessageLog.Replay(Load(s), AcceptedMessages(reqs))
    decreases |reqs|
  {
    if reqs != [] {
      var r := reqs[0];
      var next := HandleSend(s, r.body, r.now, r.writeOk).1;
      SendAllReplaysAccepted(next, reqs[1..]);
      if !SendAccepted(r.body) {
        assert AcceptedMessages(reqs) == AcceptedMessages(reqs[1..]);
      } else {
        var m := Stamp(r.body.value, r.now);
        assert AcceptedMessages(reqs) == [m] + AcceptedMessages(reqs[1..]);
        assert Load(next) == MessageLog.Append(Load(s), m);
      }
    }
  }

  /** Starting from a missing file, with every write succeeding, the file holds
      exactly the last `MaxMessages` accepted messages in arrival order. */
  lemma SendsFromNothingKeepLastWindow(reqs: seq<SendRequest>)
    requires forall i :: 0 <= i < |reqs| ==> reqs[i].writeOk
    ensures Load(SendAll(Absent, reqs)) == MessageLog.LastN(AcceptedMessages(reqs), MessageLog.MaxMessages)
    ensures MessageLog.WithinCap(Load(SendAll(Absent, reqs)))
  {
    SendAllReplaysAccepted(Absent, reqs);
    MessageLog.ReplayFromEmpty(AcceptedMessages(reqs));
  }
}
