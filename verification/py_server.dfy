/**
 The Python server of chat-website.py. It keeps the log in one module-level
 list that lives as long as the process; `do_POST` on `/send` stamps the body
 with the server's time, appends it and drops the head past 100 entries, and
 `do_GET` on `/messages` returns the list. Unlike the PHP server it does not
 validate the username or message at all.
 */
module PyServer {
  import opened ChatTypes
  import MessageLog

  /** do_GET: the page for `/`, the log in stored order for `/messages`, and no
      answer at all for any other path. The log is an input only, so a GET
      cannot change it. */
  function HandleGet(log: seq<Message>, path: string): (r: Reply)
    ensures path == "/" ==> r == Reply(200, ChatPage)
    ensures path == "/messages" <==> r.Reply? && r.body.MessageList?
    ensures r.Reply? && r.body.MessageList? ==> r == Reply(200, MessageList(log))
    ensures r.NoReply? <==> path != "/" && path != "/messages"
  {
    if path == "/" then Reply(200, ChatPage)
    else if path == "/messages" then Reply(200, MessageList(log))
    else NoReply
  }

  /** do_POST: on `/send` with a body that decodes to a JSON object, appends the
      body with the server's timestamp, evicting the head past the cap, and
      answers 200 with a success status. A body that is not a JSON object makes
      the handler raise before it touches the list, and any other path is
      ignored; either way nothing is answered and the log is unchanged. */
  function HandlePost(log: seq<Message>, path: string, body: Option<Payload>, now: string)
    : (r: (seq<Message>, Reply))
    ensures r.1.Reply? <==> path == "/send" && body.Some?
    ensures r.1.Reply? ==> r.1 == Reply(200, StatusSuccess)
    ensures r.1.Reply? ==>
      && r.0 == MessageLog.Append(log, Stamp(body.value, now))
      && r.0[|r.0| - 1].timestamp == now
    ensures r.1.NoReply? ==> r.0 == log
    ensures MessageLog.WithinCap(log) ==> MessageLog.WithinCap(r.0)
  {
    if path == "/send" && body.Some? then
      var grown := log + [Stamp(body.value, now)];
      var kept := if |grown| > 100 then grown[1..] else grown;
      (kept, Reply(200, StatusSuccess))
    else
      (log, NoReply)
  }

  /** One POST as it reaches the server, with the clock reading at that time. */
  datatype Post = Post(path: string, body: Option<Payload>, now: string)

  /** The log after a series of POSTs, one after the other. */
  function PostAll(log: seq<Message>, posts: seq<Post>): seq<Message>
    decreases |posts|
  {
    if posts == [] then log
    else PostAll(HandlePost(log, posts[0].path, posts[0].body, posts[0].now).0, posts[1..])
  }

  /** The stamped messages of the POSTs the handler answers, in order. */
  function AnsweredMessages(posts: seq<Post>): seq<Message>
    decreases |posts|
  {
    if posts == [] then []
    else
      var p := posts[0];
      var head := if p.path == "/send" && p.body.Some? then [Stamp(p.body.value, p.now)] else [];
      head + AnsweredMessages(posts[1..])
  }

  /** A series of POSTs appends exactly the answered ones, in arrival order, each
      through the bounded log's append. */
  lemma {:induction false} PostAllReplaysAnswered(log: seq<Message>, posts: seq<Post>)
    ensures PostAll(log, posts) == MessageLog.Replay(log, AnsweredMessages(posts))
    decreases |posts|
  {
    if posts != [] {
      var p := posts[0];
      var next := HandlePost(log, p.path, p.body, p.now).0;
      PostAllReplaysAnswered(next, posts[1..]);
      if p.path == "/send" && p.body.Some? {
        assert AnsweredMessages(posts) == [Stamp(p.body.value, p.now)] + AnsweredMessages(posts[1..]);
      } else {
        assert AnsweredMessages(posts) == AnsweredMessages(posts[1..]);
      }
    }
  }

  /** From the empty list the server starts with, after any series of POSTs the
      list holds exactly the last 100 answered messages in arrival order; with
      more than 100 of them, its first entry is answered message number
      `n - 100`, counting from zero. */
  lemma PostsFromStartKeepLastWindow(posts: seq<Post>)
    ensures var log := PostAll([], posts);
      && log == MessageLog.LastN(AnsweredMessages(posts), MessageLog.MaxMessages)
      && |log| <= 100
    ensures var sent := AnsweredMessages(posts);
      |sent| > 100 ==> PostAll([], posts)[0] == sent[|sent| - 100]
  {
    PostAllReplaysAnswered([], posts);
    MessageLog.ReplayFromEmpty(AnsweredMessages(posts));
  }
}
