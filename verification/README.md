# LAN chat: the bounded message log, its request handlers and the client's decisions

A small LAN chat keeps one ordered log of messages, capped at 100 entries. A
send appends the message at the tail, stamped with the server's clock, and
drops the head when the count passes the cap. A poll returns the log in stored
order. The repository implements the server twice: a PHP version (`index.php`,
class `MessageManager`), which keeps the log in a storage file and reloads it on
every request, and a Python version (`chat-website.py`), which keeps it in one
process-wide list. The browser client (`js/chat.js`) makes three decisions of
its own. It decides whether a polled log differs from what is on screen. It
throttles polls to one every two seconds. It refuses a send whose trimmed
username is empty, or whose trimmed message is empty when no file is attached.

The Dafny project has five modules:

- `ChatTypes` (`chat_types.dfy`): the request payload, the stored message, the
  replies, and `Stamp`, which replaces the client's timestamp with the server's.
- `MessageLog` (`message_log.dfy`): the append-then-evict operation. It is
  related to an independent "last n entries" window (`LastN`), and through a
  fold over a series of sends (`Replay`) it is shown to keep exactly the most
  recent 100 entries in arrival order.
- `PhpServer` (`php_server.dfy`): loading and saving the storage file, the
  `empty()` validation (under which `"0"` counts as empty), routing, the send
  and poll handlers, the `MessageManager` class as written, and the behaviour
  of the file over a series of requests.
- `PyServer` (`py_server.dfy`): `do_GET` and `do_POST` over the process-wide
  list, and the list after a series of POSTs.
- `ChatClient` (`chat_client.dfy`): `needsUpdate` as a loop checked against a
  reference predicate, the redraw decision, the poll throttle and its spacing
  guarantee, JavaScript `trim`, and the send guard.

The clock is a parameter (`now`, the formatted time text; in the client, an
integer of milliseconds). The storage file is a value of `PhpServer.Storage`:
absent, or present with content that decodes to a message list or does not.
Whether a write succeeds is a parameter (`writeOk`). A request body that is not
a JSON object is `None`.

Some behaviours of the code that are easy to miss:

- Both servers evict one entry per append, so a stored log that is already over
  the cap stays over it (`MessageLog.OversizedLogNotRepaired`).
- After a failed write the PHP server still answers success. Its in-memory log
  lasts one request, so the message is lost (`PhpServer.HandleSend`).
- The Python server does not validate: a body without a username or message is
  stored and answered with success (`PyServer.HandlePost`).
- chat-website.py reads the body as JSON, and a body that is not a JSON object
  makes its handler raise without answering. js/chat.js posts multipart forms,
  so it was written for a later version of that server.

## Model

| member | source | states |
|---|---|---|
| `ChatTypes.Stamp` | index.php:53 | the stored message carries the server's `now` as its timestamp, whatever the client sent, and keeps the username, message and attachment as sent |
| `MessageLog.Append` | index.php:33-37 | the new message is at the tail; the result is the old log plus the message with at most its head dropped; below the cap it grows by one, at or above the cap its length is kept; a log within the cap stays within it and equals the last 100 of old log plus message |
| `MessageLog.AppendEvictsOldest` | index.php:35-36 | when the cap is reached, exactly the oldest entry leaves: every other entry moves down one place unchanged, and the multiset of entries loses `log[0]` and gains the new message |
| `MessageLog.LastNAbsorbsPrefix` | index.php:34-36 | trimming to the last n entries before appending more gives the same window as trimming afterwards, the step that makes repeated eviction equal to one window |
| `MessageLog.ReplayKeepsMostRecent` | index.php:33-37 | after any series of sends a log within the cap stays within it and holds exactly the last 100 of the old entries followed by the sends, in arrival order |
| `MessageLog.ManySendsKeepLastWindow` | chat-website.py:119-123 | after more than 100 sends from empty the log has exactly 100 entries, the last 100 sends in order, the first being send number n-100 |
| `MessageLog.OneOverCapDropsFirstSend` | chat-website.py:122-123 | after 101 sends from empty, 100 entries remain, the first is the second message sent, and a first message distinct from the rest is gone |
| `MessageLog.OversizedLogNotRepaired` | index.php:35-36 | a loaded log over the cap keeps its length through any series of sends, since one append evicts only one entry |
| `PhpServer.Load` | index.php:13-23 | a missing file or content that does not decode loads as the empty log; decodable content loads as the decoded list |
| `PhpServer.Save` | index.php:25-31 | a successful save rewrites the whole file so that loading it gives back exactly the in-memory log; a failed save leaves the file as it was |
| `PhpServer.Route` | index.php:47-69 | a request is a send exactly when it is a POST with action `send`, a poll exactly when it is a GET with action `messages`, and the page otherwise |
| `PhpServer.HandleSend` | index.php:47-61 | status is 400 exactly when the body is not an object or its username or message is missing, `""` or `"0"`, and then the file is untouched; otherwise status 200 with success, and on a good write the file holds the old log with the stamped message appended and the cap kept; on a failed write the file is unchanged and the reply is still success |
| `PhpServer.SendThenPollShowsMessage` | index.php:64-69 | a poll after an accepted send shows the old log with the message, stamped with the server time, at its tail |
| `PhpServer.MessageManager.AddMessage` | index.php:33-39 | the manager's log becomes the bounded append of the message, the file mirrors it after a good write and is unchanged after a failed one, and the cap is kept |
| `PhpServer.MessageManager.GetMessages` | index.php:41-43 | returns the current log unchanged and modifies nothing |
| `PhpServer.ServeSend` | index.php:50-59 | the send handler built on a `MessageManager` answers and leaves the file exactly as `HandleSend` describes |
| `PhpServer.ServeMessages` | index.php:64-68 | the poll handler built on a `MessageManager` answers exactly as `HandleMessages`, 200 with the loaded log, and writes nothing |
| `PhpServer.SendAllReplaysAccepted` | index.php:50-55 | over a series of send requests with good writes, the file holds the old log with exactly the accepted messages appended in arrival order; rejected requests leave no trace |
| `PhpServer.SendsFromNothingKeepLastWindow` | index.php:13-38 | from a missing file, after any series of sends with good writes, the file holds exactly the last `MAX_MESSAGES` accepted messages in order, and never more than the cap |
| `PyServer.HandleGet` | chat-website.py:11-108 | `/messages` answers 200 with the log in stored order, `/` answers 200 with the page, any other path gets no answer; the log cannot change |
| `PyServer.HandlePost` | chat-website.py:110-128 | a POST to `/send` with an object body, validated or not, appends it stamped with the server time, evicting at 100, and always answers 200 with success; any other POST leaves the log unchanged and gets no answer; a log of at most 100 stays at most 100 |
| `PyServer.PostAllReplaysAnswered` | chat-website.py:115-123 | a series of POSTs appends exactly the answered messages, in arrival order, each through the bounded append |
| `PyServer.PostsFromStartKeepLastWindow` | chat-website.py:8-123 | from the initial empty list, after any series of POSTs the list is exactly the last 100 answered messages in arrival order, and with more than 100 its first entry is answered message n-100 |
| `ChatClient.NeedsUpdate` | js/chat.js:67-87 | true exactly when the lengths differ or some common index disagrees on timestamp, username or text; false means equal length and every index agrees on all three |
| `ChatClient.ShouldRedraw` | js/chat.js:154-158 | the redraw test (count differs or `needsUpdate`) is true exactly when the screen is out of date, so the extra count check changes nothing |
| `ChatClient.AttachmentsIgnored` | js/chat.js:80-84 | polled logs that agree on timestamp, username and text at every index are out of date against the same screens, whatever their image or file fields |
| `ChatClient.Poll` | js/chat.js:89-97 | a fetch is issued exactly when at least 2000 ms have passed since `lastPollTime`; then `lastPollTime` becomes `now`, otherwise it is unchanged |
| `ChatClient.RunPolls` | js/chat.js:89-97 | over any series of timer ticks, the fetches are exactly those of the tick-by-tick reference `Fetches`, so every due tick fetches and no other does; they are an in-order selection of the ticks, the first at least 2000 ms after the start and consecutive ones at least 2000 ms apart; the final `lastPollTime` is the last fetch time, or the start if none |
| `ChatClient.FetchesSpaced` | js/chat.js:92-95 | for every starting `lastPollTime` and series of ticks, the throttled fetches come at least 2000 ms after the start and at least 2000 ms after each other |
| `ChatClient.LeadingBlanks` | js/chat.js:167 | counts the leading white space: all counted characters are white space and the next one is not |
| `ChatClient.TrailingBlanks` | js/chat.js:168 | counts the trailing white space: all counted characters are white space and the one before them is not |
| `ChatClient.Trim` | js/chat.js:167-168 | the result is a contiguous piece of the input with only white space dropped at either end and none left at its ends; it is empty exactly when the input is all white space |
| `ChatClient.PrepareSend` | js/chat.js:166-185 | the send is refused exactly when the username is all white space, or the message is all white space and no file is chosen; otherwise the form carries the trimmed fields and a non-empty username |

## Left out

- JSON encoding and decoding and the file reads and writes are not modelled.
  Storage is the abstract `Storage` value. `Save` followed by `Load` is taken to
  give back the same list, which assumes the JSON codec is faithful. A file whose
  content decodes to a JSON scalar is not modelled. For `null` the `?? []` at
  index.php:17 gives the empty log, which the model covers as content that does
  not decode. For `false` the manager holds `false`, so a poll answers `false`,
  and the next append turns it into a one-element log, as from the empty log.
  For a number, `true` or a string, the next append raises an error in PHP 8.
- `PhpServer.Save`: a failed write is modelled as leaving the file unchanged. A
  write that truncates the file and then fails is not modelled.
- Request fields are modelled as missing or a string. JSON numbers, booleans
  and arrays in `username` or `message`, and how PHP's `empty` treats them, are
  not modelled. Neither are client fields other than username, message,
  timestamp and attachment, which both servers store as sent.
- The clock (`date('H:i:s')`, `datetime.now()`, `Date.now()`) is a parameter.
  The `HH:MM:SS` formatting is not modelled.
- Concurrency is not modelled. The Python `TCPServer` handles one request at a
  time. PHP requests each load, append and save without a lock, so two
  overlapping sends could lose one of them; the model runs requests one after
  another.
- HTTP framing is not modelled: request lines, headers, `Content-Length`, and
  writing the response. A Python handler that raises is modelled as `NoReply`
  with the log unchanged.
- Presentation is not modelled: the HTML pages and the inline scripts of
  `index.php` and `chat-website.py` (their own `fetchMessages`, their untrimmed
  send guard, `copyMessage`). From `js/chat.js`, neither are
  `createMessageElement`, `scrollToBottom`, `copyMessage`, `showCopySuccess`,
  `fallbackCopy`, `updateProgressBar`, `setupFileUpload`, `setupPasteListener`
  or `init`.
- `ChatClient.NeedsUpdate` takes the rendered entries as their text content. How
  the HTML built by `createMessageElement` parses into text content, for
  instance for a message containing markup, is not modelled.
- The unthrottled `fetchMessages` calls at start-up (js/chat.js:225) and after
  a successful send (js/chat.js:203) are not part of the throttle model; they
  neither read nor update `lastPollTime`.
- `formatFileSize` is not modelled: it uses floating-point division and
  `toFixed`.
- Attachment upload, paste handling and generated file names
  (js/chat.js:250-273) are not modelled: they are browser File APIs. No server
  code for them is part of this model. The attachment fields are only carried
  along in `Message`.
- `sendFormData` and the XHR request are not modelled; `PrepareSend` returns
  the form that would be posted.
