/**
 The decision logic of the browser client in js/chat.js: whether a polled log
 differs from what is on screen, the time throttle in front of each poll, and
 the guard that decides whether a send may go out.
 */
module ChatClient {
  import opened ChatTypes

  // ---------------------------------------------------------------------------
  // Comparing the rendered log with a polled one
  // ---------------------------------------------------------------------------

  /** One message as it is on screen: the text content of its timestamp,
      username and message-text elements. */
  datatype Rendered = Rendered(timestamp: string, username: string, text: string)

  /** A rendered entry shows a polled message when all three texts equal the
      message's fields. A field the message lacks never equals a text, as
      `undefined` is never strictly equal to a string. */
  predicate Shows(e: Rendered, m: Message) {
    && e.timestamp == m.timestamp
    && Some(e.username) == m.username
    && Some(e.text) == m.text
  }

  /** Reference definition: the screen is out of date when the lengths differ or
      some common index shows a different message. */
  predicate OutOfDate(existing: seq<Rendered>, data: seq<Message>) {
    || |existing| != |data|
    || exists i :: 0 <= i < |existing| && !Shows(existing[i], data[i])
  }

  /** needsUpdate: the length check, then a scan for the first index whose
      three fields disagree. */
  method NeedsUpdate(existing: seq<Rendered>, data: seq<Message>) returns (r: bool)
    ensures r <==> OutOfDate(existing, data)
    ensures !r ==> |existing| == |data| && forall i :: 0 <= i < |data| ==> Shows(existing[i], data[i])
  {
    if |existing| != |data| {
      return true;
    }
    var i := 0;
    while i < |existing|
      invariant 0 <= i <= |existing|
      invariant forall k :: 0 <= k < i ==> Shows(existing[k], data[k])
    {
      var e := existing[i];
      var m := data[i];
      if e.timestamp != m.timestamp || Some(e.username) != m.username || Some(e.text) != m.text {
        return true;
      }
      i := i + 1;
    }
    return false;
  }

  /** The redraw decision of fetchMessages: the count check it makes before
      calling `needsUpdate` adds nothing, so it redraws exactly when the screen
      is out of date. */
  method ShouldRedraw(existing: seq<Rendered>, data: seq<Message>) returns (redraw: bool)
    ensures redraw <==> OutOfDate(existing, data)
  {
    if |existing| != |data| {
      redraw := true;
    } else {
      redraw := NeedsUpdate(existing, data);
    }
  }

  /** Two polled logs that agree on every timestamp, username and text (their
      attachments may differ) are out of date against the same screens. */
  lemma AttachmentsIgnored(existing: seq<Rendered>, data: seq<Message>, data': seq<Message>)
    requires |data| == |data'|
    requires forall i :: 0 <= i < |data| ==>
      && data[i].timestamp == data'[i].timestamp
      && data[i].username == data'[i].username
      && data[i].text == data'[i].text
    ensures OutOfDate(existing, data) <==> OutOfDate(existing, data')
  {
  }

  // ---------------------------------------------------------------------------
  // The poll throttle
  // ---------------------------------------------------------------------------

  /** Milliseconds that must pass between two throttled polls. */
  const PollInterval: int := 2000

  /** The outcome of one timer tick: the new `lastPollTime` and whether a fetch
      was issued. */
  datatype PollStep = PollStep(lastPollTime: int, fetched: bool)

  /** pollMessages at clock reading `now`: skips, changing nothing, when less
      than `PollInterval` has passed since `lastPollTime`; otherwise records
      `now` and issues one fetch. */
  function Poll(lastPollTime: int, now: int): (r: PollStep)
    ensures r.fetched <==> now - lastPollTime >= PollInterval
    ensures r.fetched ==> r.lastPollTime == now
    ensures !r.fetched ==> r.lastPollTime == lastPollTime
  {
    if now - lastPollTime < PollInterval then PollStep(lastPollTime, false)
    else PollStep(now, true)
  }

  /** Reference definition: the clock readings at which the throttle issues a
      fetch over a series of timer ticks, starting from `lastPollTime`. Each
      tick goes through `Poll`, so a tick fetches exactly when it is due. */
  function Fetches(lastPollTime: int, ticks: seq<int>): seq<int>
    decreases |ticks|
  {
    if ticks == [] then []
    else
      var step := Poll(lastPollTime, ticks[0]);
      (if step.fetched then [ticks[0]] else []) + Fetches(step.lastPollTime, ticks[1..])
  }

  /** One tick of `Fetches`: the fetch that tick issues, if any, joins those
      already issued, and the later ticks start from the `lastPollTime` it
      leaves. */
  lemma FetchesStep(start: int, ticks: seq<int>, done: seq<int>, lastPollTime: int, i: nat)
    requires i < |ticks|
    requires done + Fetches(lastPollTime, ticks[i..]) == Fetches(start, ticks)
    ensures var step := Poll(lastPollTime, ticks[i]);
      var done' := if step.fetched then done + [ticks[i]] else done;
      done' + Fetches(step.lastPollTime, ticks[i + 1..]) == Fetches(start, ticks)
  {
    var step := Poll(lastPollTime, ticks[i]);
    var rest := Fetches(step.lastPollTime, ticks[i + 1..]);
    assert ticks[i..][1..] == ticks[i + 1..];
    if step.fetched {
      assert Fetches(lastPollTime, ticks[i..]) == [ticks[i]] + rest;
      assert done + ([ticks[i]] + rest) == done + [ticks[i]] + rest;
    } else {
      assert Fetches(lastPollTime, ticks[i..]) == [] + rest;
    }
  }

  /** Throttled fetches are spaced: the first comes at least `PollInterval`
      after the starting `lastPollTime`, and each later one at least
      `PollInterval` after the one before, whatever the tick times. */
  lemma {:induction false} FetchesSpaced(lastPollTime: int, ticks: seq<int>)
    ensures var f := Fetches(lastPollTime, ticks);
      && (|f| > 0 ==> f[0] - lastPollTime >= PollInterval)
      && (forall k :: 0 < k < |f| ==> f[k] - f[k - 1] >= PollInterval)
    decreases |ticks|
  {
    if ticks != [] {
      var step := Poll(lastPollTime, ticks[0]);
      FetchesSpaced(step.lastPollTime, ticks[1..]);
    }
  }

  /** `fetches` is an in-order selection of `ticks[..i]`, and `at` holds the
      index of the tick each one was taken from. */
  predicate Selected(ticks: seq<int>, i: nat, fetches: seq<int>, at: seq<nat>) {
    && |at| == |fetches| <= i <= |ticks|
    && (forall k :: 0 <= k < |at| ==> at[k] < i && fetches[k] == ticks[at[k]])
    && (forall k :: 0 < k < |at| ==> at[k - 1] < at[k])
  }

  /** Moving past one more tick keeps a selection, whether or not that tick is
      taken. */
  lemma SelectedExtend(ticks: seq<int>, i: nat, fetches: seq<int>, at: seq<nat>)
    requires Selected(ticks, i, fetches, at) && i < |ticks|
    ensures Selected(ticks, i + 1, fetches, at)
    ensures Selected(ticks, i + 1, fetches + [ticks[i]], at + [i])
  {
  }

  /** The state of the timer loop after the ticks before `i`: the fetches issued
      so far, followed by those the remaining ticks issue from `last`, are all
      of `Fetches(start, ticks)`; they were selected from the ticks in order;
      and `last` is the latest of them, or `start` before the first. */
  predicate Progress(start: int, ticks: seq<int>, i: nat, last: int, fetches: seq<int>, at: seq<nat>) {
    && i <= |ticks|
    && fetches + Fetches(last, ticks[i..]) == Fetches(start, ticks)
    && Selected(ticks, i, fetches, at)
    && last == if fetches == [] then start else fetches[|fetches| - 1]
  }

  /** One tick of the timer loop keeps `Progress`. */
  lemma ProgressStep(start: int, ticks: seq<int>, i: nat, last: int, fetches: seq<int>, at: seq<nat>)
    requires Progress(start, ticks, i, last, fetches, at) && i < |ticks|
    ensures var step := Poll(last, ticks[i]);
      if step.fetched then Progress(start, ticks, i + 1, step.lastPollTime, fetches + [ticks[i]], at + [i])
      else Progress(start, ticks, i + 1, step.lastPollTime, fetches, at)
  {
    FetchesStep(start, ticks, fetches, last, i);
    SelectedExtend(ticks, i, fetches, at);
  }

  /** Before the first tick nothing has been fetched and `last` is `start`. */
  lemma ProgressInit(start: int, ticks: seq<int>)
    ensures Progress(start, ticks, 0, start, [], [])
  {
    assert ticks[0..] == ticks;
  }

  /** After the last tick the fetches issued are all of `Fetches(start, ticks)`. */
  lemma ProgressDone(start: int, ticks: seq<int>, last: int, fetches: seq<int>, at: seq<nat>)
    requires Progress(start, ticks, |ticks|, last, fetches, at)
    ensures fetches == Fetches(start, ticks)
  {
    assert ticks[|ticks|..] == [];
    assert fetches + [] == fetches;
  }

  /** The timer loop of the throttle: each tick goes through `Poll`, starting
      from `lastPollTime == start`. Returns the final `lastPollTime`, the clock
      readings at which fetches were issued, and the indices of the ticks that
      issued them. */
  method ThrottleTicks(start: int, ticks: seq<int>) returns (last: int, fetches: seq<int>, at: seq<nat>)
    ensures fetches == Fetches(start, ticks)
    ensures Selected(ticks, |ticks|, fetches, at)
    ensures last == if fetches == [] then start else fetches[|fetches| - 1]
  {
    last := start;
    fetches := [];
    at := [];
    var i := 0;
    ProgressInit(start, ticks);
    while i < |ticks|
      invariant i <= |ticks|
      invariant Progress(start, ticks, i, last, fetches, at)
    {
      var step := Poll(last, ticks[i]);
      ProgressStep(start, ticks, i, last, fetches, at);
      if step.fetched {
        fetches := fetches + [ticks[i]];
        at := at + [i];
      }
      last := step.lastPollTime;
      i := i + 1;
    }
    ProgressDone(start, ticks, last, fetches, at);
  }

  /** The throttle over a series of timer ticks, starting from `lastPollTime ==
      start`. The fetches are exactly those of `Fetches`, so every due tick
      fetches and no other does. They are an in-order selection of the ticks,
      `at` giving the index of the tick behind each. The first is at least
      `PollInterval` after `start`, and any two consecutive ones are at least
      `PollInterval` apart, whatever the tick times. `last` is the final
      `lastPollTime`. */
  method RunPolls(start: int, ticks: seq<int>) returns (last: int, fetches: seq<int>, at: seq<nat>)
    ensures fetches == Fetches(start, ticks)
    ensures |at| == |fetches| <= |ticks|
    ensures forall k :: 0 <= k < |at| ==> at[k] < |ticks| && fetches[k] == ticks[at[k]]
    ensures forall k :: 0 < k < |at| ==> at[k - 1] < at[k]
    ensures |fetches| > 0 ==> fetches[0] - start >= PollInterval
    ensures forall k :: 0 < k < |fetches| ==> fetches[k] - fetches[k - 1] >= PollInterval
    ensures last == if fetches == [] then start else fetches[|fetches| - 1]
  {
    last, fetches, at := ThrottleTicks(start, ticks);
    FetchesSpaced(start, ticks);
  }

  // ---------------------------------------------------------------------------
  // The send guard
  // ---------------------------------------------------------------------------

  /** The characters String.prototype.trim removes: the WhiteSpace and
      LineTerminator code points of the ECMAScript language specification
      (tab, vertical tab, form feed, the space separators of Unicode category
      Zs, the byte order mark, line feed, carriage return, and the line and
      paragraph separators). */
  const WhiteSpace: set<char> := {
    '\t', '\U{000B}', '\U{000C}', ' ', '\U{00A0}', '\U{FEFF}', '\U{1680}',
    '\U{2000}', '\U{2001}', '\U{2002}', '\U{2003}', '\U{2004}', '\U{2005}',
    '\U{2006}', '\U{2007}', '\U{2008}', '\U{2009}', '\U{200A}',
    '\U{202F}', '\U{205F}', '\U{3000}',
    '\n', '\r', '\U{2028}', '\U{2029}'
  }

  predicate IsWhiteSpace(c: char) {
    c in WhiteSpace
  }

  predicate AllWhiteSpace(s: string) {
    forall k :: 0 <= k < |s| ==> IsWhiteSpace(s[k])
  }

  /** How many characters at the start of `s` are white space: the count is
      followed by a character that is not, or by the end of `s`. */
  function LeadingBlanks(s: string): (n: nat)
    ensures n <= |s|
    ensures forall k :: 0 <= k < n ==> IsWhiteSpace(s[k])
    ensures n < |s| ==> !IsWhiteSpace(s[n])
  {
    if s == [] || !IsWhiteSpace(s[0]) then 0 else 1 + LeadingBlanks(s[1..])
  }

  /** How many characters at the end of `s` are white space: the count is
      preceded by a character that is not, or by the start of `s`. */
  function TrailingBlanks(s: string): (n: nat)
    ensures n <= |s|
    ensures forall k :: |s| - n <= k < |s| ==> IsWhiteSpace(s[k])
    ensures n < |s| ==> !IsWhiteSpace(s[|s| - 1 - n])
  {
    if s == [] || !IsWhiteSpace(s[|s| - 1]) then 0 else 1 + TrailingBlanks(s[..|s| - 1])
  }

  /** The white space `Trim` drops at the start: it is all white space, and it
      is all of `s` exactly when `s` is all white space. */
  lemma LeadingCut(s: string)
    ensures var lead := LeadingBlanks(s);
      && AllWhiteSpace(s[..lead])
      && (lead == |s| <==> AllWhiteSpace(s))
  {
    var lead := LeadingBlanks(s);
    assert forall k :: 0 <= k < lead ==> s[..lead][k] == s[k];
  }

  /** The white space `Trim` drops at the end, counted in what is left after
      `lead` characters, is all white space. */
  lemma TrailingCut(s: string, lead: nat)
    requires lead <= |s|
    ensures AllWhiteSpace(s[|s| - TrailingBlanks(s[lead..])..])
  {
    var rest := s[lead..];
    var trail := TrailingBlanks(rest);
    var tail := s[|s| - trail..];
    forall k | 0 <= k < |tail|
      ensures IsWhiteSpace(tail[k])
    {
      assert tail[k] == rest[|rest| - trail + k];
    }
  }

  /** That trailing white space stops short of a character at `lead` that is
      not white space, and the character before it is not white space. */
  lemma TrailingStop(s: string, lead: nat)
    requires lead <= |s|
    ensures var trail := TrailingBlanks(s[lead..]);
      && (lead < |s| && !IsWhiteSpace(s[lead]) ==> lead + trail < |s|)
      && (lead + trail < |s| ==> !IsWhiteSpace(s[|s| - 1 - trail]))
  {
    var rest := s[lead..];
    var trail := TrailingBlanks(rest);
    if lead < |s| && !IsWhiteSpace(s[lead]) {
      assert rest[0] == s[lead];
      assert trail < |rest|;
    }
    if lead + trail < |s| {
      assert s[|s| - 1 - trail] == rest[|rest| - 1 - trail];
    }
  }

  /** String.prototype.trim: the piece of `s` left after dropping the white
      space at both ends. Everything dropped is white space and the piece
      neither starts nor ends with it, so it is empty exactly when `s` is all
      white space. */
  function Trim(s: string): (r: string)
    ensures r == [] <==> AllWhiteSpace(s)
    ensures r == [] || (!IsWhiteSpace(r[0]) && !IsWhiteSpace(r[|r| - 1]))
    ensures var lead := LeadingBlanks(s);
      && lead + |r| <= |s|
      && r == s[lead..lead + |r|]
      && AllWhiteSpace(s[..lead])
      && AllWhiteSpace(s[lead + |r|..])
  {
    var lead := LeadingBlanks(s);
    var trail := TrailingBlanks(s[lead..]);
    LeadingCut(s);
    TrailingCut(s, lead);
    TrailingStop(s, lead);
    s[lead..|s| - trail]
  }

  /** The form a send posts: the trimmed username and message, and whether a
      file is attached. */
  datatype FormData = FormData(username: string, message: string, hasFile: bool)

  /** sendMessage's guard: no send when the username is blank, or when the
      message is blank and no file is chosen; otherwise the trimmed fields go
      out. Blank means empty after trimming, that is, all white space. */
  function PrepareSend(username: string, message: string, hasFile: bool): (r: Option<FormData>)
    ensures r.None? <==> AllWhiteSpace(username) || (AllWhiteSpace(message) && !hasFile)
    ensures r.Some? ==> r.value == FormData(Trim(username), Trim(message), hasFile)
    ensures r.Some? ==> r.value.username != [] && (r.value.message != [] || hasFile)
  {
    var name := Trim(username);
    var text := Trim(message);
    if name == [] || (text == [] && !hasFile) then None
    else Some(FormData(name, text, hasFile))
  }
}
