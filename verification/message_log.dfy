/**
 The bounded FIFO message log both servers keep: a new message goes to the tail,
 and when that takes the count past the cap the head is dropped. The log is
 generic in the element type; the servers instantiate it with `ChatTypes.Message`.
 */
module MessageLog {

  /** The retention cap: `MAX_MESSAGES` in the PHP server and the literal 100 in
      the Python server. */
  const MaxMessages: nat := 100

  predicate WithinCap<T>(log: seq<T>) {
    |log| <= MaxMessages
  }

  /** Reference definition of a retention window: the last `n` entries of `xs`,
      or all of them when there are fewer. */
  function LastN<T>(xs: seq<T>, n: nat): seq<T> {
    if |xs| <= n then xs else xs[|xs| - n..]
  }

  /** Append-then-evict: adds `m` at the tail and, if the count then exceeds the
      cap, removes the single entry at the head. A log that was already over the
      cap is not repaired: it keeps its length. */
  function Append<T>(log: seq<T>, m: T): (r: seq<T>)
    ensures |log| < MaxMessages ==> |r| == |log| + 1
    ensures MaxMessages <= |log| ==> |r| == |log|
    ensures 0 < |r| && r[|r| - 1] == m
    ensures r == (log + [m])[|log| + 1 - |r|..]
    ensures WithinCap(log) ==> WithinCap(r) && r == LastN(log + [m], MaxMessages)
  {
    var grown := log + [m];
    if |grown| > MaxMessages then grown[1..] else grown
  }

  /** At or above the cap exactly the oldest entry leaves: every other entry
      moves down one place unchanged, and the multiset of entries loses `log[0]`
      and gains `m`. */
  lemma AppendEvictsOldest<T>(log: seq<T>, m: T)
    requires MaxMessages <= |log|
    ensures var r := Append(log, m);
      && (forall i :: 0 <= i < |log| - 1 ==> r[i] == log[i + 1])
      && multiset(r) + multiset{log[0]} == multiset(log) + multiset{m}
  {
    var r := Append(log, m);
    assert log == [log[0]] + log[1..];
    assert r == log[1..] + [m];
  }

  /** The log after a series of sends, in arrival order, each one appended with
      `Append`. */
  function Replay<T>(log: seq<T>, sends: seq<T>): seq<T>
    decreases |sends|
  {
    if sends == [] then log else Replay(Append(log, sends[0]), sends[1..])
  }

  /** Keeping the last `n` entries of a sequence and then adding more entries
      keeps the same window as adding them to the whole sequence. */
  lemma LastNAbsorbsPrefix<T>(a: seq<T>, b: seq<T>, c: seq<T>, n: nat)
    requires a == LastN(b, n)
    ensures LastN(a + c, n) == LastN(b + c, n)
  {
  }

  /** Appending the first send and then the rest leaves the same window as
      adding all the sends to the whole log. */
  lemma AppendThenRest<T>(log: seq<T>, sends: seq<T>)
    requires WithinCap(log) && sends != []
    ensures LastN(Append(log, sends[0]) + sends[1..], MaxMessages) == LastN(log + sends, MaxMessages)
  {
    LastNAbsorbsPrefix(Append(log, sends[0]), log + [sends[0]], sends[1..], MaxMessages);
    assert log + [sends[0]] + sends[1..] == log + sends;
  }

  /** Cap invariant and retention: a log within the cap, after any number of
      sends, holds exactly the most recent `MaxMessages` of the old entries
      followed by the sends, in arrival order. */
  lemma {:induction false} ReplayKeepsMostRecent<T>(log: seq<T>, sends: seq<T>)
    requires WithinCap(log)
    ensures Replay(log, sends) == LastN(log + sends, MaxMessages)
    ensures WithinCap(Replay(log, sends))
    decreases |sends|
  {
    if sends == [] {
      assert log + sends == log;
    } else {
      ReplayKeepsMostRecent(Append(log, sends[0]), sends[1..]);
      AppendThenRest(log, sends);
    }
  }

  /** From an empty log, any series of sends leaves the last `MaxMessages` of
      them. */
  lemma ReplayFromEmpty<T>(sends: seq<T>)
    ensures Replay([], sends) == LastN(sends, MaxMessages)
    ensures WithinCap(Replay([], sends))
  {
    var empty: seq<T> := [];
    assert empty + sends == sends;
    ReplayKeepsMostRecent(empty, sends);
  }

  /** From an empty log, more than `MaxMessages` sends leave exactly the last
      `MaxMessages` of them; the oldest retained one is send number
      `|sends| - MaxMessages` (counting from zero). */
  lemma ManySendsKeepLastWindow<T>(sends: seq<T>)
    requires MaxMessages < |sends|
    ensures var r := Replay([], sends);
      && |r| == MaxMessages
      && r == sends[|sends| - MaxMessages..]
      && r[0] == sends[|sends| - MaxMessages]
  {
    ReplayFromEmpty(sends);
  }

  /** The scenario of 101 distinct sends: 100 entries are shown, and the first
      one is the second message sent. */
  lemma OneOverCapDropsFirstSend<T>(sends: seq<T>)
    requires |sends| == MaxMessages + 1
    ensures |Replay([], sends)| == MaxMessages
    ensures Replay([], sends)[0] == sends[1]
    ensures (forall i :: 0 < i < |sends| ==> sends[i] != sends[0]) ==> sends[0] !in Replay([], sends)
  {
    ManySendsKeepLastWindow(sends);
  }

  /** A log that was loaded over the cap stays over it: each append evicts one
      entry and adds one. */
  lemma {:induction false} OversizedLogNotRepaired<T>(log: seq<T>, sends: seq<T>)
    requires MaxMessages < |log|
    ensures |Replay(log, sends)| == |log|
    decreases |sends|
  {
    if sends != [] {
      OversizedLogNotRepaired(Append(log, sends[0]), sends[1..]);
    }
  }
}
