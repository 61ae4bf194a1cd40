/** The server-sent event stream of one run: a cursor that pages through a growing event log. */
module EventStream {
  import opened Text
  import opened Workbench

  const PAGE := 500

  function After(log: seq<Event>, cursor: nat): seq<Event> {
    if log == [] then []
    else After(Front(log), cursor) + if Last(log).sequence > cursor then [Last(log)] else []
  }

  /** `SELECT ... WHERE sequence > ? ORDER BY sequence LIMIT 500`. */
  function ListEvents(log: seq<Event>, cursor: nat): seq<Event> {
    var rows := After(log, cursor);
    if |rows| <= PAGE then rows else rows[..PAGE]
  }

  lemma {:induction false} AfterIsSuffix(log: seq<Event>, cursor: nat)
    requires Numbered(log)
    ensures After(log, cursor) == log[Min(cursor, |log|)..]
    decreases |log|
  {
    if log != [] {
      AfterIsSuffix(Front(log), cursor);
      SuffixGrows(log, Min(cursor, |log| - 1), Min(cursor, |log|));
    }
  }

  lemma SuffixGrows(log: seq<Event>, from: nat, whole: nat)
    requires log != [] && from <= |log| - 1
    requires whole == from || (from == |log| - 1 && whole == |log|)
    ensures log[whole..] == Front(log)[from..] + if whole < |log| then [Last(log)] else []
  {
  }

  /** One page is the next stretch of the log, at most 500 long. */
  lemma PageIsStretch(log: seq<Event>, committed: nat, cursor: nat)
    requires Numbered(log) && committed <= |log|
    ensures var from := Min(cursor, committed);
      ListEvents(log[..committed], cursor) == log[from..Min(from + PAGE, committed)]
  {
    AfterIsSuffix(log[..committed], cursor);
  }

  /** What the database holds at the three reads of one round of the loop. */
  datatype Poll = Poll(atList: nat, atStatus: nat, terminal: bool, atFinal: nat)

  /** The log only grows from read to read. */
  predicate Monotone(polls: seq<Poll>, total: nat) {
    && (forall k :: 0 <= k < |polls| ==> polls[k].atList <= polls[k].atStatus <= polls[k].atFinal <= total)
    && (forall k :: 0 < k < |polls| ==> polls[k - 1].atStatus <= polls[k].atList)
  }

  /** Emitting a page: the cursor follows the last event. */
  method Emit(page: seq<Event>, cursor0: nat, emitted0: seq<Event>) returns (cursor: nat, emitted: seq<Event>)
    ensures emitted == emitted0 + page
    ensures cursor == if page == [] then cursor0 else Last(page).sequence
  {
    cursor, emitted := cursor0, emitted0;
    for k := 0 to |page|
      invariant emitted == emitted0 + page[..k]
      invariant cursor == if k == 0 then cursor0 else page[k - 1].sequence
    {
      cursor := page[k].sequence;
      emitted := emitted + [page[k]];
    }
    assert page[..|page|] == page;
  }

  /** The events emitted so far are those right after `afterSequence`, without gap or repeat. */
  predicate Stretch(log: seq<Event>, afterSequence: nat, emitted: seq<Event>) {
    emitted == [] || (afterSequence + |emitted| <= |log| && emitted == log[afterSequence..afterSequence + |emitted|])
  }

  lemma StretchNone(log: seq<Event>, afterSequence: nat)
    ensures Stretch(log, afterSequence, [])
  {
  }

  lemma EmitPage(log: seq<Event>, afterSequence: nat, emitted: seq<Event>, committed: nat)
    requires Numbered(log) && committed <= |log| && Stretch(log, afterSequence, emitted)
    ensures var cursor := afterSequence + |emitted|;
            var page := ListEvents(log[..committed], cursor);
      && Stretch(log, afterSequence, emitted + page)
      && (page != [] ==> Last(page).sequence == cursor + |page|)
      && cursor + |page| == Max(cursor, Min(cursor + PAGE, committed))
  {
    hide ListEvents, Stretch;
    var cursor := afterSequence + |emitted|;
    PageIsStretch(log, committed, cursor);
    if cursor < committed {
      var end := Min(cursor + PAGE, committed);
      assert Last(log[cursor..end]) == log[end - 1];
      hide Numbered;
      StretchGrows(log, afterSequence, emitted, end);
    } else {
      assert emitted + [] == emitted;
    }
  }

  lemma StretchGrows(log: seq<Event>, afterSequence: nat, emitted: seq<Event>, end: nat)
    requires Stretch(log, afterSequence, emitted) && afterSequence + |emitted| <= end <= |log|
    ensures Stretch(log, afterSequence, emitted + log[afterSequence + |emitted|..end])
  {
    var middle := afterSequence + |emitted|;
    assert log[afterSequence..end] == log[afterSequence..middle] + log[middle..end];
  }

  lemma ReachedNone(polls: seq<Poll>, afterSequence: nat)
    requires polls == []
    ensures Reached(polls, afterSequence) == afterSequence
  {
  }

  lemma ReachedNext(polls: seq<Poll>, k: nat, afterSequence: nat)
    requires k < |polls|
    ensures var cursor := Reached(polls[..k], afterSequence);
      Reached(polls[..k + 1], afterSequence) == Max(cursor, Min(cursor + PAGE, polls[k].atList))
  {
    assert Front(polls[..k + 1]) == polls[..k];
  }

  /** The generator, run for any finite number of rounds. `stop` is the round it ended in, the first with a terminal
      status and nothing left to send. It emits afterSequence+1, afterSequence+2, ... without gap or repeat, a page of
      what was committed in every round, and one more page at the end; and when it ends, it has emitted everything
      committed before its terminal status read exactly if at most 500 events came between the empty page and that
      read. */
  method EventGenerator(log: seq<Event>, polls: seq<Poll>, afterSequence: nat)
    returns (emitted: seq<Event>, stop: Option<nat>)
    requires Numbered(log) && Monotone(polls, |log|)
    ensures Stretch(log, afterSequence, emitted)
    ensures stop.Some? ==> Ending(polls, stop.value, afterSequence)
    ensures forall j :: 0 <= j < (if stop.Some? then stop.value else |polls|) ==> !Ending(polls, j, afterSequence)
    ensures stop.None? ==> afterSequence + |emitted| == Reached(polls, afterSequence)
    ensures stop.Some? ==>
      var cursor := Reached(polls[..stop.value], afterSequence);
      afterSequence + |emitted| == Max(cursor, Min(cursor + PAGE, polls[stop.value].atFinal))
    ensures stop.Some? ==>
      var poll := polls[stop.value];
      (afterSequence + |emitted| >= poll.atStatus <==> poll.atStatus <= Max(afterSequence, poll.atList) + PAGE)
  {
    hide ListEvents, Numbered, Stretch, Reached;
    ReachedNone(polls[..0], afterSequence);
    var cursor := afterSequence;
    emitted := [];
    StretchNone(log, afterSequence);
    for k := 0 to |polls|
      invariant Stretch(log, afterSequence, emitted)
      invariant cursor == afterSequence + |emitted|
      invariant cursor == Reached(polls[..k], afterSequence)
      invariant cursor <= Max(afterSequence, if k == 0 then 0 else polls[k - 1].atList)
      invariant forall j :: 0 <= j < k ==> !Ending(polls, j, afterSequence)
    {
      var poll := polls[k];
      var events := ListEvents(log[..poll.atList], cursor);
      EmitPage(log, afterSequence, emitted, poll.atList);
      ReachedNext(polls, k, afterSequence);
      cursor, emitted := Emit(events, cursor, emitted);
      if poll.terminal && |events| == 0 {
        var final := ListEvents(log[..poll.atFinal], cursor);
        EmitPage(log, afterSequence, emitted, poll.atFinal);
        cursor, emitted := Emit(final, cursor, emitted);
        return emitted, Some(k);
      }
    }
    assert polls[..|polls|] == polls;
    stop := None;
  }

  /** Round `k` finds the run over and nothing to send. */
  predicate Ending(polls: seq<Poll>, k: nat, afterSequence: nat) {
    k < |polls| && polls[k].terminal && polls[k].atList <= Reached(polls[..k], afterSequence)
  }

  /** The cursor after some rounds: every round moves it forward by at most a page, up to what is committed. */
  function Reached(polls: seq<Poll>, afterSequence: nat): nat {
    if polls == [] then afterSequence
    else
      var cursor := Reached(Front(polls), afterSequence);
      Max(cursor, Min(cursor + PAGE, Last(polls).atList))
  }

  /** In every round at most a page of events has come since the round before. */
  predicate NeverBehind(polls: seq<Poll>, afterSequence: nat) {
    forall k :: 0 <= k < |polls| ==>
      polls[k].atList <= Max(afterSequence, if k == 0 then 0 else polls[k - 1].atList) + 500
  }

  /** As long as no round finds more than 500 new events, the client has everything that was committed when the last
      round listed it. */
  lemma {:induction false} EverythingIsSent(polls: seq<Poll>, afterSequence: nat, total: nat)
    requires Monotone(polls, total) && NeverBehind(polls, afterSequence)
    ensures Reached(polls, afterSequence) == Max(afterSequence, if polls == [] then 0 else Last(polls).atList)
  {
    if polls != [] {
      var front := Front(polls);
      forall k | 0 <= k < |front|
        ensures front[k].atList <= Max(afterSequence, if k == 0 then 0 else front[k - 1].atList) + 500
      {
        assert polls[k].atList <= Max(afterSequence, if k == 0 then 0 else polls[k - 1].atList) + 500;
      }
      EverythingIsSent(front, afterSequence, total);
    }
  }

  /** And in any case the client falls behind by nothing but what more than 500 new events in one round leave over: what
      has been sent never goes back and never runs ahead of what is committed. */
  lemma {:induction false} ReachedBetween(polls: seq<Poll>, afterSequence: nat, total: nat)
    requires Monotone(polls, total)
    ensures afterSequence <= Reached(polls, afterSequence)
         <= Max(afterSequence, if polls == [] then 0 else Last(polls).atList)
    ensures polls != [] ==>
      Reached(polls, afterSequence)
        >= Min(Reached(Front(polls), afterSequence) + PAGE, Last(polls).atList)
  {
    if polls != [] {
      var front := Front(polls);
      assert forall k :: 0 <= k < |front| ==> front[k] == polls[k];
      ReachedBetween(front, afterSequence, total);
    }
  }
}
