/** Replaying a spool's held events from a cursor. */
module Replay {
  import opened Bytes
  import opened SandboxTypes
  import opened Spool
  import opened OutputSpools

  /** The first event carrying a cursor, or -1. */
  function Position(events: seq<OutputEvent>, cursor: Cursor): (i: int)
    ensures -1 <= i < |events|
    ensures i >= 0 ==> events[i].cursor == cursor
    ensures forall k :: 0 <= k < (if i < 0 then |events| else i) ==> events[k].cursor != cursor
  {
    if events == [] then -1
    else if events[0].cursor == cursor then 0
    else var i := Position(events[1..], cursor); if i < 0 then -1 else i + 1
  }

  function Replayed(events: seq<OutputEvent>, from: Cursor): Result<seq<OutputEvent>> {
    if from == NoCursor then Ok(events)
    else
      var i := Position(events, from);
      if i < 0 then Err(OutputGap) else Ok(events[i + 1..])
  }

  /** The stream a caller reads: everything held, or what follows the event it names. */
  method NewOutputStream(events: seq<OutputEvent>, from: Cursor) returns (r: Result<seq<OutputEvent>>)
    ensures r == Replayed(events, from)
  {
    var start := 0;
    if from != NoCursor {
      var seen := false;
      for index := 0 to |events|
        invariant !seen && start == 0 && forall k :: 0 <= k < index ==> events[k].cursor != from
      {
        if events[index].cursor == from {
          start := index + 1;
          seen := true;
          break;
        }
      }
      if !seen {
        return Err(OutputGap);
      }
    }
    return Ok(events[start..]);
  }

  /** A stream's chunks carry increasing cursors. */
  lemma {:induction false} ChunksIncrease(events: seq<OutputEvent>, stream: OutputKind)
    requires Increasing(events)
    ensures forall k, l :: 0 <= k < l < |ChunksOf(events, stream)| ==>
              ChunksOf(events, stream)[k].cursor != ChunksOf(events, stream)[l].cursor
    decreases |events|
  {
    if events != [] {
      var init, last := events[..|events| - 1], events[|events| - 1];
      ChunksIncrease(init, stream);
      forall k | 0 <= k < |ChunksOf(init, stream)| ensures ChunksOf(init, stream)[k].cursor != last.cursor {
        ChunksAreEvents(init, stream, k);
      }
    }
  }

  /** Where a held chunk of a stream lies, the stream's chunks split in the same way. */
  lemma SplitAt(events: seq<OutputEvent>, stream: OutputKind, i: nat, k: nat)
    requires Increasing(events) && i < |events| && k < |ChunksOf(events, stream)|
    requires events[i].cursor == ChunksOf(events, stream)[k].cursor
    ensures ChunksOf(events[i + 1..], stream) == ChunksOf(events, stream)[k + 1..]
  {
    var all, before, after := ChunksOf(events, stream), ChunksOf(events[..i], stream),
        ChunksOf(events[i + 1..], stream);
    ChunksAreEvents(events, stream, k);
    hide ChunksOf;
    var j :| 0 <= j < |events| && events[j] == all[k];
    SamePlace(events, i, j);
    ChunksIncrease(events, stream);
    hide Increasing;
    ChunksAround(events, i, stream);
    SplitHere(all, before, events[i], after, k);
  }

  lemma ChunksAround(events: seq<OutputEvent>, i: nat, stream: OutputKind)
    requires i < |events| && IsChunkOf(events[i], stream)
    ensures ChunksOf(events, stream) == ChunksOf(events[..i], stream) + [events[i]] + ChunksOf(events[i + 1..], stream)
  {
    hide ChunksOf;
    var head, tail := events[..i], events[i + 1..];
    assert events == (head + [events[i]]) + tail;
    ChunksOfSnoc(head, events[i], stream);
    ChunksOfAppends(head + [events[i]], tail, stream);
  }

  lemma SamePlace(events: seq<OutputEvent>, i: nat, j: nat)
    requires Increasing(events) && i < |events| && j < |events| && events[i].cursor == events[j].cursor
    ensures i == j
  {
  }

  lemma SplitHere(all: seq<OutputEvent>, before: seq<OutputEvent>, event: OutputEvent, after: seq<OutputEvent>, k: nat)
    requires all == before + [event] + after && k < |all| && all[k].cursor == event.cursor
    requires forall i, j :: 0 <= i < j < |all| ==> all[i].cursor != all[j].cursor
    ensures after == all[k + 1..]
  {
    assert all[|before|].cursor == event.cursor;
    assert |before| == k;
  }

  /** Replaying from a held chunk yields the stream's later held chunks. */
  lemma ReplayHeld(events: seq<OutputEvent>, log: seq<OutputEvent>, stream: OutputKind, k: nat)
    requires Logged(events, log) && k < |ChunksOf(events, stream)|
    ensures var cursor := ChunksOf(events, stream)[k].cursor;
            && cursor.At? && 1 <= cursor.number <= |log| && log[cursor.number - 1] == ChunksOf(events, stream)[k]
            && Replayed(events, cursor).Ok?
            && ChunksOf(Replayed(events, cursor).value, stream) == ChunksOf(events, stream)[k + 1..]
  {
    ChunksAreEvents(events, stream, k);
    hide ChunksOf;
    var i :| 0 <= i < |events| && events[i] == ChunksOf(events, stream)[k];
    SplitAt(events, stream, i, k);
    PositionOfHeld(events, i);
  }

  lemma PositionOfHeld(events: seq<OutputEvent>, i: nat)
    requires Increasing(events) && i < |events|
    ensures Position(events, events[i].cursor) == i
  {
  }

  lemma HeldIsSuffix(store: Store, limit: nat, stream: OutputKind)
    requires Sound(store, limit) && IsStream(stream)
    ensures IsSuffix(ChunksOf(store.events, stream), ChunksOf(store.log, stream)) && Increasing(store.log)
    ensures store.retentions.Get(stream).truncated ==>
              ChunksOf(store.events, stream) != [] &&
              store.retentions.Get(stream).earliest == ChunksOf(store.events, stream)[0].cursor
  {
    assert StreamSound(store, stream, limit);
  }

  /**
   * Resuming is loss free per stream: from any held chunk of a stream, replay yields every chunk the
   * stream appended after it, in order.
   */
  lemma ResumeLossFree(store: Store, limit: nat, stream: OutputKind, k: nat)
    requires Sound(store, limit) && IsStream(stream) && k < |ChunksOf(store.events, stream)|
    ensures var cursor := ChunksOf(store.events, stream)[k].cursor;
            && cursor.At? && cursor.number <= |store.log|
            && Replayed(store.events, cursor).Ok?
            && ChunksOf(Replayed(store.events, cursor).value, stream) == ChunksOf(store.log[cursor.number..], stream)
  {
    HeldIsSuffix(store, limit, stream);
    hide StreamSound;
    ResumeFromLog(store.events, store.log, stream, k);
  }

  lemma ResumeFromLog(events: seq<OutputEvent>, log: seq<OutputEvent>, stream: OutputKind, k: nat)
    requires Logged(events, log) && Increasing(log) && k < |ChunksOf(events, stream)|
    requires IsSuffix(ChunksOf(events, stream), ChunksOf(log, stream))
    ensures var cursor := ChunksOf(events, stream)[k].cursor;
            && cursor.At? && cursor.number <= |log|
            && Replayed(events, cursor).Ok?
            && ChunksOf(Replayed(events, cursor).value, stream) == ChunksOf(log[cursor.number..], stream)
  {
    hide ChunksOf;
    hide Logged;
    hide Increasing;
    hide Replayed;
    ReplayHeld(events, log, stream, k);
    var kept, all := ChunksOf(events, stream), ChunksOf(log, stream);
    var offset := |all| - |kept|;
    assert kept[k] == all[offset..][k] == all[offset + k];
    SplitAt(log, stream, kept[k].cursor.number - 1, offset + k);
    assert kept[k + 1..] == all[offset..][k + 1..] == all[offset + k + 1..];
  }

  /** From the start everything held is replayed, and from any held event everything after it, of any kind. */
  lemma ReplayExact(events: seq<OutputEvent>, i: nat)
    requires Increasing(events) && i < |events|
    ensures Replayed(events, NoCursor) == Ok(events)
    ensures events[i].cursor != NoCursor ==> Replayed(events, events[i].cursor) == Ok(events[i + 1..])
  {
    var at := Position(events, events[i].cursor);
    if at >= 0 {
      SamePlace(events, i, at);
    }
  }

  /** A cursor fails exactly when it names no held event. */
  lemma UnheldCursorFails(events: seq<OutputEvent>, from: Cursor)
    ensures Replayed(events, from) == Err(OutputGap) <==>
            from != NoCursor && forall i :: 0 <= i < |events| ==> events[i].cursor != from
  {
    if from != NoCursor && Position(events, from) >= 0 {
      assert events[Position(events, from)].cursor == from;
    }
  }

  /**
   * The cursor a gap event names can be replayed.  Replay starts after the event it names, so it
   * yields all the held chunks of the stream but the first.
   */
  lemma GapReplays(store: Store, limit: nat, i: nat)
    requires Sound(store, limit) && GapsNamed(store.events, store.retentions)
    requires i < |store.events| && store.events[i].Gap?
    ensures var stream, from := store.events[i].stream, store.events[i].earliest;
            && ChunksOf(store.events, stream) != [] && from == ChunksOf(store.events, stream)[0].cursor
            && Replayed(store.events, from).Ok?
            && ChunksOf(Replayed(store.events, from).value, stream) == ChunksOf(store.events, stream)[1..]
  {
    var stream := store.events[i].stream;
    HeldIsSuffix(store, limit, stream);
    hide StreamSound;
    ReplayHeld(store.events, store.log, stream, 0);
  }
}
