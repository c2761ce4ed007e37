/** The spool object. */
module OutputSpools {
  import opened Bytes
  import opened Redaction
  import opened Redactor
  import opened SandboxTypes
  import opened Spool

  predicate OnlyChunks(events: seq<OutputEvent>) {
    forall i :: 0 <= i < |events| ==> events[i].Chunk?
  }

  /** Every gap event names the oldest held chunk of a truncated stream. */
  predicate GapsNamed(events: seq<OutputEvent>, retentions: Both<Retention>) {
    forall i :: 0 <= i < |events| && events[i].Gap? ==>
      && IsStream(events[i].stream)
      && retentions.Get(events[i].stream).truncated
      && events[i].earliest == retentions.Get(events[i].stream).earliest
  }

  /** The closing announcement of one stream: a gap if it was truncated, then its final event. */
  function ClosingOf(stream: OutputKind, retention: Retention, next: nat, result: ProcessResult): seq<OutputEvent> {
    if retention.truncated
    then [Gap(At(next + 1), stream, retention.earliest), Final(At(next + 2), stream, result)]
    else [Final(At(next + 1), stream, result)]
  }

  /**
   * How a stream's events end: one gap exactly when it was truncated, after all its chunks, and then one
   * final event with the result, after every other event of the stream.
   */
  ghost predicate WellClosed(events: seq<OutputEvent>, stream: OutputKind, truncated: bool, result: ProcessResult) {
    && (truncated <==> exists i :: 0 <= i < |events| && IsGapOf(events[i], stream))
    && (forall i, j ::
          0 <= i < |events| && 0 <= j < |events| && IsGapOf(events[i], stream) && events[j].stream == stream ==>
          if events[j].Gap? then j == i else if events[j].Chunk? then j < i else i < j)
    && (exists i :: 0 <= i < |events| && IsFinalOf(events[i], stream))
    && (forall i, j ::
          0 <= i < |events| && 0 <= j < |events| && IsFinalOf(events[i], stream) && events[j].stream == stream ==>
          events[i].result == result && j <= i)
  }

  predicate IsGapOf(event: OutputEvent, stream: OutputKind) {
    event.Gap? && event.stream == stream
  }

  predicate IsFinalOf(event: OutputEvent, stream: OutputKind) {
    event.Final? && event.stream == stream
  }

  /** Nothing but chunks of the stream so far. */
  predicate StillOpen(events: seq<OutputEvent>, stream: OutputKind) {
    forall i :: 0 <= i < |events| && events[i].stream == stream ==> events[i].Chunk?
  }

  lemma AnnouncementCloses(before: seq<OutputEvent>, stream: OutputKind, retention: Retention, next: nat,
                           result: ProcessResult)
    requires StillOpen(before, stream)
    ensures WellClosed(before + ClosingOf(stream, retention, next, result), stream, retention.truncated, result)
  {
    var events, n := before + ClosingOf(stream, retention, next, result), |before|;
    assert forall i :: 0 <= i < n ==> events[i] == before[i];
    assert IsFinalOf(events[|events| - 1], stream);
    if retention.truncated {
      assert IsGapOf(events[n], stream);
    }
  }

  /** Events of other streams change nothing. */
  lemma StaysClosed(events: seq<OutputEvent>, more: seq<OutputEvent>, stream: OutputKind, truncated: bool,
                    result: ProcessResult)
    requires WellClosed(events, stream, truncated, result)
    requires forall i :: 0 <= i < |more| ==> more[i].stream != stream
    ensures WellClosed(events + more, stream, truncated, result)
  {
    var all := events + more;
    assert forall i :: 0 <= i < |all| && all[i].stream == stream ==> i < |events| && all[i] == events[i];
    if truncated {
      var i :| 0 <= i < |events| && IsGapOf(events[i], stream);
      assert IsGapOf(all[i], stream);
    }
    var i :| 0 <= i < |events| && IsFinalOf(events[i], stream);
    assert IsFinalOf(all[i], stream);
  }

  lemma StaysOpen(events: seq<OutputEvent>, more: seq<OutputEvent>, stream: OutputKind)
    requires StillOpen(events, stream) && forall i :: 0 <= i < |more| ==> more[i].stream != stream
    ensures StillOpen(events + more, stream)
  {
  }

  lemma BothAnnounced(chunks: seq<OutputEvent>, retentions: Both<Retention>, next: nat, after: nat,
                      result: ProcessResult)
    requires OnlyChunks(chunks)
    ensures var out := ClosingOf(Stdout, retentions.out, next, result);
            var err := ClosingOf(Stderr, retentions.err, after, result);
            var events := chunks + out + err;
            && GapsNamed(events, retentions)
            && WellClosed(events, Stdout, retentions.out.truncated, result)
            && WellClosed(events, Stderr, retentions.err.truncated, result)
  {
    var out, err := ClosingOf(Stdout, retentions.out, next, result), ClosingOf(Stderr, retentions.err, after, result);
    hide WellClosed;
    AnnouncementCloses(chunks, Stdout, retentions.out, next, result);
    StaysOpen(chunks, out, Stderr);
    AnnouncementCloses(chunks + out, Stderr, retentions.err, after, result);
    StaysClosed(chunks + out, err, Stdout, retentions.out.truncated, result);
  }

  /** A stream's released pieces and pending bytes are what the chunks fed to its redactor call for. */
  ghost predicate Follows(patterns: seq<seq<Byte>>, chunks: seq<seq<Byte>>, released: seq<Piece>, pending: seq<Byte>,
                          closed: bool)
    requires NonEmpty(patterns)
  {
    if closed then released == Transcript(patterns, chunks)
    else Feed(patterns, chunks) == Progress(released, pending)
  }

  class OutputSpool {
    const producedLimit: nat
    const retainedLimit: nat
    const stdout: LiteralRedactor
    const stderr: LiteralRedactor
    var produced: nat
    var nextCursor: nat
    var closed: bool
    var events: seq<OutputEvent>
    var retentions: Both<Retention>
    var streamCursors: Both<seq<Cursor>>
    /** Every event ever appended. */
    ghost var log: seq<OutputEvent>
    /** The chunks accepted from each stream. */
    ghost var fed: Both<seq<seq<Byte>>>
    /** The pieces each stream's redactor has released. */
    ghost var released: Both<seq<Piece>>

    /** The retained state as a value. */
    ghost function View(): Store
      reads this`events, this`retentions, this`streamCursors, this`log, this`released
    {
      Store(events, retentions, streamCursors, log, released)
    }

    ghost predicate Held()
      reads this`events, this`retentions, this`streamCursors, this`log, this`released, this`nextCursor
    {
      Sound(View(), retainedLimit) && nextCursor == |log|
    }

    ghost predicate Budget()
      reads this`produced, this`fed
    {
      && produced <= producedLimit < U64
      && (BudgetHolds(producedLimit) ==> produced == |Concat(fed.out)| + |Concat(fed.err)|)
    }

    ghost predicate Valid()
      reads this, stdout, stderr
    {
      && stdout != stderr && stdout.Valid() && stderr.Valid() && stdout.patterns == stderr.patterns
      && Budget()
      && Held()
      && Follows(stdout.patterns, fed.out, released.out, stdout.pending, closed)
      && Follows(stderr.patterns, fed.err, released.err, stderr.pending, closed)
      && (!closed ==> OnlyChunks(events))
      && GapsNamed(events, retentions)
    }

    constructor (producedLimit: nat, retainedLimit: nat, patterns: seq<seq<Byte>>)
      requires producedLimit < U64 && SpoolLimits(producedLimit, retainedLimit) && NonEmpty(patterns)
      ensures Valid() && !closed && events == [] && fresh(stdout) && fresh(stderr)
      ensures this.producedLimit == producedLimit && this.retainedLimit == retainedLimit && stdout.patterns == patterns
      ensures fed == Both([], [])
    {
      hide Sound;
      hide Follows;
      EmptySpool(patterns, retainedLimit);
      this.producedLimit, this.retainedLimit := producedLimit, retainedLimit;
      stdout := new LiteralRedactor(patterns);
      stderr := new LiteralRedactor(patterns);
      produced, nextCursor, closed, events := 0, 0, false, [];
      retentions := Both(Retention(NoCursor, 0, false), Retention(NoCursor, 0, false));
      streamCursors := Both([], []);
      log := [];
      fed := Both([], []);
      released := Both([], []);
    }

    /** Accepts a chunk or says why not; a refusal changes nothing. */
    method Write(stream: OutputKind, chunk: seq<Byte>) returns (refusal: Option<FailureCode>)
      requires Valid()
      modifies this, stdout, stderr
      ensures Valid() && closed == old(closed)
      ensures refusal == WriteRefusal(old(closed), stream, |chunk|, old(produced), producedLimit)
      ensures refusal.Some? ==> unchanged(this) && unchanged(stdout) && unchanged(stderr)
      ensures refusal.None? ==> fed == old(fed).Set(stream, old(fed).Get(stream) + [chunk]) &&
                                produced == (old(produced) + |chunk|) % U64
    {
      hide Sound;
      hide Follows;
      if closed {
        return Some(AlreadyTerminal);
      }
      if !IsStream(stream) {
        return Some(InvalidArgument);
      }
      if |chunk| > MAX_CHUNK {
        return Some(ResourceLimitExceeded);
      }
      if (produced + |chunk|) % U64 > producedLimit {
        return Some(ResourceLimitExceeded);
      }
      Accept(stream, chunk);
      return None;
    }

    method Accept(stream: OutputKind, chunk: seq<Byte>)
      requires Valid() && !closed && IsStream(stream) && |chunk| <= MAX_CHUNK
      requires (produced + |chunk|) % U64 <= producedLimit
      modifies this, stdout, stderr
      ensures Valid() && !closed && fed == old(fed).Set(stream, old(fed).Get(stream) + [chunk])
      ensures produced == (old(produced) + |chunk|) % U64
    {
      hide Sound;
      hide Follows;
      hide Concat;
      produced := (produced + |chunk|) % U64;
      var redactor := if stream == Stdout then stdout else stderr;
      ghost var was, held := fed.Get(stream), redactor.pending;
      var redacted, changed := redactor.Write(chunk);
      FollowsWrite(stdout.patterns, was, released.Get(stream), held, chunk);
      ConcatSnoc(was, chunk);
      Retain(stream, redacted, changed);
      fed := fed.Set(stream, was + [chunk]);
    }

    /** Flushes both streams, then announces gaps and finals.  A second close changes nothing. */
    method Close(result: ProcessResult)
      requires Valid()
      modifies this, stdout, stderr
      ensures Valid() && closed && fed == old(fed) && produced == old(produced)
      ensures old(closed) ==> unchanged(this) && unchanged(stdout) && unchanged(stderr)
      ensures !old(closed) ==>
                && WellClosed(events, Stdout, retentions.out.truncated, result)
                && WellClosed(events, Stderr, retentions.err.truncated, result)
    {
      hide Sound;
      hide Follows;
      if closed {
        return;
      }
      hide WellClosed;
      hide GapsNamed;
      FlushBoth();
      AnnounceBoth(result);
      closed := true;
    }

    method AnnounceBoth(result: ProcessResult)
      requires Held() && OnlyChunks(events)
      modifies this`events, this`nextCursor, this`log
      ensures Held() && GapsNamed(events, retentions)
      ensures WellClosed(events, Stdout, retentions.out.truncated, result)
      ensures WellClosed(events, Stderr, retentions.err.truncated, result)
    {
      hide Sound;
      hide WellClosed;
      ghost var chunks, next := events, nextCursor;
      Announce(Stdout, result);
      ghost var middle, after := events, nextCursor;
      Announce(Stderr, result);
      BothAnnounced(chunks, retentions, next, after, result);
    }

    method FlushBoth()
      requires Valid() && !closed
      modifies this`events, this`nextCursor, this`log, this`retentions, this`streamCursors, this`released, stdout,
          stderr
      ensures Held() && OnlyChunks(events)
      ensures Follows(stdout.patterns, fed.out, released.out, stdout.pending, true)
      ensures Follows(stderr.patterns, fed.err, released.err, stderr.pending, true)
    {
      hide Sound;
      hide Follows;
      FollowsFlush(stdout.patterns, fed.out, released.out, stdout.pending);
      FollowsFlush(stderr.patterns, fed.err, released.err, stderr.pending);
      var redacted, changed := stdout.Flush();
      Retain(Stdout, redacted, changed);
      redacted, changed := stderr.Flush();
      Retain(Stderr, redacted, changed);
    }

    method Announce(stream: OutputKind, result: ProcessResult)
      requires Held() && IsStream(stream)
      modifies this`events, this`nextCursor, this`log
      ensures Held()
      ensures events == old(events) + ClosingOf(stream, retentions.Get(stream), old(nextCursor), result)
      ensures nextCursor == old(nextCursor) + |ClosingOf(stream, retentions.Get(stream), 0, result)|
    {
      hide Sound;
      var retention := retentions.Get(stream);
      if retention.truncated {
        AppendEvent(Gap(At(nextCursor + 1), stream, retention.earliest));
      }
      AppendEvent(Final(At(nextCursor + 1), stream, result));
    }

    /** Appends a gap or final event, which belongs to no stream's window. */
    method AppendEvent(event: OutputEvent)
      requires Held() && !event.Chunk? && event.cursor == At(nextCursor + 1)
      modifies this`events, this`nextCursor, this`log
      ensures Held() && nextCursor == old(nextCursor) + 1 && events == old(events) + [event]
    {
      hide Sound;
      AppendSound(View(), event, retainedLimit);
      nextCursor := nextCursor + 1;
      events := events + [event];
      log := log + [event];
    }

    /** Records one released piece, evicting the stream's oldest chunks until it fits. */
    method Retain(stream: OutputKind, piece: seq<Byte>, redacted: bool)
      requires Held() && IsStream(stream)
      modifies this`events, this`nextCursor, this`log, this`retentions, this`streamCursors, this`released
      ensures Held()
      ensures released == old(released).Set(stream, old(released).Get(stream) + [Piece(piece, redacted)])
      ensures old(OnlyChunks(events)) ==> OnlyChunks(events)
    {
      hide Sound;
      hide MakingRoom;
      ghost var whole := Piece(piece, redacted);
      if |piece| == 0 {
        SkipSound(View(), stream, whole, retainedLimit);
        released := released.Set(stream, released.Get(stream) + [whole]);
        return;
      }
      ghost var cut := |piece| > retainedLimit;
      StartRoom(View(), stream, |LastBytes(piece, retainedLimit)|, cut, retainedLimit);
      var chunk := piece;
      if |chunk| > retainedLimit {
        chunk := chunk[|chunk| - retainedLimit..];
        retentions := retentions.Set(stream, retentions.Get(stream).(truncated := true));
      }
      while retentions.Get(stream).retained + |chunk| > retainedLimit
        invariant log == old(log) && released == old(released) && nextCursor == |log|
        invariant MakingRoom(View(), stream, |chunk|, cut, retainedLimit)
        invariant old(OnlyChunks(events)) ==> OnlyChunks(events)
        decreases |events|
      {
        EvictFirst(View(), stream, |chunk|, cut, retainedLimit);
        EvictRoom(View(), stream, |chunk|, cut, retainedLimit);
        var evicted := EvictOldestChunk(stream);
        if !evicted {
          break;
        }
      }
      var event := Chunk(At(nextCursor + 1), stream, chunk, redacted);
      FinishSound(View(), event, whole, retainedLimit);
      Keep(event, whole);
    }

    /** Appends a chunk that fits and accounts for it. */
    method Keep(event: OutputEvent, ghost whole: Piece)
      requires event.Chunk? && IsStream(event.stream)
      modifies this`events, this`nextCursor, this`log, this`retentions, this`streamCursors, this`released
      ensures View() == WithChunk(old(View()), event, whole) && nextCursor == old(nextCursor) + 1
      ensures old(OnlyChunks(events)) ==> OnlyChunks(events)
    {
      var stream := event.stream;
      nextCursor := nextCursor + 1;
      events := events + [event];
      log := log + [event];
      streamCursors := streamCursors.Set(stream, streamCursors.Get(stream) + [event.cursor]);
      var retention := retentions.Get(stream);
      retention := retention.(retained := retention.retained + |event.bytes|);
      if retention.earliest == NoCursor {
        retention := retention.(earliest := event.cursor);
      }
      retentions := retentions.Set(stream, retention);
      released := released.Set(stream, released.Get(stream) + [whole]);
    }

    /**
     * Drops the stream's oldest held chunk, if any.  The source panics when the cursor index does not
     * name that chunk first; here that point is an assertion.
     */
    method EvictOldestChunk(stream: OutputKind) returns (evicted: bool)
      requires IsStream(stream)
      requires var i := FirstChunk(events, stream);
               i >= 0 ==> && streamCursors.Get(stream) != [] && streamCursors.Get(stream)[0] == events[i].cursor
                          && |events[i].bytes| <= retentions.Get(stream).retained
      modifies this`events, this`retentions, this`streamCursors
      ensures evicted <==> FirstChunk(old(events), stream) >= 0
      ensures View() == Evicted(old(View()), stream)
      ensures evicted ==> |events| < |old(events)|
      ensures old(OnlyChunks(events)) ==> OnlyChunks(events)
    {
      var index := -1;
      for candidate := 0 to |events|
        invariant index == -1 && forall k :: 0 <= k < candidate ==> !IsChunkOf(events[k], stream)
      {
        if IsChunkOf(events[candidate], stream) {
          index := candidate;
          break;
        }
      }
      assert index == FirstChunk(events, stream);
      hide FirstChunk;
      if index < 0 {
        return false;
      }
      var event := events[index];
      events := events[..index] + events[index + 1..];
      var retention := retentions.Get(stream);
      retention := retention.(retained := retention.retained - |event.bytes|, truncated := true);
      var cursors := streamCursors.Get(stream);
      assert |cursors| != 0 && cursors[0] == event.cursor;
      cursors := cursors[1..];
      streamCursors := streamCursors.Set(stream, cursors);
      retention := retention.(earliest := NoCursor);
      if |cursors| > 0 {
        retention := retention.(earliest := cursors[0]);
      }
      retentions := retentions.Set(stream, retention);
      return true;
    }

    /**
     * What a closed spool holds of a stream ends the one-shot redaction of everything accepted from it,
     * and is all of it unless the stream is marked truncated.
     */
    lemma ClosedMeaning(stream: OutputKind)
      requires Valid() && closed && IsStream(stream)
      requires stdout.patterns != [] ==> AllEdgeFree(stdout.patterns[1..])
      ensures IsSuffix(Payload(ChunksOf(events, stream)), Redact(stdout.patterns, Concat(fed.Get(stream))))
      ensures retentions.Get(stream).truncated <==>
              Payload(ChunksOf(events, stream)) != Redact(stdout.patterns, Concat(fed.Get(stream)))
    {
      StreamEqualsBatch(stdout.patterns, fed.Get(stream));
      assert StreamSound(View(), stream, retainedLimit);
      var held, whole := Payload(ChunksOf(events, stream)), Redact(stdout.patterns, Concat(fed.Get(stream)));
      assert |held| == |whole| ==> whole[|whole| - |held|..] == whole;
    }
  }

  /** Makes a spool, refusing limits that do not fit each other and patterns out of bounds. */
  method NewOutputSpool(producedLimit: nat, retainedLimit: nat, bound: seq<seq<Byte>>)
    returns (spool: OutputSpool?, error: Option<FailureCode>)
    requires producedLimit < U64 && retainedLimit < U64
    ensures error.None? <==> SpoolLimits(producedLimit, retainedLimit) && NonEmpty(bound)
                             && TotalLength(bound) <= MAX_PATTERN_BYTES && |bound| <= MAX_PATTERNS
    ensures error.Some? ==> error.value == if !SpoolLimits(producedLimit, retainedLimit) || EmptyComesFirst(bound)
                                           then InvalidArgument else ResourceLimitExceeded
    ensures (spool != null) == error.None?
    ensures spool != null ==>
              && fresh(spool) && spool.Valid() && !spool.closed && spool.events == []
              && LongestFirst(spool.stdout.patterns)
                  && forall n: nat :: OfLength(spool.stdout.patterns, n) == OfLength(bound, n)
  {
    hide Sound;
    if producedLimit == 0 || retainedLimit == 0 || retainedLimit > producedLimit * 16 % U64 {
      return null, Some(InvalidArgument);
    }
    var admission := AdmitPatterns(bound);
    if !admission.Admitted? {
      return null, Some(if admission.EmptyPattern? then InvalidArgument else ResourceLimitExceeded);
    }
    spool := new OutputSpool(producedLimit, retainedLimit, admission.patterns);
    error := None;
  }

  lemma EmptySpool(patterns: seq<seq<Byte>>, limit: nat)
    requires NonEmpty(patterns) && 0 < limit
    ensures Follows(patterns, [], [], [], false)
    ensures Sound(Store([], Both(Retention(NoCursor, 0, false), Retention(NoCursor, 0, false)), Both([], []), [],
              Both([], [])), limit)
  {
    hide Window;
    EmptyWindow(limit);
    assert forall stream :: ChunksOf([], stream) == [];
  }

  lemma EmptyWindow(limit: nat)
    ensures Window([], [], [], Retention(NoCursor, 0, false), [], limit)
  {
    assert CursorsOf([]) == [];
  }

  lemma FollowsWrite(patterns: seq<seq<Byte>>, chunks: seq<seq<Byte>>, released: seq<Piece>, pending: seq<Byte>,
                     chunk: seq<Byte>)
    requires NonEmpty(patterns) && Follows(patterns, chunks, released, pending, false)
    ensures var text := pending + chunk;
            var cut := Release(patterns, text);
            Follows(patterns, chunks + [chunk], released + [OneShot(patterns, text[..cut])], text[cut..], false)
  {
    assert (chunks + [chunk])[..|chunks|] == chunks;
  }

  lemma FollowsFlush(patterns: seq<seq<Byte>>, chunks: seq<seq<Byte>>, released: seq<Piece>, pending: seq<Byte>)
    requires NonEmpty(patterns) && Follows(patterns, chunks, released, pending, false)
    ensures Follows(patterns, chunks, released + [OneShot(patterns, pending)], [], true)
  {
  }
}
