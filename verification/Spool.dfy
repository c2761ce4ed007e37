/**
 * The bounded output spool of one process.
 *
 * `log` is the ghost record of every event ever appended; `events` is what the spool still holds.
 * `Window` says how the two are related for one stream, and how the held bytes are related to the
 * text the stream's redactor released.
 */
module Spool {
  import opened Bytes
  import opened Redaction
  import opened SandboxTypes

  /** Cursor texts "output:N" are modelled by their number; "" and "0" are `NoCursor`. */
  datatype Cursor = NoCursor | At(number: nat)

  datatype Retention = Retention(earliest: Cursor, retained: nat, truncated: bool)

  datatype OutputEvent =
    | Chunk(cursor: Cursor, stream: OutputKind, bytes: seq<Byte>, redacted: bool)
    | Gap(cursor: Cursor, stream: OutputKind, earliest: Cursor)
    | Final(cursor: Cursor, stream: OutputKind, result: ProcessResult)

  predicate IsChunkOf(event: OutputEvent, stream: OutputKind) {
    event.Chunk? && event.stream == stream
  }

  /** One stream's chunks, in order. */
  function ChunksOf(events: seq<OutputEvent>, stream: OutputKind): (chunks: seq<OutputEvent>)
    ensures forall k :: 0 <= k < |chunks| ==> IsChunkOf(chunks[k], stream)
  {
    if events == [] then []
    else
      var init, last := events[..|events| - 1], events[|events| - 1];
      ChunksOf(init, stream) + if IsChunkOf(last, stream) then [last] else []
  }

  /** The bytes of a list of chunks. */
  function Payload(chunks: seq<OutputEvent>): seq<Byte> {
    if chunks == [] then []
    else
      var last := chunks[|chunks| - 1];
      Payload(chunks[..|chunks| - 1]) + if last.Chunk? then last.bytes else []
  }

  function CursorsOf(chunks: seq<OutputEvent>): seq<Cursor> {
    seq(|chunks|, i requires 0 <= i < |chunks| => chunks[i].cursor)
  }

  /** What a stream records of its released pieces: empty ones are skipped, oversize ones cut to their tail. */
  function Recorded(released: seq<Piece>, limit: nat): seq<Piece> {
    if released == [] then []
    else
      var init, last := released[..|released| - 1], released[|released| - 1];
      Recorded(init, limit) + if last.bytes == [] then [] else [Piece(LastBytes(last.bytes, limit), last.redacted)]
  }

  function LastBytes(bytes: seq<Byte>, limit: nat): seq<Byte> {
    if |bytes| > limit then bytes[|bytes| - limit..] else bytes
  }

  /** A piece too large for the limit is cut to its last bytes, as many as the limit allows; any other is kept whole. */
  lemma LastBytesExact(bytes: seq<Byte>, limit: nat)
    ensures IsSuffix(LastBytes(bytes, limit), bytes)
    ensures |LastBytes(bytes, limit)| == if |bytes| < limit then |bytes| else limit
  {
  }

  function PieceOf(event: OutputEvent): Piece
    requires event.Chunk?
  {
    Piece(event.bytes, event.redacted)
  }

  ghost predicate Records(chunks: seq<OutputEvent>, pieces: seq<Piece>) {
    |chunks| == |pieces| &&
    forall k :: 0 <= k < |chunks| ==> chunks[k].Chunk? && PieceOf(chunks[k]) == pieces[k] && chunks[k].bytes != []
  }

  /**
   * The held chunks are the longest suffix of a stream's chunks whose bytes, together with `extra`
   * more, fit the limit.
   */
  ghost predicate LongestFitting(kept: seq<OutputEvent>, all: seq<OutputEvent>, extra: nat, limit: nat) {
    && IsSuffix(kept, all)
    && (|kept| < |all| ==> |Payload(all[|all| - |kept| - 1..])| + extra > limit)
  }

  /** The spool's three summaries of a stream agree with the chunks it holds. */
  ghost predicate Summary(kept: seq<OutputEvent>, retention: Retention, cursors: seq<Cursor>) {
    && retention.retained == |Payload(kept)|
    && cursors == CursorsOf(kept)
    && retention.earliest == if kept == [] then NoCursor else kept[0].cursor
  }

  /** The held bytes end the released text, and the stream is marked truncated exactly when they are not all of it. */
  ghost predicate Meaning(kept: seq<OutputEvent>, released: seq<Piece>, truncated: bool) {
    && IsSuffix(Payload(kept), Released(released))
    && (truncated <==> |Payload(kept)| < |Released(released)|)
  }

  ghost predicate Window(kept: seq<OutputEvent>, all: seq<OutputEvent>, released: seq<Piece>,
                         retention: Retention, cursors: seq<Cursor>, limit: nat)
  {
    && LongestFitting(kept, all, 0, limit)
    && |Payload(kept)| <= limit
    && Summary(kept, retention, cursors)
    && Meaning(kept, released, retention.truncated)
    && (retention.truncated ==> kept != [])
    && Records(all, Recorded(released, limit))
  }

  /** Cursors count appended events. */
  ghost predicate Numbered(log: seq<OutputEvent>) {
    forall i :: 0 <= i < |log| ==> log[i].cursor == At(i + 1)
  }

  ghost predicate Increasing(events: seq<OutputEvent>) {
    && (forall i :: 0 <= i < |events| ==> events[i].cursor.At?)
    && (forall i, j :: 0 <= i < j < |events| ==> events[i].cursor.number < events[j].cursor.number)
  }

  ghost predicate InLog(event: OutputEvent, log: seq<OutputEvent>) {
    event.cursor.At? && 1 <= event.cursor.number <= |log| && log[event.cursor.number - 1] == event
  }

  /** The held events are a subsequence of the log. */
  ghost predicate Logged(events: seq<OutputEvent>, log: seq<OutputEvent>) {
    Numbered(log) && Increasing(events) && forall i :: 0 <= i < |events| ==> InLog(events[i], log)
  }

  // ----- Lists of events -----

  lemma {:induction false} ChunksOfAppends(a: seq<OutputEvent>, b: seq<OutputEvent>, stream: OutputKind)
    ensures ChunksOf(a + b, stream) == ChunksOf(a, stream) + ChunksOf(b, stream)
  {
    if b == [] {
      assert a + b == a;
    } else {
      var init := b[..|b| - 1];
      ChunksOfAppends(a, init, stream);
      assert (a + b)[..|a + b| - 1] == a + init;
    }
  }

  lemma ChunksOfSnoc(events: seq<OutputEvent>, last: OutputEvent, stream: OutputKind)
    ensures ChunksOf(events + [last], stream)
         == if IsChunkOf(last, stream) then ChunksOf(events, stream) + [last] else ChunksOf(events, stream)
  {
    assert (events + [last])[..|events|] == events;
  }

  lemma {:induction false} PayloadAppends(a: seq<OutputEvent>, b: seq<OutputEvent>)
    ensures Payload(a + b) == Payload(a) + Payload(b)
  {
    if b == [] {
      assert a + b == a;
    } else {
      var init, last := b[..|b| - 1], b[|b| - 1];
      PayloadAppends(a, init);
      assert (a + b)[..|a + b| - 1] == a + init;
      Associative(Payload(a), Payload(init), if last.Chunk? then last.bytes else []);
    }
  }

  lemma PayloadSnoc(chunks: seq<OutputEvent>, last: OutputEvent)
    requires last.Chunk?
    ensures Payload(chunks + [last]) == Payload(chunks) + last.bytes
  {
    assert (chunks + [last])[..|chunks|] == chunks;
  }

  lemma PayloadFirst(chunks: seq<OutputEvent>)
    requires chunks != [] && chunks[0].Chunk?
    ensures Payload(chunks) == chunks[0].bytes + Payload(chunks[1..])
  {
    PayloadAppends(chunks[..1], chunks[1..]);
    assert chunks == chunks[..1] + chunks[1..];
    PayloadSnoc([], chunks[0]);
    assert [] + [chunks[0]] == chunks[..1];
  }

  /** Dropping a stream's first held chunk drops the head of its list and no other stream's. */
  lemma DropFirst(events: seq<OutputEvent>, i: nat, stream: OutputKind, other: OutputKind)
    requires i < |events| && IsChunkOf(events[i], stream)
    requires forall k :: 0 <= k < i ==> !IsChunkOf(events[k], stream)
    ensures ChunksOf(events, stream) != [] && ChunksOf(events, stream)[0] == events[i]
    ensures ChunksOf(events[..i] + events[i + 1..], stream) == ChunksOf(events, stream)[1..]
    ensures other != stream ==> ChunksOf(events[..i] + events[i + 1..], other) == ChunksOf(events, other)
  {
    var head, tail := events[..i], events[i + 1..];
    assert events == (head + [events[i]]) + tail;
    NoChunks(head, stream);
    ChunksOfSnoc(head, events[i], stream);
    ChunksOfAppends(head + [events[i]], tail, stream);
    ChunksOfAppends(head, tail, stream);
    ChunksOfSnoc(head, events[i], other);
    ChunksOfAppends(head + [events[i]], tail, other);
    ChunksOfAppends(head, tail, other);
  }

  lemma {:induction false} NoChunks(events: seq<OutputEvent>, stream: OutputKind)
    requires forall k :: 0 <= k < |events| ==> !IsChunkOf(events[k], stream)
    ensures ChunksOf(events, stream) == []
  {
    if events != [] {
      NoChunks(events[..|events| - 1], stream);
    }
  }

  lemma RecordedSnoc(released: seq<Piece>, last: Piece, limit: nat)
    ensures Recorded(released + [last], limit)
         == Recorded(released, limit)
            + if last.bytes == [] then [] else [Piece(LastBytes(last.bytes, limit), last.redacted)]
  {
    assert (released + [last])[..|released|] == released;
  }

  // ----- The steps of retaining one piece, on values -----

  /** The state of one stream while room is made for `extra` bytes. */
  ghost predicate Evicting(kept: seq<OutputEvent>, all: seq<OutputEvent>, released: seq<Piece>,
                           retention: Retention, cursors: seq<Cursor>, extra: nat, cut: bool, limit: nat)
  {
    && LongestFitting(kept, all, extra, limit)
    && Summary(kept, retention, cursors)
    && IsSuffix(Payload(kept), Released(released))
    && (retention.truncated <==> cut || |Payload(kept)| < |Released(released)|)
    && Records(all, Recorded(released, limit))
  }

  lemma StartEvicting(kept: seq<OutputEvent>, all: seq<OutputEvent>, released: seq<Piece>,
                      retention: Retention, cursors: seq<Cursor>, extra: nat, cut: bool, limit: nat)
    requires Window(kept, all, released, retention, cursors, limit)
    ensures Evicting(kept, all, released, retention.(truncated := cut || retention.truncated), cursors, extra, cut,
              limit)
  {
  }

  lemma EvictingSummary(kept: seq<OutputEvent>, all: seq<OutputEvent>, released: seq<Piece>,
                        retention: Retention, cursors: seq<Cursor>, extra: nat, cut: bool, limit: nat)
    requires Evicting(kept, all, released, retention, cursors, extra, cut, limit)
    ensures Summary(kept, retention, cursors) && (kept == [] ==> retention.retained == 0)
  {
  }

  /** Dropping the oldest held chunk while the rest still does not fit keeps the longest-suffix property. */
  lemma EvictFitting(kept: seq<OutputEvent>, all: seq<OutputEvent>, extra: nat, limit: nat)
    requires LongestFitting(kept, all, extra, limit) && kept != [] && |Payload(kept)| + extra > limit
    ensures LongestFitting(kept[1..], all, extra, limit)
  {
    assert all[|all| - |kept| + 1..] == kept[1..];
    assert all[|all| - |kept|..] == kept;
  }

  lemma EvictSummary(kept: seq<OutputEvent>, retention: Retention, cursors: seq<Cursor>)
    requires Summary(kept, retention, cursors) && kept != [] && kept[0].Chunk?
    ensures cursors != [] && cursors[0] == kept[0].cursor && |kept[0].bytes| <= retention.retained
    ensures Summary(kept[1..],
                    Retention(if cursors[1..] == [] then NoCursor else cursors[1..][0],
                              retention.retained - |kept[0].bytes|, true),
                    cursors[1..])
  {
    PayloadFirst(kept);
    assert cursors[1..] == CursorsOf(kept[1..]);
  }

  lemma EvictMeaning(kept: seq<OutputEvent>, text: seq<Byte>)
    requires IsSuffix(Payload(kept), text) && kept != [] && kept[0].Chunk? && kept[0].bytes != []
    ensures IsSuffix(Payload(kept[1..]), text) && |Payload(kept[1..])| < |text|
  {
    PayloadFirst(kept);
    var n := |kept[0].bytes|;
    assert Payload(kept)[n..] == Payload(kept[1..]);
    assert text[|text| - |Payload(kept)|..][n..] == text[|text| - |Payload(kept[1..])|..];
  }

  lemma EvictOne(kept: seq<OutputEvent>, all: seq<OutputEvent>, released: seq<Piece>,
                 retention: Retention, cursors: seq<Cursor>, extra: nat, cut: bool, limit: nat)
    requires Evicting(kept, all, released, retention, cursors, extra, cut, limit)
    requires kept != [] && retention.retained + extra > limit
    ensures kept[0].Chunk?
    ensures cursors != [] && cursors[0] == kept[0].cursor && |kept[0].bytes| <= retention.retained
    ensures Evicting(kept[1..], all, released,
                     Retention(if cursors[1..] == [] then NoCursor else cursors[1..][0],
                               retention.retained - |kept[0].bytes|, true),
                     cursors[1..], extra, cut, limit)
  {
    assert kept[0] == all[|all| - |kept|..][0] == all[|all| - |kept|];
    EvictFitting(kept, all, extra, limit);
    EvictSummary(kept, retention, cursors);
    EvictMeaning(kept, Released(released));
  }

  lemma SuffixAppends<T>(tail: seq<T>, whole: seq<T>, more: seq<T>)
    requires IsSuffix(tail, whole)
    ensures IsSuffix(tail + more, whole + more)
  {
    assert (whole + more)[|whole| - |tail|..] == whole[|whole| - |tail|..] + more;
  }

  lemma FinishFitting(kept: seq<OutputEvent>, all: seq<OutputEvent>, chunk: OutputEvent, limit: nat)
    requires chunk.Chunk? && LongestFitting(kept, all, |chunk.bytes|, limit)
    ensures LongestFitting(kept + [chunk], all + [chunk], 0, limit)
  {
    SuffixAppends(kept, all, [chunk]);
    if |kept| < |all| {
      var from := |all| - |kept| - 1;
      PayloadSnoc(all[from..], chunk);
      assert (all + [chunk])[from..] == all[from..] + [chunk];
    }
  }

  lemma FinishSummary(kept: seq<OutputEvent>, retention: Retention, cursors: seq<Cursor>, chunk: OutputEvent)
    requires chunk.Chunk? && Summary(kept, retention, cursors) && (kept != [] ==> kept[0].cursor.At?)
    ensures Summary(kept + [chunk],
                    Retention(if retention.earliest == NoCursor then chunk.cursor else retention.earliest,
                              retention.retained + |chunk.bytes|, retention.truncated),
                    cursors + [chunk.cursor])
  {
    PayloadSnoc(kept, chunk);
    assert CursorsOf(kept + [chunk]) == cursors + [chunk.cursor];
  }

  lemma FinishMeaning(kept: seq<OutputEvent>, released: seq<Piece>, truncated: bool, piece: Piece, chunk: OutputEvent,
                      limit: nat)
    requires chunk.Chunk? && chunk.bytes == LastBytes(piece.bytes, limit)
    requires IsSuffix(Payload(kept), Released(released)) && |Payload(kept)| + |chunk.bytes| <= limit
    requires truncated <==> |piece.bytes| > limit || |Payload(kept)| < |Released(released)|
    ensures Meaning(kept + [chunk], released + [piece], truncated)
  {
    hide Payload;
    hide Released;
    PayloadSnoc(kept, chunk);
    ReleasedSnoc(released, piece);
    SuffixGrows(Payload(kept), Released(released), piece.bytes, limit);
    hide IsSuffix;
  }

  /** A held suffix and the tail of a piece that fit the limit together end the text and the piece. */
  lemma SuffixGrows(held: seq<Byte>, text: seq<Byte>, piece: seq<Byte>, limit: nat)
    requires IsSuffix(held, text) && |held| + |LastBytes(piece, limit)| <= limit
    ensures IsSuffix(held + LastBytes(piece, limit), text + piece)
  {
    if |piece| > limit {
      var last := LastBytes(piece, limit);
      assert IsSuffix(last, piece);
      hide IsSuffix;
      SuffixOfTail(last, text, piece);
      assert held + last == last;
    } else {
      SuffixAppends(held, text, piece);
    }
  }

  lemma FinishRecords(all: seq<OutputEvent>, released: seq<Piece>, piece: Piece, chunk: OutputEvent, limit: nat)
    requires Records(all, Recorded(released, limit)) && piece.bytes != [] && 0 < limit && chunk.Chunk?
    requires PieceOf(chunk) == Piece(LastBytes(piece.bytes, limit), piece.redacted)
    ensures Records(all + [chunk], Recorded(released + [piece], limit))
  {
    RecordedSnoc(released, piece, limit);
  }

  lemma FinishRetain(kept: seq<OutputEvent>, all: seq<OutputEvent>, released: seq<Piece>, retention: Retention,
                     cursors: seq<Cursor>, piece: Piece, chunk: OutputEvent, limit: nat)
    requires piece.bytes != [] && chunk.Chunk? && 0 < limit && (kept != [] ==> kept[0].cursor.At?)
    requires PieceOf(chunk) == Piece(LastBytes(piece.bytes, limit), piece.redacted)
    requires Evicting(kept, all, released, retention, cursors, |chunk.bytes|, |piece.bytes| > limit, limit)
    requires retention.retained + |chunk.bytes| <= limit
    ensures Window(kept + [chunk], all + [chunk], released + [piece],
                   Retention(if retention.earliest == NoCursor then chunk.cursor else retention.earliest,
                             retention.retained + |chunk.bytes|, retention.truncated),
                   cursors + [chunk.cursor], limit)
  {
    FinishFitting(kept, all, chunk, limit);
    FinishSummary(kept, retention, cursors, chunk);
    FinishMeaning(kept, released, retention.truncated, piece, chunk, limit);
    FinishRecords(all, released, piece, chunk, limit);
    PayloadSnoc(kept, chunk);
  }

  /** An empty piece changes nothing. */
  lemma RetainNothing(kept: seq<OutputEvent>, all: seq<OutputEvent>, released: seq<Piece>, retention: Retention,
                      cursors: seq<Cursor>, piece: Piece, limit: nat)
    requires piece.bytes == [] && Window(kept, all, released, retention, cursors, limit)
    ensures Window(kept, all, released + [piece], retention, cursors, limit)
  {
    RecordedSnoc(released, piece, limit);
    ReleasedSnoc(released, piece);
  }

  // ----- The spool's store as a value -----

  /** A map whose two keys, stdout and stderr, are fixed when the spool is made. */
  datatype Both<T> = Both(out: T, err: T) {
    function Get(stream: OutputKind): T {
      if stream == Stdout then out else err
    }

    function Set(stream: OutputKind, value: T): Both<T> {
      if stream == Stdout then Both(value, err) else Both(out, value)
    }
  }

  /** Everything a spool retains, with the ghost log and the pieces released so far. */
  datatype Store = Store(
    events: seq<OutputEvent>,
    retentions: Both<Retention>,
    cursors: Both<seq<Cursor>>,
    log: seq<OutputEvent>,
    released: Both<seq<Piece>>)

  predicate IsStream(stream: OutputKind) {
    stream == Stdout || stream == Stderr
  }

  function Other(stream: OutputKind): OutputKind {
    if stream == Stdout then Stderr else Stdout
  }

  ghost predicate StreamSound(store: Store, stream: OutputKind, limit: nat)
    requires IsStream(stream)
  {
    Window(ChunksOf(store.events, stream), ChunksOf(store.log, stream), store.released.Get(stream),
           store.retentions.Get(stream), store.cursors.Get(stream), limit)
  }

  /** The event list, the cursor index and the retention figures agree for both streams. */
  ghost predicate Sound(store: Store, limit: nat) {
    && 0 < limit && Logged(store.events, store.log)
    && StreamSound(store, Stdout, limit) && StreamSound(store, Stderr, limit)
  }

  /** As `Sound`, while `stream` makes room for `extra` bytes of a piece that was cut or not. */
  ghost predicate MakingRoom(store: Store, stream: OutputKind, extra: nat, cut: bool, limit: nat) {
    && IsStream(stream) && 0 < limit && Logged(store.events, store.log)
    && StreamSound(store, Other(stream), limit)
    && Evicting(ChunksOf(store.events, stream), ChunksOf(store.log, stream), store.released.Get(stream),
                store.retentions.Get(stream), store.cursors.Get(stream), extra, cut, limit)
  }

  /** The oldest held chunk of a stream, or -1. */
  function FirstChunk(events: seq<OutputEvent>, stream: OutputKind): (i: int)
    ensures -1 <= i < |events|
    ensures i >= 0 ==> IsChunkOf(events[i], stream)
    ensures forall k :: 0 <= k < (if i < 0 then |events| else i) ==> !IsChunkOf(events[k], stream)
  {
    if events == [] then -1
    else if IsChunkOf(events[0], stream) then 0
    else var i := FirstChunk(events[1..], stream); if i < 0 then -1 else i + 1
  }

  /** The store without the stream's oldest held chunk. */
  function Evicted(store: Store, stream: OutputKind): Store
  {
    var i := FirstChunk(store.events, stream);
    if i < 0 || store.cursors.Get(stream) == []
        || store.retentions.Get(stream).retained < |store.events[i].bytes| then store
    else
      var cursors := store.cursors.Get(stream)[1..];
      store.(events := store.events[..i] + store.events[i + 1..],
             cursors := store.cursors.Set(stream, cursors),
             retentions := store.retentions.Set(stream, Retention(if cursors == [] then NoCursor else cursors[0],
                                                      store.retentions.Get(stream).retained - |store.events[i].bytes|,
                                                          true)))
  }

  /** The store with one more event, of no stream. */
  function Appended(store: Store, event: OutputEvent): Store {
    store.(events := store.events + [event], log := store.log + [event])
  }

  /** The store with one more chunk, recording the whole piece it came from. */
  function WithChunk(store: Store, chunk: OutputEvent, whole: Piece): Store
    requires chunk.Chunk?
  {
    var stream, retention := chunk.stream, store.retentions.Get(chunk.stream);
    Store(store.events + [chunk],
          store.retentions.Set(stream,
                Retention(if retention.earliest == NoCursor then chunk.cursor else retention.earliest,
                                               retention.retained + |chunk.bytes|, retention.truncated)),
          store.cursors.Set(stream, store.cursors.Get(stream) + [chunk.cursor]),
          store.log + [chunk],
          store.released.Set(stream, store.released.Get(stream) + [whole]))
  }

  lemma LoggedSnoc(events: seq<OutputEvent>, log: seq<OutputEvent>, event: OutputEvent)
    requires Logged(events, log) && event.cursor == At(|log| + 1)
    ensures Logged(events + [event], log + [event])
  {
  }

  lemma LoggedDrop(events: seq<OutputEvent>, log: seq<OutputEvent>, i: nat)
    requires Logged(events, log) && i < |events|
    ensures Logged(events[..i] + events[i + 1..], log)
  {
    var rest := events[..i] + events[i + 1..];
    assert forall k :: 0 <= k < |rest| ==> rest[k] == events[if k < i then k else k + 1];
  }

  /** A stream's chunks are events of the list. */
  lemma {:induction false} ChunksAreEvents(events: seq<OutputEvent>, stream: OutputKind, k: nat)
    requires k < |ChunksOf(events, stream)|
    ensures exists i :: 0 <= i < |events| && events[i] == ChunksOf(events, stream)[k]
  {
    var init := events[..|events| - 1];
    if k < |ChunksOf(init, stream)| {
      ChunksAreEvents(init, stream, k);
      var i :| 0 <= i < |init| && init[i] == ChunksOf(init, stream)[k];
      assert events[i] == ChunksOf(events, stream)[k];
    } else {
      assert events[|events| - 1] == ChunksOf(events, stream)[k];
    }
  }

  lemma AppendSound(store: Store, event: OutputEvent, limit: nat)
    requires Sound(store, limit) && !event.Chunk? && event.cursor == At(|store.log| + 1)
    ensures Sound(Appended(store, event), limit)
  {
    hide Window;
    hide Logged;
    LoggedSnoc(store.events, store.log, event);
    ChunksOfSnoc(store.events, event, Stdout);
    ChunksOfSnoc(store.log, event, Stdout);
    ChunksOfSnoc(store.events, event, Stderr);
    ChunksOfSnoc(store.log, event, Stderr);
  }

  lemma SkipSound(store: Store, stream: OutputKind, piece: Piece, limit: nat)
    requires Sound(store, limit) && IsStream(stream) && piece.bytes == []
    ensures Sound(store.(released := store.released.Set(stream, store.released.Get(stream) + [piece])), limit)
  {
    hide Window;
    hide Logged;
    RetainNothing(ChunksOf(store.events, stream), ChunksOf(store.log, stream), store.released.Get(stream),
                  store.retentions.Get(stream), store.cursors.Get(stream), piece, limit);
  }

  lemma StartRoom(store: Store, stream: OutputKind, extra: nat, cut: bool, limit: nat)
    requires Sound(store, limit) && IsStream(stream)
    ensures var retention := store.retentions.Get(stream);
            MakingRoom(store.(retentions := store.retentions.Set(stream,
                  retention.(truncated := cut || retention.truncated))),
                       stream, extra, cut, limit)
  {
    hide Window;
    hide Logged;
    StartEvicting(ChunksOf(store.events, stream), ChunksOf(store.log, stream), store.released.Get(stream),
                  store.retentions.Get(stream), store.cursors.Get(stream), extra, cut, limit);
  }

  lemma KeptHaveCursors(events: seq<OutputEvent>, log: seq<OutputEvent>, stream: OutputKind)
    requires Logged(events, log) && ChunksOf(events, stream) != []
    ensures ChunksOf(events, stream)[0].cursor.At?
  {
    ChunksAreEvents(events, stream, 0);
  }

  /** While the piece does not fit there is a chunk to evict, and the cursor index names it first. */
  lemma EvictFirst(store: Store, stream: OutputKind, extra: nat, cut: bool, limit: nat)
    requires MakingRoom(store, stream, extra, cut, limit)
    requires extra <= limit && store.retentions.Get(stream).retained + extra > limit
    ensures var i := FirstChunk(store.events, stream);
            && i >= 0 && store.cursors.Get(stream) != [] && store.cursors.Get(stream)[0] == store.events[i].cursor
            && |store.events[i].bytes| <= store.retentions.Get(stream).retained
  {
    hide Window;
    hide Evicting;
    hide Logged;
    hide ChunksOf;
    var i := FirstChunk(store.events, stream);
    var kept := ChunksOf(store.events, stream);
    EvictingSummary(kept, ChunksOf(store.log, stream), store.released.Get(stream),
                    store.retentions.Get(stream), store.cursors.Get(stream), extra, cut, limit);
    if i < 0 {
      NoChunks(store.events, stream);
    } else {
      DropFirst(store.events, i, stream, Other(stream));
      EvictSummary(kept, store.retentions.Get(stream), store.cursors.Get(stream));
    }
  }

  /** What eviction does to the chunk lists. */
  lemma EvictLists(store: Store, stream: OutputKind)
    requires IsStream(stream) && Logged(store.events, store.log)
    requires FirstChunk(store.events, stream) >= 0 && store.cursors.Get(stream) != []
    requires |store.events[FirstChunk(store.events, stream)].bytes| <= store.retentions.Get(stream).retained
    ensures var after, kept := Evicted(store, stream), ChunksOf(store.events, stream);
            && Logged(after.events, store.log) && kept != []
                && kept[0] == store.events[FirstChunk(store.events, stream)]
            && ChunksOf(after.events, stream) == kept[1..]
            && ChunksOf(after.events, Other(stream)) == ChunksOf(store.events, Other(stream))
  {
    hide Logged;
    var i := FirstChunk(store.events, stream);
    DropFirst(store.events, i, stream, Other(stream));
    LoggedDrop(store.events, store.log, i);
  }

  /** Evicting it is sound. */
  lemma EvictRoom(store: Store, stream: OutputKind, extra: nat, cut: bool, limit: nat)
    requires MakingRoom(store, stream, extra, cut, limit)
    requires extra <= limit && store.retentions.Get(stream).retained + extra > limit
    ensures MakingRoom(Evicted(store, stream), stream, extra, cut, limit)
  {
    hide Window;
    hide Evicting;
    hide Logged;
    hide Summary;
    hide ChunksOf;
    EvictFirst(store, stream, extra, cut, limit);
    EvictLists(store, stream);
    EvictOne(ChunksOf(store.events, stream), ChunksOf(store.log, stream), store.released.Get(stream),
             store.retentions.Get(stream), store.cursors.Get(stream), extra, cut, limit);
  }

  lemma FinishSound(store: Store, chunk: OutputEvent, whole: Piece, limit: nat)
    requires chunk.Chunk? && chunk.cursor == At(|store.log| + 1) && whole.bytes != []
    requires MakingRoom(store, chunk.stream, |chunk.bytes|, |whole.bytes| > limit, limit)
    requires PieceOf(chunk) == Piece(LastBytes(whole.bytes, limit), whole.redacted)
    requires store.retentions.Get(chunk.stream).retained + |chunk.bytes| <= limit
    ensures Sound(WithChunk(store, chunk, whole), limit)
  {
    hide Window;
    hide Evicting;
    hide Logged;
    hide ChunksOf;
    var stream := chunk.stream;
    var kept := ChunksOf(store.events, stream);
    if kept != [] {
      KeptHaveCursors(store.events, store.log, stream);
    }
    FinishRetain(kept, ChunksOf(store.log, stream), store.released.Get(stream), store.retentions.Get(stream),
                 store.cursors.Get(stream), whole, chunk, limit);
    LoggedSnoc(store.events, store.log, chunk);
    ChunksOfSnoc(store.events, chunk, stream);
    ChunksOfSnoc(store.log, chunk, stream);
    ChunksOfSnoc(store.events, chunk, Other(stream));
    ChunksOfSnoc(store.log, chunk, Other(stream));
    assert StreamSound(WithChunk(store, chunk, whole), stream, limit);
    assert StreamSound(WithChunk(store, chunk, whole), Other(stream), limit);
  }
}
