/**
 * The exact conditions on one pattern among several: for streamed output to equal one-shot output
 * whatever longer pattern stands before it, and for it never to be released whatever pattern follows it.
 */
module RedactionEdges {
  import opened Bytes
  import opened Redaction
  import opened RedactionReturn

  // ----- A companion made of one byte -----

  function Copies(x: Byte, n: nat): (run: seq<Byte>)
    ensures |run| == n && forall i :: 0 <= i < n ==> run[i] == x
  {
    seq(n, _ => x)
  }

  lemma OtherByte(avoid: set<Byte>) returns (x: Byte)
    requires |avoid| <= 5
    ensures x !in avoid
  {
    var six: set<Byte> := {0, 1, 2, 3, 4, 5};
    assert |six| == 6;
    if six <= avoid {
      SubsetSize(six, avoid);
    }
    x :| x in six && x !in avoid;
  }

  lemma {:induction false} SubsetSize(a: set<Byte>, b: set<Byte>)
    requires a <= b
    ensures |a| <= |b|
  {
    if a != {} {
      var x :| x in a;
      SubsetSize(a - {x}, b - {x});
    }
  }

  /** A run after a shorter head that ends in another byte is replaced once. */
  lemma RunReplaced(x: Byte, n: nat, head: seq<Byte>, tail: seq<Byte>)
    requires |head| < n && |tail| < n && (head != [] ==> head[|head| - 1] != x)
    ensures ReplaceAll(Copies(x, n), head + Copies(x, n) + tail) == head + MARKER + tail
  {
    hide IndexFrom;
    var run := Copies(x, n);
    var text := head + run;
    assert text[|head|..|head| + n] == run;
    assert OccursAt(text, run, |head|);
    IndexFirst(text, run);
    var i := Index(text, run);
    if i < |head| {
      OccurrenceBytes(text, run, i, |head| - 1 - i);
    }
    ReplacesOnly(head, run, tail);
  }

  /** A pattern as long as the run, with other first and last bytes, is not in the text around it. */
  lemma NotAroundRun(q: seq<Byte>, x: Byte, head: seq<Byte>, tail: seq<Byte>)
    requires q != [] && q[0] != x && q[|q| - 1] != x && |head| < |q| && |tail| < |q|
    ensures !Occurs(head + Copies(x, |q|) + tail, q)
  {
    var text := head + Copies(x, |q|) + tail;
    forall i ensures !OccursAt(text, q, i) {
      if 0 <= i <= |text| - |q| {
        var part := text[i..i + |q|];
        assert part[0] == text[i] && part[|q| - 1] == text[i + |q| - 1];
      }
    }
  }

  lemma AbsentIsUnchanged(pattern: seq<Byte>, text: seq<Byte>)
    requires pattern != [] && !Occurs(text, pattern)
    ensures ReplaceAll(pattern, text) == text
  {
    IndexFirst(text, pattern);
  }

  /** Away from the marker's first and last byte, a run is edge free. */
  lemma RunEdgeFree(x: Byte, n: nat)
    requires x != MARKER[0] && x != MARKER[|MARKER| - 1]
    ensures EdgeFree(Copies(x, n))
  {
    var run := Copies(x, n);
    forall d | -|run| < d < |MARKER| && (d < 0 || d + |run| > |MARKER|) ensures !Agrees(run, d) {
      var t := if d < 0 then -d else |MARKER| - 1 - d;
      assert run[t] != MARKER[t + d];
    }
  }

  // ----- Never released, whatever follows -----

  /** No chunking releases `q`, whatever pattern no longer than it comes after it. */
  ghost predicate KeptWithAny(q: seq<Byte>)
    requires q != []
  {
    forall p, chunks :: 0 < |p| <= |q| ==> !Leaks(q, p, chunks)
  }

  ghost predicate Leaks(q: seq<Byte>, p: seq<Byte>, chunks: seq<seq<Byte>>)
    requires q != [] && p != []
  {
    Occurs(Released(Transcript([q, p], chunks)), q)
  }

  /** A text and a companion that between them spell `q` over a marker. */
  lemma CompanionLeaks(q: seq<Byte>, d: int)
    requires q != [] && -|q| < d < |MARKER| && Agrees(q, d)
    ensures !KeptWithAny(q)
  {
    var head, tail, n := HeadOf(q, d), TailOf(q, d), |q|;
    var x := OtherByte({q[0], q[n - 1], if head == [] then 0 else head[|head| - 1], MARKER[0], MARKER[|MARKER| - 1]});
    var run := Copies(x, n);
    var text := head + run + tail;
    NotAroundRun(q, x, head, tail);
    AbsentIsUnchanged(q, text);
    RunReplaced(x, n, head, tail);
    TwoPatterns(q, run, text);
    RunEdgeFree(x, n);
    hide EdgeFree;
    StandsOverMarker(q, d);
    StreamsAsBatch(q, run, text);
    assert Leaks(q, run, [text]);
  }

  lemma StreamsAsBatch(q: seq<Byte>, p: seq<Byte>, text: seq<Byte>)
    requires q != [] && p != [] && EdgeFree(p)
    ensures Released(Transcript([q, p], [text])) == Redact([q, p], text)
  {
    assert [q, p][1..] == [p];
    SingleChunk([q, p], text);
    StreamEqualsBatch([q, p], [text]);
  }

  /** Exactly the overlap-free patterns are kept whatever pattern follows them. */
  lemma KeptIffOverlapFree(q: seq<Byte>)
    requires q != []
    ensures KeptWithAny(q) <==> OverlapFree(q)
  {
    if OverlapFree(q) {
      forall p, chunks | 0 < |p| <= |q| ensures !Leaks(q, p, chunks) {
        SecretNeverReleased([q, p], 0, chunks);
      }
    } else {
      var d :| -|q| < d < |MARKER| && Agrees(q, d);
      CompanionLeaks(q, d);
    }
  }

  // ----- Streamed as in one shot, whatever precedes -----

  /** Streamed and one-shot output agree on every input, whatever pattern no shorter than `q` comes before it. */
  ghost predicate StreamsWithAny(q: seq<Byte>)
    requires q != []
  {
    forall p, chunks :: |p| >= |q| ==> Streams(p, q, chunks)
  }

  ghost predicate Streams(p: seq<Byte>, q: seq<Byte>, chunks: seq<seq<Byte>>)
    requires p != [] && q != []
  {
    Released(Transcript([p, q], chunks)) == Redact([p, q], Concat(chunks))
  }

  lemma {:induction false} LengthMoves(q: seq<Byte>, text: seq<Byte>)
    requires q != []
    ensures |q| <= |MARKER| ==> |ReplaceAll(q, text)| >= |text|
    ensures |q| >= |MARKER| ==> |ReplaceAll(q, text)| <= |text|
    decreases |text|
  {
    hide IndexFrom;
    var i := Index(text, q);
    if i >= 0 {
      LengthMoves(q, text[i + |q|..]);
    }
  }

  /** Replacing a pattern other than the marker where it occurs changes the text. */
  lemma ReplacementShows(q: seq<Byte>, text: seq<Byte>)
    requires q != [] && q != MARKER && Occurs(text, q)
    ensures ReplaceAll(q, text) != text
  {
    IndexFirst(text, q);
    hide IndexFrom;
    var i := Index(text, q);
    var rest := text[i + |q|..];
    LengthMoves(q, rest);
    var after := text[..i] + MARKER + ReplaceAll(q, rest);
    if |q| == |MARKER| {
      assert after[i..i + |q|] == MARKER;
    }
  }

  /**
   * How a difference shows: the run is cut off from what stands beside it, each side redacts to itself
   * but for the run, and the two together spell `q`.
   */
  lemma DifferenceShows(run: seq<Byte>, q: seq<Byte>, left: seq<Byte>, right: seq<Byte>, a: seq<Byte>, b: seq<Byte>)
    requires run != [] && q != [] && q != MARKER && |run| >= |q|
    requires Release([run, q], left + right) == |left|
    requires ReplaceAll(run, left) == a && ReplaceAll(run, right) == b && ReplaceAll(run, left + right) == a + b
    requires !Occurs(a, q) && !Occurs(b, q) && Occurs(a + b, q)
    ensures !StreamsWithAny(q)
  {
    hide Release;
    hide ReplaceAll;
    hide Occurs;
    var chunk := left + right;
    assert chunk[..|left|] == left && chunk[|left|..] == right;
    SingleChunk([run, q], chunk);
    TwoPatterns(run, q, left);
    TwoPatterns(run, q, right);
    TwoPatterns(run, q, chunk);
    AbsentIsUnchanged(q, a);
    AbsentIsUnchanged(q, b);
    ReplacementShows(q, a + b);
    hide Transcript;
    hide Redact;
    assert !Streams(run, q, [chunk]);
  }

  lemma LongestOfTwo(p: seq<Byte>, q: seq<Byte>)
    requires |p| >= |q|
    ensures Longest([p, q]) == |p|
  {
    assert [p, q][0] == p && [p, q][1] == q;
  }

  lemma ClearOfTwo(p: seq<Byte>, q: seq<Byte>, text: seq<Byte>, cut: int)
    requires ClearOf(p, text, cut) && ClearOf(q, text, cut)
    ensures Clear([p, q], text, cut)
  {
  }

  // ----- Across the left end -----

  /** Before the run the text is clear, and nowhere inside it. */
  lemma CutBeforeRun(q: seq<Byte>, x: Byte, head: seq<Byte>, tail: seq<Byte>)
    requires head != [] && |head| + |tail| < |q| && q[|q| - 1] != x && head[|head| - 1] != x
    ensures Release([Copies(x, |q|), q], head + (Copies(x, |q|) + tail)) == |head|
  {
    var run, h, n := Copies(x, |q|), |head|, |q|;
    var text := head + (run + tail);
    LongestOfTwo(run, q);
    forall i | OccursAt(text, run, i) ensures !(i < h < i + n) {
      if i < h < i + n {
        OccurrenceBytes(text, run, i, h - 1 - i);
      }
    }
    forall i | OccursAt(text, q, i) ensures !(i < h < i + n) {
      if i < h < i + n {
        OccurrenceBytes(text, q, i, n - 1);
      }
    }
    ClearOfTwo(run, q, text, h);
    assert text[h..h + n] == run;
    assert OccursAt(text, [run, q][0], h);
  }

  lemma LeftEdgeShows(q: seq<Byte>, d: int)
    requires -|q| < d < 0 && Agrees(q, d)
    ensures !StreamsWithAny(q)
  {
    var head, tail, n := HeadOf(q, d), TailOf(q, d), |q|;
    var x := OtherByte({q[n - 1], head[|head| - 1]});
    var run := Copies(x, n);
    CutBeforeRun(q, x, head, tail);
    ShortIsUnchanged(run, head);
    RunReplaced(x, n, [], tail);
    assert [] + run + tail == run + tail && [] + MARKER + tail == MARKER + tail;
    RunReplaced(x, n, head, tail);
    Associative(head, run, tail);
    Associative(head, MARKER, tail);
    StandsOverMarker(q, d);
    NotInHead(q, head);
    LeftMissesMarker(q, d);
    DifferenceShows(run, q, head, run + tail, head, MARKER + tail);
  }

  lemma NotInHead(q: seq<Byte>, head: seq<Byte>)
    requires |head| < |q|
    ensures !Occurs(head, q)
  {
  }

  /** A pattern across the left end has the marker's first byte inside, where the marker has it only in front. */
  lemma LeftMissesMarker(q: seq<Byte>, d: int)
    requires -|q| < d < 0 && Agrees(q, d)
    ensures q != MARKER && !Occurs(MARKER + TailOf(q, d), q)
  {
    var tail := TailOf(q, d);
    assert q[-d] == MARKER[0];
    if tail == [] {
      forall i ensures !OccursAt(MARKER + tail, q, i) {
        if 0 <= i <= |MARKER| - |q| {
          var part := (MARKER + tail)[i..i + |q|];
          assert part[-d] == MARKER[i - d];
        }
      }
    }
  }

  // ----- Across the right end -----

  lemma CutAfterRun(q: seq<Byte>, x: Byte, rest: seq<Byte>)
    requires q != [] && |rest| == |q| - 1 && q[0] != x && (rest != [] ==> rest[0] != x)
    ensures Release([Copies(x, |q|), q], Copies(x, |q|) + rest) == |q|
  {
    var run, n := Copies(x, |q|), |q|;
    var text := run + rest;
    LongestOfTwo(run, q);
    forall i | OccursAt(text, run, i) ensures !(i < n < i + n) {
      if i < n < i + n {
        OccurrenceBytes(text, run, i, n - i);
      }
    }
    forall i ensures !(OccursAt(text, q, i) && i < n < i + n) {
      if 0 < i < n && i + n <= |text| {
        assert text[i..i + n][0] == text[i];
      }
    }
    ClearOfTwo(run, q, text, n);
  }

  lemma RightEdgeShows(q: seq<Byte>, d: int)
    requires 0 <= d < |MARKER| < d + |q| && Agrees(q, d)
    ensures !StreamsWithAny(q)
  {
    var tail, n := TailOf(q, d), |q|;
    var rest := tail + Copies(0, n - 1 - |tail|);
    var x := OtherByte({q[0], tail[0]});
    var run := Copies(x, n);
    CutAfterRun(q, x, rest);
    RunReplaced(x, n, [], []);
    RunReplaced(x, n, [], rest);
    assert [] + run + [] == run && [] + MARKER + [] == MARKER;
    assert [] + run + rest == run + rest && [] + MARKER + rest == MARKER + rest;
    ShortIsUnchanged(run, rest);
    NotInHead(q, rest);
    RightMissesMarker(q, d);
    StandsOverMarker(q, d);
    StillStands(q, d, rest);
    DifferenceShows(run, q, run, rest, MARKER, rest);
  }

  lemma StillStands(q: seq<Byte>, d: int, rest: seq<Byte>)
    requires 0 <= d < |MARKER| < d + |q| && Agrees(q, d) && TailOf(q, d) <= rest
    ensures Occurs(MARKER + rest, q)
  {
    var tail := TailOf(q, d);
    StandsOverMarker(q, d);
    var text := HeadOf(q, d) + MARKER + tail;
    assert text == MARKER + tail;
    var i :| OccursAt(text, q, i);
    assert rest == tail + rest[|tail|..];
    Associative(MARKER, tail, rest[|tail|..]);
    OccursInLeft(text, rest[|tail|..], q, i);
  }

  /** A pattern across the right end has the marker's last byte before its own end. */
  lemma RightMissesMarker(q: seq<Byte>, d: int)
    requires 0 <= d < |MARKER| < d + |q| && Agrees(q, d)
    ensures q != MARKER && !Occurs(MARKER, q)
  {
    var last := |MARKER| - 1 - d;
    assert q[last] == MARKER[|MARKER| - 1];
    forall i ensures !OccursAt(MARKER, q, i) {
      if 0 <= i <= |MARKER| - |q| {
        var part := MARKER[i..i + |q|];
        assert part[last] == MARKER[i + last];
      }
    }
    assert OccursAt(MARKER, MARKER, 0);
  }

  /** Exactly the edge-free patterns are streamed as in one shot whatever pattern precedes them. */
  lemma StreamsIffEdgeFree(q: seq<Byte>)
    requires q != []
    ensures StreamsWithAny(q) <==> EdgeFree(q)
  {
    if EdgeFree(q) {
      forall p, chunks | |p| >= |q| ensures Streams(p, q, chunks) {
        assert [p, q][1..] == [q];
        StreamEqualsBatch([p, q], chunks);
      }
    } else {
      var d :| -|q| < d < |MARKER| && (d < 0 || d + |q| > |MARKER|) && Agrees(q, d);
      if d < 0 {
        LeftEdgeShows(q, d);
      } else {
        RightEdgeShows(q, d);
      }
    }
  }
}
