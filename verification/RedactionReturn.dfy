/**
 * When replacing a pattern can bring it back, spelt partly by a marker, and so when the released bytes
 * are free of it.
 */
module RedactionReturn {
  import opened Bytes
  import opened Redaction

  /** The pattern "]z". */
  const SECRET: seq<Byte> := [93, 122]

  /** The bytes of `p` before and after the marker when `p` is laid over it at offset d. */
  function HeadOf(p: seq<Byte>, d: int): seq<Byte>
    requires -|p| < d < |MARKER|
  {
    if d < 0 then p[..-d] else []
  }

  function TailOf(p: seq<Byte>, d: int): seq<Byte>
    requires -|p| < d < |MARKER|
  {
    if d + |p| > |MARKER| then p[|MARKER| - d..] else []
  }

  /**
   * `p` can be laid over a marker that its own replacement leaves: it agrees there, and the text that
   * spells it so is replaced at that place and not earlier.
   */
  ghost predicate ReappearsAt(p: seq<Byte>, d: int) {
    -|p| < d < |MARKER| && Agrees(p, d) && (d < 0 ==> Index(p[..-d] + p, p) == -d)
  }

  ghost predicate Reappears(p: seq<Byte>) {
    exists d :: ReappearsAt(p, d)
  }

  /** Laid over a marker that it agrees with, a pattern stands there once its own head and tail are put around it. */
  lemma StandsOverMarker(p: seq<Byte>, d: int)
    requires -|p| < d < |MARKER| && Agrees(p, d)
    ensures Occurs(HeadOf(p, d) + MARKER + TailOf(p, d), p)
  {
    var head, tail := HeadOf(p, d), TailOf(p, d);
    var text, at := head + MARKER + tail, if d < 0 then 0 else d;
    assert at + |p| <= |text|;
    forall t | 0 <= t < |p| ensures text[at + t] == p[t] {
      if t + d < 0 {
        assert text[at + t] == head[t];
      } else if t + d < |MARKER| {
        assert text[at + t] == MARKER[t + d];
      } else {
        assert text[at + t] == tail[t + d - |MARKER|];
      }
    }
    assert text[at..at + |p|] == p;
    assert OccursAt(text, p, at);
  }

  lemma ShortIsUnchanged(pattern: seq<Byte>, text: seq<Byte>)
    requires pattern != [] && |text| < |pattern|
    ensures Index(text, pattern) == -1 && ReplaceAll(pattern, text) == text
  {
    IndexFirst(text, pattern);
  }

  /** Replacement of a first occurrence with too little after it for another. */
  lemma ReplacesOnly(head: seq<Byte>, p: seq<Byte>, tail: seq<Byte>)
    requires p != [] && |tail| < |p| && Index(head + p, p) == |head|
    ensures ReplaceAll(p, head + p + tail) == head + MARKER + tail
  {
    var text := head + p + tail;
    IndexFirst(head + p, p);
    IndexFirst(text, p);
    OccursInLeft(head + p, tail, p, |head|);
    var i := Index(text, p);
    OccursInLeft(head + p, tail, p, i);
    hide IndexFrom;
    assert i == |head|;
    assert text[..i] == head && text[i + |p|..] == tail;
    ShortIsUnchanged(p, tail);
  }

  /** A text whose redaction contains the pattern again. */
  lemma ReturnsInOutput(p: seq<Byte>, d: int)
    requires p != [] && ReappearsAt(p, d)
    ensures Occurs(ReplaceAll(p, HeadOf(p, d) + p + TailOf(p, d)), p)
  {
    var head, tail := HeadOf(p, d), TailOf(p, d);
    if d >= 0 {
      assert head + p == p;
      assert OccursAt(p, p, 0);
      IndexFirst(p, p);
    }
    ReplacesOnly(head, p, tail);
    StandsOverMarker(p, d);
  }

  /** Where an occurrence overlaps the first marker, the pattern reappears there. */
  lemma OverlapReappears(p: seq<Byte>, text: seq<Byte>, tail: seq<Byte>, i: nat, j: nat)
    requires p != [] && Index(text, p) == i && j < i + |MARKER| && i < j + |p|
    requires OccursAt(text[..i] + MARKER + tail, p, j)
    ensures ReappearsAt(p, j - i)
  {
    hide IndexFrom;
    IndexFirst(text, p);
    var head, d := text[..i], j - i;
    var whole := head + MARKER + tail;
    forall t | 0 <= t < |p| && 0 <= t + d < |MARKER| ensures p[t] == MARKER[t + d] {
      OccurrenceBytes(whole, p, j, t);
      assert whole[j + t] == MARKER[t + d];
    }
    assert Agrees(p, d);
    if d < 0 {
      forall t | 0 <= t < -d ensures p[..-d][t] == text[j..i][t] {
        OccurrenceBytes(whole, p, j, t);
        assert whole[j + t] == head[j + t] == text[j + t];
      }
      assert p[..-d] == text[j..i];
      FirstStaysFirst(p, text, i, j);
    }
  }

  /** The text before a first occurrence, from any point on, leaves it the first. */
  lemma FirstStaysFirst(p: seq<Byte>, text: seq<Byte>, i: nat, j: nat)
    requires p != [] && Index(text, p) == i && j <= i
    ensures Index(text[j..i] + p, p) == i - j
  {
    IndexFirst(text, p);
    var part := text[j..i] + p;
    assert part == text[j..i + |p|];
    assert text == text[..j] + part + text[i + |p|..];
    Associative(text[..j], part, text[i + |p|..]);
    OccursInRight(text[..j], part + text[i + |p|..], p, i - j);
    OccursInLeft(part, text[i + |p|..], p, i - j);
    IndexFirst(part, p);
    var k := Index(part, p);
    OccursInLeft(part, text[i + |p|..], p, k);
    OccursInRight(text[..j], part + text[i + |p|..], p, k);
  }

  /** A pattern that cannot reappear is gone once replaced. */
  lemma {:induction false} ReplaceAllRemoves(p: seq<Byte>, text: seq<Byte>)
    requires p != [] && !Reappears(p)
    ensures !Occurs(ReplaceAll(p, text), p)
    decreases |text|
  {
    hide IndexFrom;
    hide Reappears;
    IndexFirst(text, p);
    var i := Index(text, p);
    if i >= 0 {
      var tail := ReplaceAll(p, text[i + |p|..]);
      ReplaceAllRemoves(p, text[i + |p|..]);
      forall j | OccursAt(text[..i] + MARKER + tail, p, j) ensures false {
        NowhereInMarked(p, text, tail, i, j);
      }
    }
  }

  lemma NowhereInMarked(p: seq<Byte>, text: seq<Byte>, tail: seq<Byte>, i: nat, j: int)
    requires p != [] && !Reappears(p) && Index(text, p) == i && !Occurs(tail, p)
    ensures !OccursAt(text[..i] + MARKER + tail, p, j)
  {
    hide IndexFrom;
    var head := text[..i];
    if OccursAt(head + MARKER + tail, p, j) {
      if j + |p| <= i {
        IndexFirst(text, p);
        Associative(head, MARKER, tail);
        OccursInLeft(head, MARKER + tail, p, j);
        assert text == head + text[i..];
        OccursInLeft(head, text[i..], p, j);
      } else if j >= i + |MARKER| {
        OccursInRight(head + MARKER, tail, p, j - i - |MARKER|);
      } else {
        OverlapReappears(p, text, tail, i, j);
      }
    }
  }

  // ----- One pattern -----

  lemma OnePattern(p: seq<Byte>, chunks: seq<seq<Byte>>)
    requires p != []
    ensures Released(Transcript([p], chunks)) == ReplaceAll(p, Concat(chunks))
  {
    StreamEqualsBatch([p], chunks);
    assert Redact([p], Concat(chunks)) == Redact([p][1..], ReplaceAll(p, Concat(chunks)));
  }

  /** No chunking of any input releases the pattern. */
  ghost predicate NeverReleased(p: seq<Byte>)
    requires p != []
  {
    forall chunks :: !Occurs(Released(Transcript([p], chunks)), p)
  }

  /** For one pattern, exactly: no chunking of any input releases it if and only if it cannot reappear. */
  lemma OneSecretNeverReleased(p: seq<Byte>)
    requires p != []
    ensures NeverReleased(p) <==> !Reappears(p)
  {
    if !Reappears(p) {
      forall chunks ensures !Occurs(Released(Transcript([p], chunks)), p) {
        OnePattern(p, chunks);
        ReplaceAllRemoves(p, Concat(chunks));
      }
    } else {
      var d :| ReappearsAt(p, d);
      var text := HeadOf(p, d) + p + TailOf(p, d);
      SingleChunk([p], text);
      OnePattern(p, [text]);
      ReturnsInOutput(p, d);
    }
  }

  /** The pattern "]z" on "]zz": the released "[REDACTED]z" contains it. */
  lemma SecretReleased()
    ensures Released(Transcript([SECRET], [SECRET + [122]])) == [91, 82, 69, 68, 65, 67, 84, 69, 68, 93, 122]
    ensures Occurs([91, 82, 69, 68, 65, 67, 84, 69, 68, 93, 122], SECRET)
  {
    hide ReplaceAll;
    hide Transcript;
    hide Released;
    hide IndexFrom;
    var text := SECRET + [122];
    SingleChunk([SECRET], text);
    OnePattern(SECRET, [text]);
    assert [] + SECRET == SECRET && [] + MARKER + [122] == MARKER + [122];
    assert OccursAt(SECRET, SECRET, 0);
    IndexFirst(SECRET, SECRET);
    ReplacesOnly([], SECRET, [122]);
    assert OccursAt(MARKER + [122], SECRET, 9);
    assert MARKER + [122] == [91, 82, 69, 68, 65, 67, 84, 69, 68, 93, 122];
  }

  // ----- Several patterns -----

  /** An overlap-free pattern occurs in marked text only to one side of the marker. */
  lemma MissesMarker(head: seq<Byte>, tail: seq<Byte>, q: seq<Byte>, i: int)
    requires OverlapFree(q) && OccursAt(head + MARKER + tail, q, i)
    ensures i + |q| <= |head| || i >= |head| + |MARKER|
  {
    var whole, d := head + MARKER + tail, i - |head|;
    if -|q| < d < |MARKER| {
      forall t | 0 <= t < |q| && 0 <= t + d < |MARKER| ensures q[t] == MARKER[t + d] {
        assert q[t] == whole[i..i + |q|][t] == whole[i + t] == MARKER[t + d];
      }
      assert Agrees(q, d);
    }
  }

  lemma MarkedTextFree(head: seq<Byte>, tail: seq<Byte>, q: seq<Byte>)
    requires OverlapFree(q) && !Occurs(head, q) && !Occurs(tail, q)
    ensures !Occurs(head + MARKER + tail, q)
  {
    forall i | OccursAt(head + MARKER + tail, q, i) ensures false {
      MissesMarker(head, tail, q, i);
      if i + |q| <= |head| {
        Associative(head, MARKER, tail);
        OccursInLeft(head, MARKER + tail, q, i);
      } else {
        OccursInRight(head + MARKER, tail, q, i - |head| - |MARKER|);
      }
    }
  }

  lemma {:induction false} ReplaceAllKeepsAbsent(pattern: seq<Byte>, text: seq<Byte>, q: seq<Byte>)
    requires pattern != [] && OverlapFree(q) && !Occurs(text, q)
    ensures !Occurs(ReplaceAll(pattern, text), q)
    decreases |text|
  {
    var i := Index(text, pattern);
    if i >= 0 {
      var rest := text[i + |pattern|..];
      assert text == text[..i] + text[i..] == text[..i + |pattern|] + rest;
      forall j | OccursAt(text[..i], q, j) ensures false {
        OccursInLeft(text[..i], text[i..], q, j);
      }
      forall j | OccursAt(rest, q, j) ensures false {
        OccursInRight(text[..i + |pattern|], rest, q, j);
      }
      ReplaceAllKeepsAbsent(pattern, rest, q);
      MarkedTextFree(text[..i], ReplaceAll(pattern, rest), q);
    }
  }

  lemma {:induction false} RedactKeepsAbsent(patterns: seq<seq<Byte>>, text: seq<Byte>, q: seq<Byte>)
    requires NonEmpty(patterns) && OverlapFree(q) && !Occurs(text, q)
    ensures !Occurs(Redact(patterns, text), q)
  {
    if patterns != [] {
      ReplaceAllKeepsAbsent(patterns[0], text, q);
      RedactKeepsAbsent(patterns[1..], ReplaceAll(patterns[0], text), q);
    }
  }

  /**
   * No pattern survives one-shot redaction that cannot reappear and, unless it is the last, cannot
   * meet a later marker.
   */
  lemma {:induction false} RedactRemoves(patterns: seq<seq<Byte>>, text: seq<Byte>, k: nat)
    requires NonEmpty(patterns) && k < |patterns| && !Reappears(patterns[k])
    requires k < |patterns| - 1 ==> OverlapFree(patterns[k])
    ensures !Occurs(Redact(patterns, text), patterns[k])
  {
    var once := ReplaceAll(patterns[0], text);
    if k == 0 {
      ReplaceAllRemoves(patterns[0], text);
      if |patterns| > 1 {
        RedactKeepsAbsent(patterns[1..], once, patterns[0]);
      }
    } else {
      RedactRemoves(patterns[1..], once, k - 1);
    }
  }

  /** What an edge-free pattern matches at the start of redacted text was already there. */
  lemma {:induction false} RedactPrefixLift(patterns: seq<seq<Byte>>, text: seq<Byte>, q: seq<Byte>, j: nat)
    requires NonEmpty(patterns) && EdgeFree(q) && 0 < j < |q| && q[j..] <= Redact(patterns, text)
    ensures q[j..] <= text
  {
    hide EdgeFree;
    hide ReplaceAll;
    if patterns != [] {
      RedactPrefixLift(patterns[1..], ReplaceAll(patterns[0], text), q, j);
      PrefixLift(patterns[0], text, q, j);
    }
  }

  lemma {:induction false} RedactSuffixLift(patterns: seq<seq<Byte>>, text: seq<Byte>, q: seq<Byte>, j: nat)
    requires NonEmpty(patterns) && EdgeFree(q) && 0 < j < |q| && IsSuffix(q[..j], Redact(patterns, text))
    ensures IsSuffix(q[..j], text)
  {
    hide EdgeFree;
    hide ReplaceAll;
    if patterns != [] {
      RedactSuffixLift(patterns[1..], ReplaceAll(patterns[0], text), q, j);
      SuffixLift(patterns[0], text, q, j);
    }
  }

  /** Replacement whose outcome is a piece of an overlap-free pattern replaced nothing: a marker would show in it. */
  lemma ReplaceInside(pattern: seq<Byte>, text: seq<Byte>, q: seq<Byte>, a: nat, b: nat)
    requires pattern != [] && OverlapFree(q) && a <= b <= |q| && ReplaceAll(pattern, text) == q[a..b]
    ensures text == q[a..b]
  {
    hide IndexFrom;
    var i := Index(text, pattern);
    if i >= 0 {
      MarkerInside(q, a, b, text[..i], ReplaceAll(pattern, text[i + |pattern|..]));
    }
  }

  lemma MarkerInside(q: seq<Byte>, a: nat, b: nat, head: seq<Byte>, tail: seq<Byte>)
    requires a <= b <= |q| && head + MARKER + tail == q[a..b]
    ensures Agrees(q, -(a + |head|))
  {
    forall t | 0 <= t < |q| && 0 <= t - (a + |head|) < |MARKER| ensures q[t] == MARKER[t - (a + |head|)] {
      assert q[t] == q[a..b][t - a] == (head + MARKER + tail)[t - a];
    }
  }

  lemma {:induction false} RedactInside(patterns: seq<seq<Byte>>, text: seq<Byte>, q: seq<Byte>, a: nat, b: nat)
    requires NonEmpty(patterns) && OverlapFree(q) && a <= b <= |q| && Redact(patterns, text) == q[a..b]
    ensures text == q[a..b]
  {
    hide OverlapFree;
    hide ReplaceAll;
    if patterns != [] {
      RedactInside(patterns[1..], ReplaceAll(patterns[0], text), q, a, b);
      ReplaceInside(patterns[0], text, q, a, b);
    }
  }

  /**
   * `released`, made from the raw bytes `done`, is free of `q`, and every beginning of `q` it ends in
   * ends the raw bytes too.
   */
  ghost predicate FreeSoFar(q: seq<Byte>, done: seq<Byte>, released: seq<Byte>) {
    !Occurs(released, q) && forall j :: 0 < j < |q| && IsSuffix(q[..j], released) ==> IsSuffix(q[..j], done)
  }

  lemma SuffixThrough(patterns: seq<seq<Byte>>, q: seq<Byte>, done: seq<Byte>, released: seq<Byte>, head: seq<Byte>,
                      j: nat)
    requires NonEmpty(patterns) && OverlapFree(q) && FreeSoFar(q, done, released)
    requires 0 < j < |q| && IsSuffix(q[..j], released + Redact(patterns, head))
    ensures IsSuffix(q[..j], done + head)
  {
    hide Redact;
    hide Occurs;
    var piece := Redact(patterns, head);
    if j <= |piece| {
      SuffixOfTail(q[..j], released, piece);
      RedactSuffixLift(patterns, head, q, j);
      SuffixOfTail(q[..j], done, head);
    } else {
      var i := j - |piece|;
      SuffixParts(q[..j], released, piece);
      assert q[..j][..i] == q[..i] && q[..j][i..] == q[i..j];
      RedactInside(patterns, head, q, i, j);
      JoinSuffix(q[..i], done, head);
      assert q[..i] + head == q[..j];
    }
  }

  lemma SuffixParts(s: seq<Byte>, left: seq<Byte>, right: seq<Byte>)
    requires |right| <= |s| && IsSuffix(s, left + right)
    ensures var i := |s| - |right|; IsSuffix(s[..i], left) && s[i..] == right
  {
    var i, whole := |s| - |right|, left + right;
    assert whole[|whole| - |s|..] == left[|left| - i..] + right;
  }

  lemma JoinSuffix(s: seq<Byte>, left: seq<Byte>, right: seq<Byte>)
    requires IsSuffix(s, left)
    ensures IsSuffix(s + right, left + right)
  {
    assert (left + right)[|left| - |s|..] == left[|left| - |s|..] + right;
  }

  /** One more piece after a clear cut. */
  lemma StaysFree(patterns: seq<seq<Byte>>, k: nat, done: seq<Byte>, released: seq<Byte>, head: seq<Byte>)
    requires NonEmpty(patterns) && k < |patterns| && OverlapFree(patterns[k])
    requires FreeSoFar(patterns[k], done, released) && ClearOf(patterns[k], done + head, |done|)
    ensures FreeSoFar(patterns[k], done + head, released + Redact(patterns, head))
  {
    hide Redact;
    var q, piece := patterns[k], Redact(patterns, head);
    forall i | OccursAt(released + piece, q, i) ensures false {
      if i + |q| <= |released| {
        OccursInLeft(released, piece, q, i);
      } else if i >= |released| {
        OccursInRight(released, piece, q, i - |released|);
        assert forall d :: ReappearsAt(q, d) ==> Agrees(q, d);
        RedactRemoves(patterns, head, k);
      } else {
        var j := |released| - i;
        OccursAcross(released, piece, q, j);
        RedactPrefixLift(patterns, head, q, j);
        OccursAcross(done, head, q, j);
      }
    }
    forall j | 0 < j < |q| && IsSuffix(q[..j], released + piece) ensures IsSuffix(q[..j], done + head) {
      SuffixThrough(patterns, q, done, released, head, j);
    }
  }

  lemma {:induction false} FeedStaysFree(patterns: seq<seq<Byte>>, k: nat, chunks: seq<seq<Byte>>)
    requires NonEmpty(patterns) && k < |patterns| && OverlapFree(patterns[k])
    ensures IsSuffix(Feed(patterns, chunks).pending, Concat(chunks))
    ensures FreeSoFar(patterns[k], Concat(chunks)[..Frontier(patterns, chunks)],
              Released(Feed(patterns, chunks).pieces))
  {
    hide Redact;
    hide Changes;
    hide Release;
    hide OverlapFree;
    BytesConserved(patterns, chunks);
    var q := patterns[k];
    if chunks == [] {
      assert forall i :: !OccursAt([], q, i);
    } else {
      hide FreeSoFar;
      var init, last := chunks[..|chunks| - 1], chunks[|chunks| - 1];
      var before := Feed(patterns, init);
      var text := before.pending + last;
      var cut := Release(patterns, text);
      FeedStaysFree(patterns, k, init);
      var done := Concat(init)[..Frontier(patterns, init)];
      FrontierClearOf(patterns, k, init, last, cut);
      StaysFree(patterns, k, done, Released(before.pieces), text[..cut]);
      ReleasedSnoc(before.pieces, OneShot(patterns, text[..cut]));
      assert Concat(init) == done + before.pending;
      assert Concat(chunks) == done + text;
      assert Concat(chunks)[..Frontier(patterns, chunks)] == done + text[..cut];
    }
  }

  /** The point released so far is clear in every beginning of what is still to come. */
  lemma FrontierClearOf(patterns: seq<seq<Byte>>, k: nat, chunks: seq<seq<Byte>>, next: seq<Byte>, cut: nat)
    requires NonEmpty(patterns) && k < |patterns| && cut <= |Feed(patterns, chunks).pending + next|
    ensures IsSuffix(Feed(patterns, chunks).pending, Concat(chunks))
    ensures var done, text := Concat(chunks)[..Frontier(patterns, chunks)], Feed(patterns, chunks).pending + next;
            ClearOf(patterns[k], done + text[..cut], |done|)
  {
    hide Feed;
    BytesConserved(patterns, chunks);
    FrontierClear(patterns, chunks, next);
    var pending := Feed(patterns, chunks).pending;
    var done, text := Concat(chunks)[..Frontier(patterns, chunks)], pending + next;
    assert Concat(chunks) == done + pending;
    Associative(done, pending, next);
    assert text == text[..cut] + text[cut..];
    Associative(done, text[..cut], text[cut..]);
    forall i | OccursAt(done + text[..cut], patterns[k], i) ensures !(i < |done| < i + |patterns[k]|) {
      OccursInLeft(done + text[..cut], text[cut..], patterns[k], i);
    }
  }

  /** Whatever the other patterns are, over every chunking no overlap-free pattern is in the released bytes. */
  lemma SecretNeverReleased(patterns: seq<seq<Byte>>, k: nat, chunks: seq<seq<Byte>>)
    requires NonEmpty(patterns) && k < |patterns| && OverlapFree(patterns[k])
    ensures !Occurs(Released(Transcript(patterns, chunks)), patterns[k])
  {
    var progress := Feed(patterns, chunks);
    FeedStaysFree(patterns, k, chunks);
    hide Feed;
    hide Redact;
    hide OverlapFree;
    var done := Concat(chunks)[..Frontier(patterns, chunks)];
    assert progress.pending + [] == progress.pending && progress.pending[..|progress.pending|] == progress.pending;
    FrontierClearOf(patterns, k, chunks, [], |progress.pending|);
    StaysFree(patterns, k, done, Released(progress.pieces), progress.pending);
    ReleasedSnoc(progress.pieces, OneShot(patterns, progress.pending));
  }

  /** So if all are overlap free, the released bytes taken together contain no pattern. */
  lemma NoPatternReleased(patterns: seq<seq<Byte>>, chunks: seq<seq<Byte>>)
    requires NonEmpty(patterns) && AllOverlapFree(patterns)
    ensures !OccursAny(patterns, Released(Transcript(patterns, chunks)))
  {
    forall k | 0 <= k < |patterns| ensures !Occurs(Released(Transcript(patterns, chunks)), patterns[k]) {
      SecretNeverReleased(patterns, k, chunks);
    }
  }
}
