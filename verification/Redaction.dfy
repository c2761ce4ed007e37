/**
 * The streaming literal redactor.
 *
 * `Redact` is the one-shot meaning: every pattern in turn is replaced throughout the text.
 * `LiteralRedactor` sees the same text in arbitrary chunks and releases a prefix at each call.
 * The main result, `StreamEqualsBatch`, says the two agree for every chunking.
 */
module Redaction {
  import opened Bytes

  /** The replacement text "[REDACTED]". */
  const MARKER: seq<Byte> := [91, 82, 69, 68, 65, 67, 84, 69, 68, 93]

  predicate OccursAt(text: seq<Byte>, pattern: seq<Byte>, i: int) {
    0 <= i && i + |pattern| <= |text| && text[i..i + |pattern|] == pattern
  }

  ghost predicate Occurs(text: seq<Byte>, pattern: seq<Byte>) {
    exists i :: OccursAt(text, pattern, i)
  }

  lemma OccurrenceBytes(text: seq<Byte>, pattern: seq<Byte>, i: int, t: nat)
    requires OccursAt(text, pattern, i) && t < |pattern|
    ensures text[i + t] == pattern[t]
  {
    assert text[i..i + |pattern|][t] == text[i + t];
  }

  /** The first occurrence, or -1. */
  function Index(text: seq<Byte>, pattern: seq<Byte>): (r: int)
    ensures r == -1 || (0 <= r && r + |pattern| <= |text|)
  {
    IndexFrom(text, pattern, 0)
  }

  function IndexFrom(text: seq<Byte>, pattern: seq<Byte>, start: nat): (r: int)
    requires start <= |text|
    ensures r == -1 || (start <= r && r + |pattern| <= |text|)
    decreases |text| - start
  {
    if OccursAt(text, pattern, start) then start
    else if start == |text| then -1
    else IndexFrom(text, pattern, start + 1)
  }

  /** `Index` finds an occurrence exactly when there is one, and finds the first. */
  lemma IndexFirst(text: seq<Byte>, pattern: seq<Byte>)
    ensures Index(text, pattern) >= 0 ==> OccursAt(text, pattern, Index(text, pattern))
    ensures forall i :: OccursAt(text, pattern, i) ==> 0 <= Index(text, pattern) <= i
  {
    IndexFromFirst(text, pattern, 0);
  }

  lemma {:induction false} IndexFromFirst(text: seq<Byte>, pattern: seq<Byte>, start: nat)
    requires start <= |text|
    ensures IndexFrom(text, pattern, start) >= 0 ==> OccursAt(text, pattern, IndexFrom(text, pattern, start))
    ensures forall i :: start <= i && OccursAt(text, pattern, i) ==> 0 <= IndexFrom(text, pattern, start) <= i
    decreases |text| - start
  {
    if !OccursAt(text, pattern, start) && start < |text| {
      IndexFromFirst(text, pattern, start + 1);
    }
  }

  /** Leftmost, non-overlapping replacement of one pattern. */
  function ReplaceAll(pattern: seq<Byte>, text: seq<Byte>): seq<Byte>
    requires pattern != []
    decreases |text|
  {
    var i := Index(text, pattern);
    if i < 0 then text
    else text[..i] + MARKER + ReplaceAll(pattern, text[i + |pattern|..])
  }

  /** The parts with `between` between each two. */
  function Join(parts: seq<seq<Byte>>, between: seq<Byte>): seq<Byte> {
    if parts == [] then [] else if |parts| == 1 then parts[0] else parts[0] + between + Join(parts[1..], between)
  }

  /** Cutting a text at the leftmost occurrences of a pattern, one after the other. */
  ghost predicate LeftmostParts(parts: seq<seq<Byte>>, pattern: seq<Byte>) {
    parts != [] && !Occurs(parts[|parts| - 1], pattern)
    && forall k :: 0 <= k < |parts| - 1 ==> Index(parts[k] + pattern, pattern) == |parts[k]|
  }

  /** `parts` are what lies between the occurrences replaced in `text`. */
  ghost predicate Kept(parts: seq<seq<Byte>>, pattern: seq<Byte>, text: seq<Byte>, replaced: seq<Byte>) {
    LeftmostParts(parts, pattern) && text == Join(parts, pattern) && replaced == Join(parts, MARKER)
  }

  /** What replacement means: the text between leftmost occurrences is kept, and each occurrence becomes one marker. */
  lemma {:induction false} ReplaceAllMeans(pattern: seq<Byte>, text: seq<Byte>)
    requires pattern != []
    ensures exists parts :: Kept(parts, pattern, text, ReplaceAll(pattern, text))
    decreases |text|
  {
    hide IndexFrom;
    var i := Index(text, pattern);
    IndexFirst(text, pattern);
    if i < 0 {
      assert Join([text], pattern) == text && Join([text], MARKER) == text;
      assert Kept([text], pattern, text, ReplaceAll(pattern, text));
    } else {
      var rest := text[i + |pattern|..];
      var replaced := ReplaceAll(pattern, rest);
      ReplaceAllMeans(pattern, rest);
      var more :| Kept(more, pattern, rest, replaced);
      FirstOfPrefix(text, pattern);
      hide OccursAt;
      KeptCons(text[..i], more, pattern, rest, replaced);
      assert text == text[..i] + pattern + rest;
      assert Kept([text[..i]] + more, pattern, text, ReplaceAll(pattern, text));
    }
  }

  lemma KeptCons(head: seq<Byte>, more: seq<seq<Byte>>, pattern: seq<Byte>, rest: seq<Byte>, replaced: seq<Byte>)
    requires Kept(more, pattern, rest, replaced) && Index(head + pattern, pattern) == |head|
    ensures Kept([head] + more, pattern, head + pattern + rest, head + MARKER + replaced)
  {
    hide Index;
    hide Occurs;
    var parts := [head] + more;
    assert parts[1..] == more && parts[|parts| - 1] == more[|more| - 1];
    assert forall k :: 0 < k < |parts| ==> parts[k] == more[k - 1];
  }

  lemma FirstOfPrefix(text: seq<Byte>, pattern: seq<Byte>)
    requires pattern != [] && Index(text, pattern) >= 0
    ensures var i := Index(text, pattern); Index(text[..i] + pattern, pattern) == i
  {
    var i := Index(text, pattern);
    IndexFirst(text, pattern);
    var part := text[..i] + pattern;
    assert part == text[..i + |pattern|];
    assert text == part + text[i + |pattern|..];
    IndexFirst(part, pattern);
    OccursInLeft(part, text[i + |pattern|..], pattern, i);
    OccursInLeft(part, text[i + |pattern|..], pattern, Index(part, pattern));
  }

  predicate NonEmpty(patterns: seq<seq<Byte>>) {
    forall k :: 0 <= k < |patterns| ==> patterns[k] != []
  }

  /** One-shot redaction: the patterns are replaced one after the other. */
  function Redact(patterns: seq<seq<Byte>>, text: seq<Byte>): seq<Byte>
    requires NonEmpty(patterns)
  {
    if patterns == [] then text else Redact(patterns[1..], ReplaceAll(patterns[0], text))
  }

  /** The flag one-shot redaction returns with the text: some replacement was made. */
  function Changes(patterns: seq<seq<Byte>>, text: seq<Byte>): bool
    requires NonEmpty(patterns)
  {
    patterns != [] &&
    (Index(text, patterns[0]) >= 0 || Changes(patterns[1..], ReplaceAll(patterns[0], text)))
  }

  ghost predicate OccursAny(patterns: seq<seq<Byte>>, text: seq<Byte>) {
    exists k :: 0 <= k < |patterns| && Occurs(text, patterns[k])
  }

  /** The flag is exactly "some pattern occurs in the raw text", whatever the markers look like. */
  lemma {:induction false} ChangesIffOccurs(patterns: seq<seq<Byte>>, text: seq<Byte>)
    requires NonEmpty(patterns)
    ensures Changes(patterns, text) <==> OccursAny(patterns, text)
  {
    if patterns != [] {
      IndexFirst(text, patterns[0]);
      if Index(text, patterns[0]) >= 0 {
        assert OccursAt(text, patterns[0], Index(text, patterns[0]));
        assert Occurs(text, patterns[0]);
      } else {
        ChangesIffOccurs(patterns[1..], text);
        assert forall k :: 0 < k < |patterns| ==> patterns[k] == patterns[1..][k - 1];
        assert forall k :: 0 <= k < |patterns| - 1 ==> patterns[1..][k] == patterns[k + 1];
      }
    }
  }

  /** Text in which no pattern occurs passes unchanged. */
  lemma {:induction false} NothingToRedact(patterns: seq<seq<Byte>>, text: seq<Byte>)
    requires NonEmpty(patterns) && !OccursAny(patterns, text)
    ensures Redact(patterns, text) == text
  {
    if patterns != [] {
      IndexFirst(text, patterns[0]);
      assert OccursAt(text, patterns[0], Index(text, patterns[0])) ==> Occurs(text, patterns[0]);
      assert forall k :: 0 <= k < |patterns| - 1 ==> patterns[1..][k] == patterns[k + 1];
      NothingToRedact(patterns[1..], text);
    }
  }

  // ----- Cuts -----

  /** No occurrence of any pattern in `text` begins before `cut` and ends after it. */
  ghost predicate Clear(patterns: seq<seq<Byte>>, text: seq<Byte>, cut: int) {
    forall k, i :: 0 <= k < |patterns| && OccursAt(text, patterns[k], i) ==> !(i < cut < i + |patterns[k]|)
  }

  function Longest(patterns: seq<seq<Byte>>): (n: nat)
    ensures forall k :: 0 <= k < |patterns| ==> |patterns[k]| <= n
    ensures patterns != [] ==> exists k :: 0 <= k < |patterns| && |patterns[k]| == n
  {
    if patterns == [] then 0
    else
      var rest := Longest(patterns[1..]);
      assert forall k :: 0 < k < |patterns| ==> patterns[k] == patterns[1..][k - 1];
      if |patterns[0]| > rest || |patterns| == 1 then
        assert |patterns[0]| >= rest;
        |patterns[0]|
      else
        assert exists k :: 0 <= k < |patterns[1..]| && |patterns[1..][k]| == rest;
        rest
  }

  /** The greatest clear cut of `text` at or below `limit`; cut zero is always clear. */
  ghost function ClearCut(patterns: seq<seq<Byte>>, text: seq<Byte>, limit: int): (cut: nat)
    ensures limit <= 0 ==> cut == 0
    ensures limit >= 0 ==> cut <= limit
    ensures Clear(patterns, text, cut)
    ensures forall c :: cut < c <= limit ==> !Clear(patterns, text, c)
    decreases if limit < 0 then 0 else limit
  {
    if limit <= 0 then 0
    else if Clear(patterns, text, limit) then limit
    else ClearCut(patterns, text, limit - 1)
  }

  /** Where a redactor holding `text` releases: far enough back that no pattern can still complete across. */
  ghost function Release(patterns: seq<seq<Byte>>, text: seq<Byte>): (cut: nat)
    requires NonEmpty(patterns)
    ensures cut <= |text|
  {
    if patterns == [] then |text| else ClearCut(patterns, text, |text| - (Longest(patterns) - 1))
  }

  /** A release point stays clear under every continuation of the stream. */
  lemma ReleaseStaysClear(patterns: seq<seq<Byte>>, text: seq<Byte>, future: seq<Byte>)
    requires NonEmpty(patterns)
    ensures Clear(patterns, text + future, Release(patterns, text))
  {
    var cut := Release(patterns, text);
    forall k, i | 0 <= k < |patterns| && OccursAt(text + future, patterns[k], i)
      ensures !(i < cut < i + |patterns[k]|)
    {
      if i < cut < i + |patterns[k]| {
        assert i + |patterns[k]| <= |text|;
        assert text[i..i + |patterns[k]|] == (text + future)[i..i + |patterns[k]|];
        assert OccursAt(text, patterns[k], i);
      }
    }
  }

  /** No safe byte is held back: a release goes as far as any clear cut that leaves room for a pattern to complete. */
  lemma ReleaseIsGreatest(patterns: seq<seq<Byte>>, text: seq<Byte>, c: int)
    requires NonEmpty(patterns) && 0 <= c <= |text| - (Longest(patterns) - 1) && c <= |text| && Clear(patterns, text, c)
    ensures c <= Release(patterns, text)
  {
  }

  /** Where no pattern occurs, fewer bytes than the longest pattern are held back, and none without patterns. */
  lemma LittleHeldBack(patterns: seq<seq<Byte>>, text: seq<Byte>)
    requires NonEmpty(patterns) && !OccursAny(patterns, text)
    ensures |text| - Release(patterns, text) <= if patterns == [] then 0 else Longest(patterns) - 1
  {
    if patterns != [] {
      var c := |text| - (Longest(patterns) - 1);
      if c > 0 {
        assert forall k, i :: 0 <= k < |patterns| && OccursAt(text, patterns[k], i) ==> Occurs(text, patterns[k]);
        ReleaseIsGreatest(patterns, text, c);
      }
    }
  }

  // ----- Redaction distributes over a clear cut -----

  lemma OccursInLeft(left: seq<Byte>, right: seq<Byte>, pattern: seq<Byte>, i: int)
    requires i + |pattern| <= |left|
    ensures OccursAt(left, pattern, i) <==> OccursAt(left + right, pattern, i)
  {
    if 0 <= i {
      assert (left + right)[i..i + |pattern|] == left[i..i + |pattern|];
    }
  }

  lemma OccursInRight(left: seq<Byte>, right: seq<Byte>, pattern: seq<Byte>, i: nat)
    ensures OccursAt(right, pattern, i) <==> OccursAt(left + right, pattern, |left| + i)
  {
    if i + |pattern| <= |right| {
      assert (left + right)[|left| + i..|left| + i + |pattern|] == right[i..i + |pattern|];
    }
  }

  /** How a pattern's first occurrence falls about a clear cut. */
  lemma IndexSplits(pattern: seq<Byte>, left: seq<Byte>, right: seq<Byte>, i: int)
    requires pattern != [] && i == Index(left + right, pattern)
    requires ClearOf(pattern, left + right, |left|)
    ensures 0 <= i && i + |pattern| <= |left| ==> Index(left, pattern) == i
    ensures !(0 <= i && i + |pattern| <= |left|) ==>
              (i >= 0 ==> i >= |left|) && Index(left, pattern) == -1
                  && Index(right, pattern) == if i < 0 then -1 else i - |left|
  {
    var l, r := Index(left, pattern), Index(right, pattern);
    IndexFirst(left, pattern);
    IndexFirst(right, pattern);
    IndexFirst(left + right, pattern);
    if l >= 0 {
      OccursInLeft(left, right, pattern, l);
    }
    if r >= 0 {
      OccursInRight(left, right, pattern, r);
    }
    if 0 <= i && i + |pattern| <= |left| {
      OccursInLeft(left, right, pattern, i);
    } else if i >= 0 {
      OccursInRight(left, right, pattern, i - |left|);
    }
  }

  /** When the first occurrence lies right of the cut, the left part passes through unchanged. */
  lemma ReplaceAllPassesLeft(pattern: seq<Byte>, left: seq<Byte>, right: seq<Byte>, k: nat)
    requires pattern != [] && Index(right, pattern) == k && Index(left + right, pattern) == |left| + k
    ensures ReplaceAll(pattern, left + right) == left + ReplaceAll(pattern, right)
  {
    hide IndexFrom;
    var i, n := |left| + k, |pattern|;
    var rest := ReplaceAll(pattern, right[k + n..]);
    assert (left + right)[i + n..] == right[k + n..];
    assert (left + right)[..i] == left + right[..k];
    Associative(left, right[..k], MARKER);
    Associative(left, right[..k] + MARKER, rest);
  }

  /** When the first occurrence lies left of the cut, replacement goes on with what follows it. */
  lemma ReplaceAllConsumesLeft(pattern: seq<Byte>, left: seq<Byte>, right: seq<Byte>, i: nat)
    requires pattern != [] && i + |pattern| <= |left|
    requires Index(left, pattern) == i && Index(left + right, pattern) == i
    ensures ReplaceAll(pattern, left + right)
         == (left[..i] + MARKER) + ReplaceAll(pattern, left[i + |pattern|..] + right)
    ensures ReplaceAll(pattern, left) == (left[..i] + MARKER) + ReplaceAll(pattern, left[i + |pattern|..])
  {
    hide IndexFrom;
    hide OccursAt;
    assert (left + right)[i + |pattern|..] == left[i + |pattern|..] + right;
    assert (left + right)[..i] == left[..i];
  }

  ghost predicate ClearOf(pattern: seq<Byte>, text: seq<Byte>, cut: int) {
    forall i :: OccursAt(text, pattern, i) ==> !(i < cut < i + |pattern|)
  }

  lemma ClearOfRest(pattern: seq<Byte>, left: seq<Byte>, right: seq<Byte>, n: nat)
    requires n <= |left| && ClearOf(pattern, left + right, |left|)
    ensures ClearOf(pattern, left[n..] + right, |left[n..]|)
  {
    var rest := left[n..] + right;
    assert left[..n] + rest == left + right;
    forall j | OccursAt(rest, pattern, j) ensures !(j < |left| - n < j + |pattern|) {
      OccursInRight(left[..n], rest, pattern, j);
    }
  }

  lemma {:induction false} ReplaceAllSplits(pattern: seq<Byte>, left: seq<Byte>, right: seq<Byte>)
    requires pattern != [] && ClearOf(pattern, left + right, |left|)
    ensures ReplaceAll(pattern, left + right) == ReplaceAll(pattern, left) + ReplaceAll(pattern, right)
    decreases |left|
  {
    var i, n := Index(left + right, pattern), |pattern|;
    IndexSplits(pattern, left, right, i);
    if 0 <= i && i + n <= |left| {
      ClearOfRest(pattern, left, right, i + n);
      ReplaceAllSplits(pattern, left[i + n..], right);
      ReplaceAllConsumesLeft(pattern, left, right, i);
      Associative(left[..i] + MARKER, ReplaceAll(pattern, left[i + n..]), ReplaceAll(pattern, right));
    } else if i >= 0 {
      ReplaceAllPassesLeft(pattern, left, right, i - |left|);
    }
  }

  /**
   * No way of laying `pattern` over the marker agrees with it: shifted by d, pattern and marker
   * differ somewhere they overlap.  A pattern with no byte of the marker is the simplest case.
   */
  ghost predicate OverlapFree(pattern: seq<Byte>) {
    forall d :: -|pattern| < d < |MARKER| ==> !Agrees(pattern, d)
  }

  /** Laid over the marker with its first byte at offset d, `pattern` matches wherever both are defined. */
  ghost predicate Agrees(pattern: seq<Byte>, d: int) {
    forall t :: 0 <= t < |pattern| && 0 <= t + d < |MARKER| ==> pattern[t] == MARKER[t + d]
  }

  /** `pattern` cannot match across either end of a marker; it may lie wholly inside one. */
  ghost predicate EdgeFree(pattern: seq<Byte>) {
    forall d :: -|pattern| < d < |MARKER| && (d < 0 || d + |pattern| > |MARKER|) ==> !Agrees(pattern, d)
  }

  ghost predicate AllOverlapFree(patterns: seq<seq<Byte>>) {
    forall k :: 0 <= k < |patterns| ==> OverlapFree(patterns[k])
  }

  ghost predicate AllEdgeFree(patterns: seq<seq<Byte>>) {
    forall k :: 0 <= k < |patterns| ==> EdgeFree(patterns[k])
  }

  /** A marker-byte-free pattern is overlap free, and so edge free. */
  lemma DisjointIsOverlapFree(pattern: seq<Byte>)
    requires pattern != [] && forall t, u :: 0 <= t < |pattern| && 0 <= u < |MARKER| ==> pattern[t] != MARKER[u]
    ensures OverlapFree(pattern) && EdgeFree(pattern)
  {
    forall d | -|pattern| < d < |MARKER| ensures !Agrees(pattern, d) {
      var t := if d < 0 then -d else 0;
      assert 0 <= t < |pattern| && 0 <= t + d < |MARKER|;
      assert pattern[t] != MARKER[t + d];
    }
  }

  /** What an edge-free pattern matches at the start of replaced text was already there. */
  lemma PrefixLift(pattern: seq<Byte>, text: seq<Byte>, q: seq<Byte>, j: nat)
    requires pattern != [] && EdgeFree(q) && 0 < j < |q|
    requires q[j..] <= ReplaceAll(pattern, text)
    ensures q[j..] <= text
  {
    var i := Index(text, pattern);
    if 0 <= i < |q| - j {
      var replaced := ReplaceAll(pattern, text);
      forall t | 0 <= t < |q| && 0 <= t - (j + i) < |MARKER| ensures q[t] == MARKER[t - (j + i)] {
        assert q[t] == q[j..][t - j] == replaced[t - j];
      }
      assert Agrees(q, -(j + i));
      assert false;
    } else if i >= 0 {
      assert q[j..] == ReplaceAll(pattern, text)[..|q| - j] == text[..|q| - j];
    }
  }

  /** An edge-free pattern cannot end in replaced text right after covering the end of a marker. */
  lemma SuffixMissesMarker(head: seq<Byte>, tail: seq<Byte>, q: seq<Byte>, j: nat)
    requires EdgeFree(q) && |tail| < j < |q|
    ensures !IsSuffix(q[..j], head + MARKER + tail)
  {
    var whole, d := head + MARKER + tail, |MARKER| + |tail| - j;
    if IsSuffix(q[..j], whole) {
      forall t | 0 <= t < |q| && 0 <= t + d < |MARKER| ensures q[t] == MARKER[t + d] {
        assert t < j;
        assert whole[|whole| - j..][t] == whole[|head| + t + d] == MARKER[t + d];
      }
      assert Agrees(q, d);
    }
  }

  /** What an edge-free pattern matches at the end of replaced text was already there. */
  lemma {:induction false} SuffixLift(pattern: seq<Byte>, text: seq<Byte>, q: seq<Byte>, j: nat)
    requires pattern != [] && EdgeFree(q) && 0 < j < |q|
    requires IsSuffix(q[..j], ReplaceAll(pattern, text))
    ensures IsSuffix(q[..j], text)
    decreases |text|
  {
    hide IndexFrom;
    hide EdgeFree;
    var i := Index(text, pattern);
    if i >= 0 {
      var rest := text[i + |pattern|..];
      var tail := ReplaceAll(pattern, rest);
      hide ReplaceAll;
      if j <= |tail| {
        SuffixOfTail(q[..j], text[..i] + MARKER, tail);
        SuffixLift(pattern, rest, q, j);
        assert text == text[..i + |pattern|] + rest;
        SuffixOfTail(q[..j], text[..i + |pattern|], rest);
      } else {
        SuffixMissesMarker(text[..i], tail, q, j);
      }
    }
  }

  lemma SuffixOfTail(s: seq<Byte>, head: seq<Byte>, tail: seq<Byte>)
    requires |s| <= |tail|
    ensures IsSuffix(s, head + tail) <==> IsSuffix(s, tail)
  {
    assert (head + tail)[|head| + |tail| - |s|..] == tail[|tail| - |s|..];
  }

  /** A suffix of one side and a prefix of the other make an occurrence across the boundary. */
  lemma OccursAcross(left: seq<Byte>, right: seq<Byte>, q: seq<Byte>, j: nat)
    requires j <= |q|
    ensures IsSuffix(q[..j], left) && q[j..] <= right <==>
            j <= |left| && OccursAt(left + right, q, |left| - j)
  {
    if j <= |left| && |q| - j <= |right| {
      var part := (left + right)[|left| - j..|left| - j + |q|];
      assert part == left[|left| - j..] + right[..|q| - j];
      assert q == q[..j] + q[j..];
      assert part[..j] == left[|left| - j..] && part[j..] == right[..|q| - j];
    }
  }

  /** Replacing one pattern on both sides of a clear cut leaves it clear for edge-free patterns. */
  lemma StaysClear(pattern: seq<Byte>, rest: seq<seq<Byte>>, left: seq<Byte>, right: seq<Byte>)
    requires pattern != [] && AllEdgeFree(rest)
    requires Clear(rest, left + right, |left|)
    ensures Clear(rest, ReplaceAll(pattern, left) + ReplaceAll(pattern, right), |ReplaceAll(pattern, left)|)
  {
    var a, b := ReplaceAll(pattern, left), ReplaceAll(pattern, right);
    forall k, i | 0 <= k < |rest| && OccursAt(a + b, rest[k], i)
      ensures !(i < |a| < i + |rest[k]|)
    {
      var q := rest[k];
      if i < |a| < i + |q| {
        var j := |a| - i;
        OccursAcross(a, b, q, j);
        SuffixLift(pattern, left, q, j);
        PrefixLift(pattern, right, q, j);
        OccursAcross(left, right, q, j);
      }
    }
  }

  /** Redaction distributes over a clear cut; the first pattern needs nothing of the marker. */
  lemma {:induction false} RedactSplits(patterns: seq<seq<Byte>>, left: seq<Byte>, right: seq<Byte>)
    requires NonEmpty(patterns) && (patterns != [] ==> AllEdgeFree(patterns[1..]))
    requires Clear(patterns, left + right, |left|)
    ensures Redact(patterns, left + right) == Redact(patterns, left) + Redact(patterns, right)
    decreases |patterns|
  {
    if patterns != [] {
      var p, rest := patterns[0], patterns[1..];
      assert forall k :: 0 <= k < |rest| ==> rest[k] == patterns[k + 1];
      assert ClearOf(patterns[0], left + right, |left|);
      ReplaceAllSplits(p, left, right);
      assert Clear(rest, left + right, |left|);
      StaysClear(p, rest, left, right);
      assert rest != [] ==> forall k :: 0 <= k < |rest[1..]| ==> rest[1..][k] == rest[k + 1];
      RedactSplits(rest, ReplaceAll(p, left), ReplaceAll(p, right));
    }
  }

  // ----- The stream -----

  /** One released piece of redacted output. */
  datatype Piece = Piece(bytes: seq<Byte>, redacted: bool)

  /** A redactor's whole history: what it released, call by call, and what it still holds. */
  datatype Progress = Progress(pieces: seq<Piece>, pending: seq<Byte>)

  function OneShot(patterns: seq<seq<Byte>>, text: seq<Byte>): Piece
    requires NonEmpty(patterns)
  {
    Piece(Redact(patterns, text), Changes(patterns, text))
  }

  ghost function Feed(patterns: seq<seq<Byte>>, chunks: seq<seq<Byte>>): Progress
    requires NonEmpty(patterns)
  {
    if chunks == [] then Progress([], [])
    else
      var before := Feed(patterns, chunks[..|chunks| - 1]);
      var text := before.pending + chunks[|chunks| - 1];
      var cut := Release(patterns, text);
      Progress(before.pieces + [OneShot(patterns, text[..cut])], text[cut..])
  }

  function Released(pieces: seq<Piece>): seq<Byte> {
    if pieces == [] then [] else Released(pieces[..|pieces| - 1]) + pieces[|pieces| - 1].bytes
  }

  function AnyRedacted(pieces: seq<Piece>): bool {
    exists k :: 0 <= k < |pieces| && pieces[k].redacted
  }

  /** Everything a stream's caller sees: the pieces of every Write, then the Flush. */
  ghost function Transcript(patterns: seq<seq<Byte>>, chunks: seq<seq<Byte>>): seq<Piece>
    requires NonEmpty(patterns)
  {
    var progress := Feed(patterns, chunks);
    progress.pieces + [OneShot(patterns, progress.pending)]
  }

  lemma ReleasedSnoc(pieces: seq<Piece>, last: Piece)
    ensures Released(pieces + [last]) == Released(pieces) + last.bytes
  {
    assert (pieces + [last])[..|pieces|] == pieces;
  }

  /** How much of the stream has been released. */
  ghost function Frontier(patterns: seq<seq<Byte>>, chunks: seq<seq<Byte>>): int
    requires NonEmpty(patterns)
  {
    |Concat(chunks)| - |Feed(patterns, chunks).pending|
  }

  /** No raw byte is lost or repeated: what is pending is exactly the end of what was fed. */
  lemma {:induction false} BytesConserved(patterns: seq<seq<Byte>>, chunks: seq<seq<Byte>>)
    requires NonEmpty(patterns)
    ensures IsSuffix(Feed(patterns, chunks).pending, Concat(chunks))
  {
    if chunks != [] {
      var init, last := chunks[..|chunks| - 1], chunks[|chunks| - 1];
      BytesConserved(patterns, init);
      var before := Feed(patterns, init).pending;
      var text := before + last;
      var done := Concat(init)[..|Concat(init)| - |before|];
      assert Concat(init) == done + before;
      assert Concat(chunks) == done + text;
      var cut := Release(patterns, text);
      assert (done + text)[|done| + cut..] == text[cut..];
    }
  }

  /** Nothing, past or future, straddles the point up to which the stream has been released. */
  lemma {:induction false} FrontierClear(patterns: seq<seq<Byte>>, chunks: seq<seq<Byte>>, future: seq<Byte>)
    requires NonEmpty(patterns)
    ensures Clear(patterns, Concat(chunks) + future, Frontier(patterns, chunks))
  {
    hide Redact;
    hide Changes;
    hide Release;
    if chunks == [] {
    } else {
      hide Clear;
      var init, last := chunks[..|chunks| - 1], chunks[|chunks| - 1];
      var before := Feed(patterns, init).pending;
      var text := before + last;
      BytesConserved(patterns, init);
      var done := Concat(init)[..|Concat(init)| - |before|];
      assert Concat(init) + (last + future) == done + (text + future) == Concat(chunks) + future;
      FrontierClear(patterns, init, last + future);
      ReleaseStaysClear(patterns, text, future);
      ClearShifts(patterns, done, text + future, Release(patterns, text));
    }
  }

  /** A stream in which no pattern occurs is released but for fewer bytes than the longest pattern. */
  lemma {:induction false} StreamKeepsUp(patterns: seq<seq<Byte>>, chunks: seq<seq<Byte>>)
    requires NonEmpty(patterns) && chunks != [] && !OccursAny(patterns, Concat(chunks))
    ensures |Feed(patterns, chunks).pending| <= if patterns == [] then 0 else Longest(patterns) - 1
  {
    var init, last := chunks[..|chunks| - 1], chunks[|chunks| - 1];
    var before := Feed(patterns, init).pending;
    var text := before + last;
    BytesConserved(patterns, init);
    var done := Concat(init)[..|Concat(init)| - |before|];
    assert Concat(chunks) == done + text;
    forall k, i | 0 <= k < |patterns| && OccursAt(text, patterns[k], i) ensures Occurs(Concat(chunks), patterns[k]) {
      OccursInRight(done, text, patterns[k], i);
    }
    LittleHeldBack(patterns, text);
  }

  /** If the start of `tail` and a cut inside `tail` are clear, so is that cut of the whole. */
  lemma ClearShifts(patterns: seq<seq<Byte>>, done: seq<Byte>, tail: seq<Byte>, cut: nat)
    requires Clear(patterns, done + tail, |done|) && Clear(patterns, tail, cut)
    ensures Clear(patterns, done + tail, |done| + cut)
  {
    forall k, i | 0 <= k < |patterns| && OccursAt(done + tail, patterns[k], i)
      ensures !(i < |done| + cut < i + |patterns[k]|)
    {
      if i >= |done| {
        OccursInRight(done, tail, patterns[k], i - |done|);
      }
    }
  }

  lemma NothingReleased(patterns: seq<seq<Byte>>, future: seq<Byte>)
    requires NonEmpty(patterns)
    ensures Concat([]) + future == future && Released([]) == []
    ensures [] + Redact(patterns, [] + future) == Redact(patterns, future)
  {
    assert [] + future == future;
  }

  /** Any continuation: what was released, then the one-shot redaction of the rest, is the whole. */
  lemma {:induction false} FeedRefinesRedact(patterns: seq<seq<Byte>>, chunks: seq<seq<Byte>>, future: seq<Byte>)
    requires NonEmpty(patterns) && (patterns != [] ==> AllEdgeFree(patterns[1..]))
    ensures Redact(patterns, Concat(chunks) + future)
         == Released(Feed(patterns, chunks).pieces) + Redact(patterns, Feed(patterns, chunks).pending + future)
  {
    hide Redact;
    hide Changes;
    hide Release;
    hide Clear;
    hide Released;
    if chunks == [] {
      NothingReleased(patterns, future);
    } else {
      var init, last := chunks[..|chunks| - 1], chunks[|chunks| - 1];
      var before := Feed(patterns, init);
      var text := before.pending + last;
      var cut := Release(patterns, text);
      var head, rest := text[..cut], text[cut..] + future;
      assert Concat(init) + (last + future) == Concat(chunks) + future;
      assert before.pending + (last + future) == head + rest;
      calc {
        Redact(patterns, Concat(chunks) + future);
        { FeedRefinesRedact(patterns, init, last + future); }
        Released(before.pieces) + Redact(patterns, head + rest);
        {
          ReleaseStaysClear(patterns, text, future);
          assert text + future == head + rest;
          RedactSplits(patterns, head, rest);
        }
        Released(before.pieces) + (Redact(patterns, head) + Redact(patterns, rest));
        { Associative(Released(before.pieces), Redact(patterns, head), Redact(patterns, rest)); }
        (Released(before.pieces) + Redact(patterns, head)) + Redact(patterns, rest);
        { ReleasedSnoc(before.pieces, OneShot(patterns, head)); }
        Released(before.pieces + [OneShot(patterns, head)]) + Redact(patterns, rest);
      }
    }
  }

  /**
   * Streaming equals batch, for every chunking of every input: all that Write and the final Flush
   * release is the one-shot redaction of the whole input.  One pattern, or none, needs no hypothesis;
   * later patterns must not be able to match across an end of the marker.
   */
  lemma StreamEqualsBatch(patterns: seq<seq<Byte>>, chunks: seq<seq<Byte>>)
    requires NonEmpty(patterns) && (patterns != [] ==> AllEdgeFree(patterns[1..]))
    ensures Released(Transcript(patterns, chunks)) == Redact(patterns, Concat(chunks))
  {
    FeedRefinesRedact(patterns, chunks, []);
    var progress := Feed(patterns, chunks);
    assert Concat(chunks) + [] == Concat(chunks) && progress.pending + [] == progress.pending;
    ReleasedSnoc(progress.pieces, OneShot(patterns, progress.pending));
  }

  /** One chunk: what is released is the redaction of the two sides of the cut. */
  lemma SingleChunk(patterns: seq<seq<Byte>>, chunk: seq<Byte>)
    requires NonEmpty(patterns)
    ensures Concat([chunk]) == chunk
    ensures var cut := Release(patterns, chunk);
            Released(Transcript(patterns, [chunk])) == Redact(patterns, chunk[..cut]) + Redact(patterns, chunk[cut..])
  {
    hide Redact;
    hide Changes;
    hide Release;
    hide Released;
    assert Released([]) == [] by {
      NothingReleased(patterns, []);
    }
    var cut := Release(patterns, chunk);
    var first, second := OneShot(patterns, chunk[..cut]), OneShot(patterns, chunk[cut..]);
    assert [chunk][..0] == [] && chunk[..0] + chunk == chunk;
    assert Feed(patterns, [chunk]) == Progress([] + [first], chunk[cut..]);
    ReleasedSnoc([], first);
    ReleasedSnoc([first], second);
    assert [] + [first] == [first];
  }

  lemma TwoPatterns(p: seq<Byte>, q: seq<Byte>, text: seq<Byte>)
    requires p != [] && q != []
    ensures Redact([p, q], text) == ReplaceAll(q, ReplaceAll(p, text))
  {
    var once := ReplaceAll(p, text);
    assert [p, q][1..] == [q];
    assert Redact([q], once) == Redact([q][1..], ReplaceAll(q, once));
  }

  // ----- The redacted flag -----

  lemma OccursAnySplits(patterns: seq<seq<Byte>>, left: seq<Byte>, right: seq<Byte>)
    requires Clear(patterns, left + right, |left|)
    ensures OccursAny(patterns, left + right) <==> OccursAny(patterns, left) || OccursAny(patterns, right)
  {
    forall k, i | 0 <= k < |patterns| && OccursAt(left, patterns[k], i) ensures Occurs(left + right, patterns[k]) {
      OccursInLeft(left, right, patterns[k], i);
    }
    forall k, i | 0 <= k < |patterns| && OccursAt(right, patterns[k], i) ensures Occurs(left + right, patterns[k]) {
      OccursInRight(left, right, patterns[k], i);
    }
    forall k, i | 0 <= k < |patterns| && OccursAt(left + right, patterns[k], i)
      ensures Occurs(left, patterns[k]) || Occurs(right, patterns[k])
    {
      if i + |patterns[k]| <= |left| {
        OccursInLeft(left, right, patterns[k], i);
      } else if i >= |left| {
        OccursInRight(left, right, patterns[k], i - |left|);
      }
    }
  }

  lemma {:induction false} FlagsSoFar(patterns: seq<seq<Byte>>, chunks: seq<seq<Byte>>, future: seq<Byte>)
    requires NonEmpty(patterns)
    ensures OccursAny(patterns, Concat(chunks) + future) <==>
            AnyRedacted(Feed(patterns, chunks).pieces) || OccursAny(patterns, Feed(patterns, chunks).pending + future)
  {
    if chunks != [] {
      var init, last := chunks[..|chunks| - 1], chunks[|chunks| - 1];
      var before := Feed(patterns, init);
      var text := before.pending + last;
      var cut := Release(patterns, text);
      var head, rest := text[..cut], text[cut..] + future;
      assert Concat(init) + (last + future) == Concat(chunks) + future;
      assert before.pending + (last + future) == text + future == head + rest;
      FlagsSoFar(patterns, init, last + future);
      ReleaseStaysClear(patterns, text, future);
      OccursAnySplits(patterns, head, rest);
      ChangesIffOccurs(patterns, head);
      AnyRedactedSnoc(before.pieces, OneShot(patterns, head));
    }
  }

  lemma AnyRedactedSnoc(pieces: seq<Piece>, last: Piece)
    ensures AnyRedacted(pieces + [last]) <==> AnyRedacted(pieces) || last.redacted
  {
    var all := pieces + [last];
    assert forall k :: 0 <= k < |pieces| ==> all[k] == pieces[k];
    assert all[|pieces|] == last;
  }

  /** Some released piece is flagged exactly when some pattern occurs somewhere in the raw input. */
  lemma StreamFlagsExact(patterns: seq<seq<Byte>>, chunks: seq<seq<Byte>>)
    requires NonEmpty(patterns)
    ensures AnyRedacted(Transcript(patterns, chunks)) <==> OccursAny(patterns, Concat(chunks))
  {
    var progress := Feed(patterns, chunks);
    FlagsSoFar(patterns, chunks, []);
    assert Concat(chunks) + [] == Concat(chunks) && progress.pending + [] == progress.pending;
    ChangesIffOccurs(patterns, progress.pending);
    AnyRedactedSnoc(progress.pieces, OneShot(patterns, progress.pending));
  }
}
