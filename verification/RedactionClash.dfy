/** Why every pattern after the first must be edge free for streaming to equal batch. */
module RedactionClash {
  import opened Bytes
  import opened Redaction

  const ABC: seq<Byte> := [97, 98, 99]
  const BRACKET_Z: seq<Byte> := [93, 122]
  const ZQ: seq<Byte> := [122, 113]

  /** A pattern whose first two bytes never stand together is left alone. */
  lemma LeavesAlone(text: seq<Byte>, pattern: seq<Byte>)
    requires |pattern| >= 2
    requires forall i :: 0 <= i < |text| - 1 ==> text[i] != pattern[0] || text[i + 1] != pattern[1]
    ensures ReplaceAll(pattern, text) == text
  {
    IndexFirst(text, pattern);
    var i := Index(text, pattern);
    if i >= 0 {
      OccurrenceBytes(text, pattern, i, 0);
      OccurrenceBytes(text, pattern, i, 1);
    }
  }

  lemma ReplacesFirst(head: seq<Byte>, pattern: seq<Byte>, tail: seq<Byte>)
    requires pattern != [] && forall i :: 0 <= i < |head| ==> head[i] != pattern[0]
    ensures ReplaceAll(pattern, head + pattern + tail) == head + MARKER + ReplaceAll(pattern, tail)
  {
    var text := head + pattern + tail;
    assert text[|head|..|head| + |pattern|] == pattern;
    assert OccursAt(text, pattern, |head|);
    IndexFirst(text, pattern);
    var i := Index(text, pattern);
    if i < |head| {
      OccurrenceBytes(text, pattern, i, 0);
    }
    assert text[..i] == head && text[i + |pattern|..] == tail;
  }

  lemma ClashCut()
    ensures Release([ABC, BRACKET_Z], ABC + ZQ) == 3
  {
    var patterns, text := [ABC, BRACKET_Z], ABC + ZQ;
    assert |patterns[0]| == 3;
    forall k, i | 0 <= k < 2 && OccursAt(text, patterns[k], i) ensures !(i < 3 < i + |patterns[k]|) {
      OccurrenceBytes(text, patterns[k], i, 0);
    }
    assert Clear(patterns, text, 3);
  }

  /**
   * Patterns "abc" and "]z" on the single chunk "abczq".  The redactor cuts after "abc", so the match
   * of "]z" that one-shot redaction finds across the end of the marker is never seen.
   */
  lemma OverlapBreaksStreaming()
    ensures NonEmpty([ABC, BRACKET_Z]) && !EdgeFree(BRACKET_Z)
    ensures Released(Transcript([ABC, BRACKET_Z], [ABC + ZQ])) != Redact([ABC, BRACKET_Z], Concat([ABC + ZQ]))
  {
    var patterns, text := [ABC, BRACKET_Z], ABC + ZQ;
    assert Agrees(BRACKET_Z, 9);
    ClashCut();
    SingleChunk(patterns, text);
    assert text[..3] == ABC && text[3..] == ZQ;
    StreamedSide();
    BatchSide();
  }

  lemma StreamedSide()
    ensures Redact([ABC, BRACKET_Z], ABC) + Redact([ABC, BRACKET_Z], ZQ) == MARKER + ZQ
  {
    hide Redact;
    hide ReplaceAll;
    TwoPatterns(ABC, BRACKET_Z, ABC);
    TwoPatterns(ABC, BRACKET_Z, ZQ);
    assert [] + ABC + [] == ABC && [] + MARKER + [] == MARKER;
    ReplacesFirst([], ABC, []);
    LeavesAlone([], ABC);
    LeavesAlone(MARKER, BRACKET_Z);
    LeavesAlone(ZQ, ABC);
    LeavesAlone(ZQ, BRACKET_Z);
  }

  lemma BatchSide()
    ensures Redact([ABC, BRACKET_Z], ABC + ZQ) == MARKER[..9] + MARKER + [113]
  {
    hide Redact;
    hide ReplaceAll;
    TwoPatterns(ABC, BRACKET_Z, ABC + ZQ);
    assert [] + ABC + ZQ == ABC + ZQ && [] + MARKER + ZQ == MARKER[..9] + BRACKET_Z + [113];
    ReplacesFirst([], ABC, ZQ);
    LeavesAlone(ZQ, ABC);
    ReplacesFirst(MARKER[..9], BRACKET_Z, [113]);
    LeavesAlone([113], BRACKET_Z);
  }
}
