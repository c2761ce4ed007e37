/** The redactor object: pattern admission, the boundary search, Write and Flush. */
module Redactor {
  import opened Bytes
  import opened Redaction

  const MAX_PATTERN_BYTES := 64 * 1024
  const MAX_PATTERNS := 128

  datatype Admission = Admitted(patterns: seq<seq<Byte>>) | EmptyPattern | TooMany

  /** The patterns of one length, in order. */
  function OfLength(patterns: seq<seq<Byte>>, n: nat): seq<seq<Byte>> {
    if patterns == [] then []
    else
      var init, last := patterns[..|patterns| - 1], patterns[|patterns| - 1];
      OfLength(init, n) + if |last| == n then [last] else []
  }

  ghost predicate LongestFirst(patterns: seq<seq<Byte>>) {
    forall i, j :: 0 <= i < j < |patterns| ==> |patterns[i]| >= |patterns[j]|
  }

  function TotalLength(patterns: seq<seq<Byte>>): nat {
    if patterns == [] then 0
    else TotalLength(patterns[..|patterns| - 1]) + |patterns[|patterns| - 1]|
  }

  lemma OfLengthSnoc(patterns: seq<seq<Byte>>, last: seq<Byte>, n: nat)
    ensures OfLength(patterns + [last], n) == OfLength(patterns, n) + if |last| == n then [last] else []
  {
    assert (patterns + [last])[..|patterns|] == patterns;
  }

  lemma {:induction false} OfLengthAppends(a: seq<seq<Byte>>, b: seq<seq<Byte>>, n: nat)
    ensures OfLength(a + b, n) == OfLength(a, n) + OfLength(b, n)
  {
    if b == [] {
      assert a + b == a;
    } else {
      var init, last := b[..|b| - 1], b[|b| - 1];
      assert a + b == (a + init) + [last] && b == init + [last];
      OfLengthSnoc(a + init, last, n);
      OfLengthAppends(a, init, n);
    }
  }

  lemma {:induction false} NoneOfLength(patterns: seq<seq<Byte>>, n: nat)
    requires forall k :: 0 <= k < |patterns| ==> |patterns[k]| != n
    ensures OfLength(patterns, n) == []
  {
    if patterns != [] {
      NoneOfLength(patterns[..|patterns| - 1], n);
    }
  }

  /** Putting `last` in front of the strictly shorter patterns is stable for every length. */
  lemma InsertStable(sorted: seq<seq<Byte>>, last: seq<Byte>, at: nat, n: nat)
    requires at <= |sorted| && forall k :: at <= k < |sorted| ==> |sorted[k]| < |last|
    ensures OfLength(sorted[..at] + [last] + sorted[at..], n)
         == OfLength(sorted, n) + if |last| == n then [last] else []
  {
    OfLengthSnoc(sorted[..at], last, n);
    OfLengthAppends(sorted[..at] + [last], sorted[at..], n);
    assert sorted == sorted[..at] + sorted[at..];
    OfLengthAppends(sorted[..at], sorted[at..], n);
    if |last| == n {
      NoneOfLength(sorted[at..], n);
    }
  }

  lemma InsertStep(sorted: seq<seq<Byte>>, seen: seq<seq<Byte>>, last: seq<Byte>, at: nat)
    requires at <= |sorted| && forall k :: at <= k < |sorted| ==> |sorted[k]| < |last|
    requires at > 0 ==> |sorted[at - 1]| >= |last|
    requires LongestFirst(sorted) && forall n: nat :: OfLength(sorted, n) == OfLength(seen, n)
    ensures LongestFirst(sorted[..at] + [last] + sorted[at..])
    ensures forall n: nat :: OfLength(sorted[..at] + [last] + sorted[at..], n) == OfLength(seen + [last], n)
  {
    hide OfLength;
    InsertOrdered(sorted, last, at);
    hide LongestFirst;
    forall n: nat ensures OfLength(sorted[..at] + [last] + sorted[at..], n) == OfLength(seen + [last], n) {
      InsertStable(sorted, last, at, n);
      OfLengthSnoc(seen, last, n);
    }
  }

  lemma InsertOrdered(sorted: seq<seq<Byte>>, last: seq<Byte>, at: nat)
    requires at <= |sorted| && forall k :: at <= k < |sorted| ==> |sorted[k]| < |last|
    requires at > 0 ==> |sorted[at - 1]| >= |last|
    requires LongestFirst(sorted)
    ensures LongestFirst(sorted[..at] + [last] + sorted[at..])
  {
    var all := sorted[..at] + [last] + sorted[at..];
    forall i, j | 0 <= i < j < |all| ensures |all[i]| >= |all[j]| {
      assert all[i] == if i < at then sorted[i] else if i == at then last else sorted[i - 1];
      assert all[j] == if j < at then sorted[j] else if j == at then last else sorted[j - 1];
    }
  }

  /** The patterns before i pass both bounds and none of them is empty. */
  predicate PassesTo(patterns: seq<seq<Byte>>, i: nat)
    requires i <= |patterns|
  {
    NonEmpty(patterns[..i]) && TotalLength(patterns[..i]) <= MAX_PATTERN_BYTES && i <= MAX_PATTERNS
  }

  /** An empty pattern is met before a bound is passed. */
  ghost predicate EmptyComesFirst(patterns: seq<seq<Byte>>) {
    exists i :: 0 <= i < |patterns| && patterns[i] == [] && PassesTo(patterns, i)
  }

  lemma NoEmptyIsMet(patterns: seq<seq<Byte>>)
    requires NonEmpty(patterns)
    ensures !EmptyComesFirst(patterns)
  {
  }

  lemma EmptyIsMet(patterns: seq<seq<Byte>>, i: nat)
    requires i < |patterns| && patterns[i] == [] && PassesTo(patterns, i)
    ensures EmptyComesFirst(patterns) && !NonEmpty(patterns)
  {
  }

  /** Where a bound is passed, no empty pattern was or will be met first. */
  lemma BoundComesFirst(patterns: seq<seq<Byte>>, i: nat)
    requires i < |patterns| && NonEmpty(patterns[..i + 1]) && !PassesTo(patterns, i + 1)
    ensures !EmptyComesFirst(patterns)
  {
    forall k | 0 <= k < |patterns| && patterns[k] == [] ensures !PassesTo(patterns, k) {
      if k > i {
        assert patterns[..k][..i + 1] == patterns[..i + 1];
        TotalLengthGrows(patterns[..k], i + 1);
      }
    }
  }

  /**
   * Validates the patterns and orders them longest first.  The order is the stable one: patterns of
   * one length keep the order they were bound in, and none is added or lost.
   */
  method AdmitPatterns(patterns: seq<seq<Byte>>) returns (r: Admission)
    ensures r.Admitted? <==>
            NonEmpty(patterns) && TotalLength(patterns) <= MAX_PATTERN_BYTES && |patterns| <= MAX_PATTERNS
    ensures r.EmptyPattern? <==> EmptyComesFirst(patterns)
    ensures r.Admitted? ==> LongestFirst(r.patterns) && NonEmpty(r.patterns)
    ensures r.Admitted? ==> forall n: nat :: OfLength(r.patterns, n) == OfLength(patterns, n)
  {
    hide OfLength;
    hide EmptyComesFirst;
    var sorted: seq<seq<Byte>> := [];
    var total := 0;
    assert patterns[..0] == [];
    for i := 0 to |patterns|
      invariant |sorted| == i <= MAX_PATTERNS
      invariant total == TotalLength(patterns[..i]) <= MAX_PATTERN_BYTES
      invariant NonEmpty(patterns[..i]) && NonEmpty(sorted) && LongestFirst(sorted)
      invariant forall n: nat :: OfLength(sorted, n) == OfLength(patterns[..i], n)
    {
      var pattern := patterns[i];
      if pattern == [] {
        EmptyIsMet(patterns, i);
        return EmptyPattern;
      }
      total := total + |pattern|;
      assert patterns[..i + 1] == patterns[..i] + [pattern];
      assert patterns[..i + 1][..i] == patterns[..i];
      TotalLengthGrows(patterns, i + 1);
      if total > MAX_PATTERN_BYTES || |sorted| >= MAX_PATTERNS {
        BoundComesFirst(patterns, i);
        return TooMany;
      }
      var at := |sorted|;
      while at > 0 && |sorted[at - 1]| < |pattern|
        invariant 0 <= at <= |sorted|
        invariant forall k :: at <= k < |sorted| ==> |sorted[k]| < |pattern|
      {
        at := at - 1;
      }
      InsertStep(sorted, patterns[..i], pattern, at);
      sorted := sorted[..at] + [pattern] + sorted[at..];
    }
    assert patterns[..|patterns|] == patterns;
    NoEmptyIsMet(patterns);
    r := Admitted(sorted);
  }

  lemma {:induction false} TotalLengthGrows(patterns: seq<seq<Byte>>, i: nat)
    requires i <= |patterns|
    ensures TotalLength(patterns[..i]) <= TotalLength(patterns)
  {
    if i == |patterns| {
      assert patterns[..i] == patterns;
    } else {
      var init := patterns[..|patterns| - 1];
      TotalLengthGrows(init, i);
      assert init[..i] == patterns[..i];
    }
  }

  class LiteralRedactor {
    const patterns: seq<seq<Byte>>
    var pending: seq<Byte>

    ghost predicate Valid() {
      NonEmpty(patterns)
    }

    constructor (patterns: seq<seq<Byte>>)
      requires NonEmpty(patterns)
      ensures Valid() && this.patterns == patterns && pending == []
    {
      this.patterns := patterns;
      pending := [];
    }

    /** Releases everything up to the last point no pattern can straddle, now or later. */
    method Write(chunk: seq<Byte>) returns (ready: seq<Byte>, changed: bool)
      requires Valid()
      modifies this
      ensures var text := old(pending) + chunk; var cut := Release(patterns, text);
              Piece(ready, changed) == OneShot(patterns, text[..cut]) && pending == text[cut..]
      ensures var text := old(pending) + chunk;
              forall c :: 0 <= c <= |text| - (Longest(patterns) - 1) && c <= |text| && Clear(patterns, text, c) ==>
                c <= |text| - |pending|
    {
      pending := pending + chunk;
      ghost var text := pending;
      if |patterns| == 0 {
        ready := pending;
        pending := [];
        assert text[..|text|] == text;
        return ready, false;
      }
      var longest := LongestPattern();
      var limit := |pending| - (longest - 1);
      if limit <= 0 {
        EmptyPiece(patterns);
        return [], false;
      }
      limit := Boundary(limit);
      assert limit == Release(patterns, text);
      if limit <= 0 {
        EmptyPiece(patterns);
        return [], false;
      }
      var head := pending[..limit];
      pending := pending[limit..];
      ready, changed := Replace(head);
    }

    /** The fixpoint search: the greatest clear cut at or below the look-behind limit. */
    method Boundary(start: nat) returns (limit: nat)
      requires Valid() && 0 < start <= |pending|
      ensures limit == ClearCut(patterns, pending, start)
    {
      limit := start;
      while true
        invariant limit <= start
        invariant forall c :: limit < c <= start ==> !Clear(patterns, pending, c)
        decreases limit
      {
        ghost var before := limit;
        var changed := false;
        for k := 0 to |patterns|
          invariant limit <= before && (!changed ==> limit == before) && (changed ==> limit < before)
          invariant forall c :: limit < c <= start ==> !Clear(patterns, pending, c)
          invariant !changed ==> ClearUpTo(k, limit)
        {
          var pattern := patterns[k];
          var offset := 0;
          while true
            invariant offset <= |pending|
            invariant limit <= before && (!changed ==> limit == before) && (changed ==> limit < before)
            invariant forall c :: limit < c <= start ==> !Clear(patterns, pending, c)
            invariant !changed ==> ClearUpTo(k, limit) && ClearBefore(k, offset, limit)
            decreases |pending| - offset
          {
            var index := Index(pending[offset..], pattern);
            IndexInRest(pending, pattern, offset);
            if index < 0 {
              break;
            }
            index := index + offset;
            if index < limit && index + |pattern| > limit {
              assert forall c :: index < c <= limit ==> !Clear(patterns, pending, c) by {
                assert OccursAt(pending, patterns[k], index);
              }
              limit := index;
              changed := true;
            }
            offset := index + 1;
            if offset >= |pending| {
              NothingAtEnd(pending, pattern);
              break;
            }
          }
          assert !changed ==> ClearUpTo(k + 1, limit);
        }
        if !changed {
          break;
        }
      }
      assert Clear(patterns, pending, limit);
    }

    /** The first k patterns do not straddle `cut`. */
    ghost predicate ClearUpTo(k: int, cut: int)
      requires 0 <= k <= |patterns|
      reads this
    {
      forall j, i :: 0 <= j < k && OccursAt(pending, patterns[j], i) ==> !(i < cut < i + |patterns[j]|)
    }

    /** Pattern k does not straddle `cut` from any start before `offset`. */
    ghost predicate ClearBefore(k: int, offset: int, cut: int)
      requires 0 <= k < |patterns|
      reads this
    {
      forall i :: i < offset && OccursAt(pending, patterns[k], i) ==> !(i < cut < i + |patterns[k]|)
    }

    method Flush() returns (ready: seq<Byte>, changed: bool)
      requires Valid()
      modifies this
      ensures Piece(ready, changed) == OneShot(patterns, old(pending)) && pending == []
    {
      var head := pending;
      pending := [];
      ready, changed := Replace(head);
    }

    method LongestPattern() returns (longest: nat)
      ensures longest == Longest(patterns)
    {
      longest := 0;
      for k := 0 to |patterns|
        invariant forall j :: 0 <= j < k ==> |patterns[j]| <= longest
        invariant k > 0 ==> exists j :: 0 <= j < k && |patterns[j]| == longest
        invariant k == 0 ==> longest == 0
      {
        if |patterns[k]| > longest {
          longest := |patterns[k]|;
        }
      }
    }

    method Replace(value: seq<Byte>) returns (out: seq<Byte>, changed: bool)
      requires Valid()
      ensures Piece(out, changed) == OneShot(patterns, value)
    {
      out, changed := value, false;
      for k := 0 to |patterns|
        invariant Redact(patterns, value) == Redact(patterns[k..], out)
        invariant Changes(patterns, value) == (changed || Changes(patterns[k..], out))
      {
        assert patterns[k..][1..] == patterns[k + 1..];
        if Index(out, patterns[k]) >= 0 {
          changed := true;
          out := ReplaceAll(patterns[k], out);
        }
      }
    }
  }

  lemma {:induction false} EmptyPiece(patterns: seq<seq<Byte>>)
    requires NonEmpty(patterns)
    ensures OneShot(patterns, []) == Piece([], false)
  {
    if patterns != [] {
      EmptyPiece(patterns[1..]);
    }
  }

  /** A search in the rest of the text finds the first occurrence at or after `offset`. */
  lemma IndexInRest(text: seq<Byte>, pattern: seq<Byte>, offset: nat)
    requires offset <= |text|
    ensures var r := Index(text[offset..], pattern);
            (r >= 0 ==> OccursAt(text, pattern, r + offset)) &&
            forall i :: offset <= i && OccursAt(text, pattern, i) ==> 0 <= r <= i - offset
  {
    var rest := text[offset..];
    assert text == text[..offset] + rest;
    IndexFirst(rest, pattern);
    if Index(rest, pattern) >= 0 {
      OccursInRight(text[..offset], rest, pattern, Index(rest, pattern));
    }
    forall i | offset <= i && OccursAt(text, pattern, i)
      ensures 0 <= Index(rest, pattern) <= i - offset
    {
      OccursInRight(text[..offset], rest, pattern, i - offset);
    }
  }

  lemma NothingAtEnd(text: seq<Byte>, pattern: seq<Byte>)
    requires pattern != []
    ensures forall i :: i >= |text| ==> !OccursAt(text, pattern, i)
  {
  }
}
