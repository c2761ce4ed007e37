/** Counts per principal and their total. */
module Sums {
  import opened SandboxTypes

  /** The sum of a map's values. */
  ghost function Total(counts: map<string, nat>): nat
    decreases |counts|
  {
    if counts == map[] then 0
    else
      var p :| p in counts;
      counts[p] + Total(counts - {p})
  }

  /** The sum can be taken starting from any key. */
  lemma {:induction false} TotalFrom(counts: map<string, nat>, p: string)
    requires p in counts
    ensures Total(counts) == counts[p] + Total(counts - {p})
    decreases |counts|
  {
    var q :| q in counts && Total(counts) == counts[q] + Total(counts - {q});
    if q != p {
      TotalFrom(counts - {q}, p);
      TotalFrom(counts - {p}, q);
      assert counts - {q} - {p} == counts - {p} - {q};
    }
  }

  lemma TotalSet(counts: map<string, nat>, p: string, n: nat)
    ensures Total(counts[p := n]) == Total(counts - {p}) + n
    ensures Total(counts) == Total(counts - {p}) + if p in counts then counts[p] else 0
  {
    TotalFrom(counts[p := n], p);
    assert counts[p := n] - {p} == counts - {p};
    if p in counts {
      TotalFrom(counts, p);
    } else {
      assert counts - {p} == counts;
    }
  }

  /** What a 32-bit counter holds. */
  function Wrap32(n: nat): nat {
    n % U32
  }

  /** A 32-bit addition. */
  function Add32(a: nat, b: nat): nat {
    (a + b) % U32
  }

  /** Adding in 32 bits all along is adding and wrapping once. */
  lemma WrapOnce(a: nat, b: nat)
    ensures Add32(Wrap32(a), b) == Wrap32(a + b) && Wrap32(0) == 0
  {
    var q := a / U32;
    assert a == q * U32 + a % U32;
    WrapMultiple(a % U32 + b, q);
  }

  lemma {:induction false} WrapMultiple(a: nat, q: nat)
    ensures (a + q * U32) % U32 == a % U32
  {
    if q > 0 {
      WrapMultiple(a, q - 1);
    }
  }

  /** The loop over principals, adding in 32 bits, in whatever order the map is ranged over. */
  method CountWrapping(counts: map<string, nat>) returns (count: nat)
    ensures count == Wrap32(Total(counts))
  {
    hide Wrap32;
    hide Add32;
    count := 0;
    ghost var seen: nat := 0;
    WrapOnce(0, 0);
    var rest := counts;
    while rest != map[]
      invariant seen + Total(rest) == Total(counts) && count == Wrap32(seen)
      decreases |rest|
    {
      var p :| p in rest;
      TotalFrom(rest, p);
      WrapOnce(seen, rest[p]);
      count := Add32(count, rest[p]);
      seen := seen + rest[p];
      rest := rest - {p};
    }
  }
}
