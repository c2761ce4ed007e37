/** Listing volumes and snapshots page by page while the map may change between pages. */
module Paging {

  // ----- The order of identifiers -----

  /** Byte-wise lexicographic order. */
  predicate Less(a: string, b: string) {
    b != [] && (a == [] || a[0] < b[0] || (a[0] == b[0] && Less(a[1..], b[1..])))
  }

  lemma {:induction false} LessTransitive(a: string, b: string, c: string)
    requires Less(a, b) && Less(b, c)
    ensures Less(a, c)
  {
    if a != [] && a[0] == b[0] && b[0] == c[0] {
      LessTransitive(a[1..], b[1..], c[1..]);
    }
  }

  lemma {:induction false} LessTotal(a: string, b: string)
    ensures Less(a, b) || Less(b, a) || a == b
    ensures !(Less(a, b) && Less(b, a)) && !(Less(a, b) && a == b)
  {
    if a != [] && b != [] {
      LessTotal(a[1..], b[1..]);
      assert a[0] == b[0] && a[1..] == b[1..] ==> a == [a[0]] + a[1..] == [b[0]] + b[1..] == b;
    }
  }

  ghost predicate Ascending(ids: seq<string>) {
    forall i, j :: 0 <= i < j < |ids| ==> Less(ids[i], ids[j])
  }

  /** A cursor lies before an identifier; the empty cursor lies before all. */
  predicate After(cursor: string, id: string) {
    cursor == "" || Less(cursor, id)
  }

  // ----- Sorted keys -----

  ghost predicate Enumerates(ids: seq<string>, keys: set<string>) {
    Ascending(ids) && (forall k :: k in keys <==> k in ids)
  }

  /** The identifiers in order, by insertion. */
  method SortKeys(keys: set<string>) returns (ids: seq<string>)
    ensures Enumerates(ids, keys)
  {
    ids := [];
    var rest := keys;
    while rest != {}
      invariant rest <= keys
      invariant Enumerates(ids, keys - rest)
      decreases |rest|
    {
      var id :| id in rest;
      var at := |ids|;
      while at > 0 && Less(id, ids[at - 1])
        invariant 0 <= at <= |ids|
        invariant forall k :: at <= k < |ids| ==> Less(id, ids[k])
      {
        at := at - 1;
      }
      InsertAscending(ids, id, at);
      InsertMembers(ids, id, at);
      ids := ids[..at] + [id] + ids[at..];
      rest := rest - {id};
    }
  }

  lemma AscendingIsDistinct(ids: seq<string>, k: nat)
    requires Ascending(ids) && k < |ids|
    ensures ids[k] !in ids[..k]
  {
    forall i | 0 <= i < k ensures ids[i] != ids[k] {
      LessTotal(ids[i], ids[k]);
    }
  }

  lemma InsertAscending(ids: seq<string>, id: string, at: nat)
    requires Ascending(ids) && at <= |ids| && id !in ids
    requires at > 0 ==> !Less(id, ids[at - 1])
    requires forall k :: at <= k < |ids| ==> Less(id, ids[k])
    ensures Ascending(ids[..at] + [id] + ids[at..])
  {
    forall k | 0 <= k < at ensures Less(ids[k], id) {
      LessTotal(ids[at - 1], id);
      if k < at - 1 {
        LessTransitive(ids[k], ids[at - 1], id);
      }
    }
    var all := ids[..at] + [id] + ids[at..];
    forall i, j | 0 <= i < j < |all| ensures Less(all[i], all[j]) {
      assert all[i] == if i < at then ids[i] else if i == at then id else ids[i - 1];
      assert all[j] == if j < at then ids[j] else if j == at then id else ids[j - 1];
    }
  }

  lemma InsertMembers(ids: seq<string>, id: string, at: nat)
    requires at <= |ids|
    ensures forall k :: k in ids[..at] + [id] + ids[at..] <==> k == id || k in ids
  {
    assert ids == ids[..at] + ids[at..];
  }

  /** A set has one ascending enumeration. */
  lemma {:induction false} EnumerationUnique(a: seq<string>, b: seq<string>, keys: set<string>)
    requires Enumerates(a, keys) && Enumerates(b, keys)
    ensures a == b
    decreases |a|
  {
    EmptyEnumeration(a, keys);
    EmptyEnumeration(b, keys);
    if a != [] && b != [] {
      FirstIsLeast(a, b, keys);
      RestEnumerates(a, keys);
      RestEnumerates(b, keys);
      EnumerationUnique(a[1..], b[1..], keys - {a[0]});
      assert a == [a[0]] + a[1..] && b == [b[0]] + b[1..];
    }
  }

  lemma EmptyEnumeration(ids: seq<string>, keys: set<string>)
    requires Enumerates(ids, keys)
    ensures ids == [] <==> keys == {}
  {
    if ids != [] {
      assert ids[0] in keys;
    }
  }

  lemma FirstIsLeast(a: seq<string>, b: seq<string>, keys: set<string>)
    requires Enumerates(a, keys) && Enumerates(b, keys) && a != [] && b != []
    ensures a[0] == b[0]
  {
    assert a[0] in keys && b[0] in keys;
    var i :| 0 <= i < |b| && b[i] == a[0];
    var j :| 0 <= j < |a| && a[j] == b[0];
    LessTotal(a[0], b[0]);
  }

  lemma RestEnumerates(ids: seq<string>, keys: set<string>)
    requires Enumerates(ids, keys) && ids != []
    ensures Enumerates(ids[1..], keys - {ids[0]})
  {
    forall k ensures k in keys - {ids[0]} <==> k in ids[1..] {
      if k in ids[1..] {
        var i :| 0 <= i < |ids[1..]| && ids[1..][i] == k;
        assert Less(ids[0], ids[i + 1]);
        LessTotal(ids[0], k);
      }
      if k in ids && k != ids[0] {
        var i :| 0 <= i < |ids| && ids[i] == k;
        assert ids[1..][i - 1] == k;
      }
    }
  }

  // ----- One page -----

  datatype Page = Page(items: seq<string>, next: string)

  /** Where a page starts: the first identifier after the cursor. */
  function CursorStart(cursor: string, ids: seq<string>): (start: nat)
    ensures start <= |ids|
    ensures forall k :: 0 <= k < start ==> !After(cursor, ids[k])
    ensures start < |ids| ==> After(cursor, ids[start])
  {
    if ids == [] then 0
    else if After(cursor, ids[0]) then 0
    else
      var rest := CursorStart(cursor, ids[1..]);
      assert forall k :: 0 < k < |ids| ==> ids[k] == ids[1..][k - 1];
      rest + 1
  }

  function PageOf(ids: seq<string>, cursor: string, limit: nat): Page {
    var start := CursorStart(cursor, ids);
    var end := if start + limit > |ids| then |ids| else start + limit;
    Page(ids[start..end], if 0 < end < |ids| then ids[end - 1] else "")
  }

  /** Building a page of a map: the sorted identifiers, the scan for the start, then the values. */
  method PageMap<V>(values: map<string, V>, cursor: string, limit: nat,
                    ghost ids: seq<string>) returns (items: seq<V>, next: string)
    requires limit > 0 && Enumerates(ids, values.Keys)
    ensures var page := PageOf(ids, cursor, limit);
            && next == page.next && |items| == |page.items|
            && forall i :: 0 <= i < |items| ==> page.items[i] in values && items[i] == values[page.items[i]]
  {
    var sorted := SortKeys(values.Keys);
    EnumerationUnique(sorted, ids, values.Keys);
    var start := ScanStart(cursor, sorted);
    var end := start + limit;
    if end > |sorted| {
      end := |sorted|;
    }
    assert forall i :: start <= i < end ==> sorted[i] in sorted;
    items := Collect(values, sorted[start..end]);
    next := "";
    if end < |sorted| {
      next := sorted[end - 1];
    }
  }

  /** The values of the identifiers of one page. */
  method Collect<V>(values: map<string, V>, ids: seq<string>) returns (items: seq<V>)
    requires forall i :: 0 <= i < |ids| ==> ids[i] in values
    ensures |items| == |ids| && forall i :: 0 <= i < |ids| ==> items[i] == values[ids[i]]
  {
    items := [];
    for i := 0 to |ids|
      invariant |items| == i && forall k :: 0 <= k < i ==> items[k] == values[ids[k]]
    {
      items := items + [values[ids[i]]];
    }
  }

  method ScanStart(cursor: string, ids: seq<string>) returns (start: nat)
    ensures start == CursorStart(cursor, ids)
  {
    if cursor == "" {
      return 0;
    }
    for index := 0 to |ids|
      invariant forall k :: 0 <= k < index ==> !After(cursor, ids[k])
    {
      if Less(cursor, ids[index]) {
        return index;
      }
    }
    return |ids|;
  }

  ghost predicate InPage(page: Page, keys: set<string>, cursor: string, id: string) {
    id in keys && After(cursor, id) && (page.next == "" || id == page.next || Less(id, page.next))
  }

  lemma ItemInPage(ids: seq<string>, keys: set<string>, cursor: string, limit: nat, i: nat)
    requires Enumerates(ids, keys) && "" !in keys && limit > 0 && i < |PageOf(ids, cursor, limit).items|
    ensures InPage(PageOf(ids, cursor, limit), keys, cursor, PageOf(ids, cursor, limit).items[i])
  {
    var page, start := PageOf(ids, cursor, limit), CursorStart(cursor, ids);
    assert page.items[i] == ids[start + i] && ids[start + i] in ids;
    AfterMonotone(cursor, ids, start, start + i);
  }

  lemma InPageListed(ids: seq<string>, keys: set<string>, cursor: string, limit: nat, i: nat)
    requires Enumerates(ids, keys) && "" !in keys && limit > 0 && i < |ids|
    requires InPage(PageOf(ids, cursor, limit), keys, cursor, ids[i])
    ensures ids[i] in PageOf(ids, cursor, limit).items
  {
    var page, start := PageOf(ids, cursor, limit), CursorStart(cursor, ids);
    var end := start + |page.items|;
    if i >= end {
      assert ids[end - 1] in ids;
      LessTotal(ids[i], page.next);
    } else {
      assert page.items[i - start] == ids[i];
    }
  }

  /** A page is as full as its limit and what is left allow; it has a next cursor exactly when more is left. */
  lemma PageIsFull(ids: seq<string>, cursor: string, limit: nat)
    requires limit > 0 && Ascending(ids) && "" !in ids
    ensures var page, left := PageOf(ids, cursor, limit), |ids| - CursorStart(cursor, ids);
            && |page.items| == (if left < limit then left else limit)
            && (page.next != "" <==> left > limit)
            && (page.next != "" ==> page.next == page.items[limit - 1])
  {
    var start := CursorStart(cursor, ids);
    if start + limit < |ids| {
      assert ids[start + limit - 1] in ids;
    }
  }

  /** A page lists exactly the identifiers after its cursor and up to its next cursor. */
  lemma PageCovers(ids: seq<string>, keys: set<string>, cursor: string, limit: nat, id: string)
    requires Enumerates(ids, keys) && "" !in keys && limit > 0
    ensures id in PageOf(ids, cursor, limit).items <==> InPage(PageOf(ids, cursor, limit), keys, cursor, id)
  {
    hide PageOf;
    hide Less;
    var page := PageOf(ids, cursor, limit);
    if id in page.items {
      var i :| 0 <= i < |page.items| && page.items[i] == id;
      ItemInPage(ids, keys, cursor, limit, i);
    }
    if InPage(page, keys, cursor, id) {
      var i :| 0 <= i < |ids| && ids[i] == id;
      InPageListed(ids, keys, cursor, limit, i);
    }
  }

  lemma AfterMonotone(cursor: string, ids: seq<string>, i: nat, j: nat)
    requires Ascending(ids) && i <= j < |ids| && After(cursor, ids[i])
    ensures After(cursor, ids[j])
  {
    if i < j && cursor != "" {
      LessTransitive(cursor, ids[i], ids[j]);
    }
  }

  lemma NextIsLast(ids: seq<string>, keys: set<string>, cursor: string, limit: nat)
    requires Enumerates(ids, keys) && "" !in keys && limit > 0
    ensures var page := PageOf(ids, cursor, limit);
            Ascending(page.items) && (page.next != "" ==> page.items != [] && page.items[|page.items| - 1] == page.next)
  {
  }

  // ----- A walk -----

  /** The order in which a set's identifiers are listed. */
  ghost function Order(keys: set<string>): (ids: seq<string>)
    ensures Enumerates(ids, keys)
    decreases |keys|
  {
    if keys == {} then []
    else
      var least := Least(keys);
      var rest := Order(keys - {least});
      LeastFirst(least, rest, keys);
      [least] + rest
  }

  lemma LeastFirst(least: string, rest: seq<string>, keys: set<string>)
    requires least in keys && (forall k :: k in keys && k != least ==> Less(least, k))
             && Enumerates(rest, keys - {least})
    ensures Enumerates([least] + rest, keys)
  {
    var all := [least] + rest;
    forall i, j | 0 <= i < j < |all| ensures Less(all[i], all[j]) {
      assert all[j] == rest[j - 1] && rest[j - 1] in rest;
      assert i > 0 ==> all[i] == rest[i - 1];
    }
    assert forall k :: k in all <==> k == least || k in rest;
  }

  ghost function Least(keys: set<string>): (least: string)
    requires keys != {}
    ensures least in keys && forall k :: k in keys && k != least ==> Less(least, k)
    decreases |keys|
  {
    var k :| k in keys;
    if keys == {k} then k
    else
      var other := Least(keys - {k});
      LessTotal(k, other);
      assert Less(k, other) ==> forall j :: j in keys && j != k && j != other ==> Less(k, j) by {
        forall j | j in keys && j != k && j != other && Less(k, other) ensures Less(k, j) {
          LessTransitive(k, other, j);
        }
      }
      if Less(k, other) then k else other
  }

  /** One visit of a walk: the identifiers in the map at that moment, and the page limit asked for. */
  datatype Visit = Visit(keys: set<string>, limit: nat)

  ghost predicate Visits(visits: seq<Visit>) {
    forall i :: 0 <= i < |visits| ==> "" !in visits[i].keys && visits[i].limit > 0
  }

  /** All that a caller following next cursors is shown. */
  ghost function Walk(visits: seq<Visit>, cursor: string): seq<string>
    decreases |visits|
  {
    if visits == [] then []
    else
      var page := PageOf(Order(visits[0].keys), cursor, visits[0].limit);
      page.items + if page.next == "" then [] else Walk(visits[1..], page.next)
  }

  /** The walk reaches a page with no next cursor. */
  ghost predicate Ends(visits: seq<Visit>, cursor: string)
    decreases |visits|
  {
    visits != [] &&
    var page := PageOf(Order(visits[0].keys), cursor, visits[0].limit);
    page.next == "" || Ends(visits[1..], page.next)
  }

  /** However the map changes between pages, identifiers come in strictly increasing order, so none twice. */
  lemma {:induction false} WalkAscends(visits: seq<Visit>, cursor: string)
    requires Visits(visits)
    ensures Ascending(Walk(visits, cursor)) && forall k :: 0 <= k < |Walk(visits, cursor)| ==>
            After(cursor, Walk(visits, cursor)[k])
    decreases |visits|
  {
    if visits != [] {
      var keys, limit := visits[0].keys, visits[0].limit;
      var page := PageOf(Order(keys), cursor, limit);
      NextIsLast(Order(keys), keys, cursor, limit);
      forall k | 0 <= k < |page.items| ensures After(cursor, page.items[k]) {
        PageCovers(Order(keys), keys, cursor, limit, page.items[k]);
      }
      if page.next != "" {
        var rest := Walk(visits[1..], page.next);
        WalkAscends(visits[1..], page.next);
        JoinAscends(page, rest, cursor);
      }
    }
  }

  lemma JoinAscends(page: Page, rest: seq<string>, cursor: string)
    requires page.next != "" && Ascending(page.items) && Ascending(rest)
    requires page.items != [] && page.items[|page.items| - 1] == page.next
    requires forall k :: 0 <= k < |page.items| ==> After(cursor, page.items[k])
    requires forall k :: 0 <= k < |rest| ==> After(page.next, rest[k])
    ensures Ascending(page.items + rest) && forall k :: 0 <= k < |page.items + rest| ==>
            After(cursor, (page.items + rest)[k])
  {
    var all, n := page.items + rest, |page.items|;
    forall i, j | 0 <= i < n && 0 <= j < |rest| ensures Less(page.items[i], rest[j]) {
      assert Less(page.next, rest[j]);
      if i < n - 1 {
        LessTransitive(page.items[i], page.next, rest[j]);
      }
    }
    forall k | 0 <= k < |rest| && cursor != "" ensures Less(cursor, rest[k]) {
      LessTransitive(cursor, page.items[0], rest[k]);
    }
  }

  /** A walk that ends shows every identifier that was in the map throughout. */
  lemma {:induction false} WalkMissesNothing(visits: seq<Visit>, cursor: string, id: string)
    requires Visits(visits) && Ends(visits, cursor) && After(cursor, id)
    requires forall i :: 0 <= i < |visits| ==> id in visits[i].keys
    ensures id in Walk(visits, cursor)
    decreases |visits|
  {
    var keys, limit := visits[0].keys, visits[0].limit;
    var page := PageOf(Order(keys), cursor, limit);
    PageCovers(Order(keys), keys, cursor, limit, id);
    if id !in page.items {
      LessTotal(id, page.next);
      WalkMissesNothing(visits[1..], page.next, id);
    }
  }

  /** Nothing is shown that was not in the map when its page was made. */
  lemma {:induction false} WalkInventsNothing(visits: seq<Visit>, cursor: string, k: nat)
    requires Visits(visits) && k < |Walk(visits, cursor)|
    ensures exists i :: 0 <= i < |visits| && Walk(visits, cursor)[k] in visits[i].keys
    decreases |visits|
  {
    var keys, limit := visits[0].keys, visits[0].limit;
    var page := PageOf(Order(keys), cursor, limit);
    if k < |page.items| {
      PageCovers(Order(keys), keys, cursor, limit, page.items[k]);
      assert Walk(visits, cursor)[k] in visits[0].keys;
    } else {
      WalkInventsNothing(visits[1..], page.next, k - |page.items|);
      var i :| 0 <= i < |visits[1..]| && Walk(visits[1..], page.next)[k - |page.items|] in visits[1..][i].keys;
      assert Walk(visits, cursor)[k] in visits[i + 1].keys;
    }
  }

  /** The visits of a walk over a map that does not change. */
  ghost function Steady(keys: set<string>, limit: nat, n: nat): seq<Visit> {
    seq(n, i => Visit(keys, limit))
  }

  /** How many identifiers lie after a cursor. */
  ghost function Ahead(keys: set<string>, cursor: string): nat {
    |set k | k in keys && After(cursor, k)|
  }

  lemma SteadyRest(keys: set<string>, limit: nat, n: nat)
    requires n > 0
    ensures Steady(keys, limit, n)[0] == Visit(keys, limit)
    ensures Steady(keys, limit, n)[1..] == Steady(keys, limit, n - 1)
  {
  }

  lemma PageAdvances(keys: set<string>, limit: nat, cursor: string)
    requires "" !in keys && limit > 0 && PageOf(Order(keys), cursor, limit).next != ""
    ensures Ahead(keys, PageOf(Order(keys), cursor, limit).next) < Ahead(keys, cursor)
  {
    hide Order;
    hide Ahead;
    hide PageOf;
    var page := PageOf(Order(keys), cursor, limit);
    NextIsLast(Order(keys), keys, cursor, limit);
    PageCovers(Order(keys), keys, cursor, limit, page.next);
    FewerAhead(keys, cursor, page.next);
  }

  /** On an unchanging map every page but the last moves on, so enough visits end the walk. */
  lemma {:induction false} SteadyEnds(keys: set<string>, limit: nat, n: nat, cursor: string)
    requires "" !in keys && limit > 0 && n > Ahead(keys, cursor)
    ensures Ends(Steady(keys, limit, n), cursor)
    decreases n
  {
    hide Order;
    hide Ahead;
    hide PageOf;
    SteadyRest(keys, limit, n);
    var page := PageOf(Order(keys), cursor, limit);
    if page.next != "" {
      PageAdvances(keys, limit, cursor);
      SteadyEnds(keys, limit, n - 1, page.next);
    }
    hide Steady;
  }

  lemma FewerAhead(keys: set<string>, cursor: string, next: string)
    requires next in keys && next != "" && After(cursor, next)
    ensures Ahead(keys, next) < Ahead(keys, cursor)
  {
    var before, after := set k | k in keys && After(cursor, k), set k | k in keys && After(next, k);
    forall k | k in after ensures k in before {
      if cursor != "" {
        LessTransitive(cursor, next, k);
      }
    }
    LessTotal(next, next);
    assert next in before && next !in after;
    Shrinks(after, before);
  }

  lemma Shrinks(a: set<string>, b: set<string>)
    requires a < b
    ensures |a| < |b|
  {
    var rest := b - a;
    assert b == a + rest && a !! rest;
    assert rest != {};
  }

  /** The walk over an unchanging map ends and shows exactly its sorted identifiers. */
  lemma SteadyWalk(keys: set<string>, limit: nat, n: nat)
    requires "" !in keys && limit > 0 && n > |keys|
    ensures Ends(Steady(keys, limit, n), "") && Walk(Steady(keys, limit, n), "") == Order(keys)
  {
    var visits := Steady(keys, limit, n);
    assert (set k | k in keys && After("", k)) == keys;
    SteadyEnds(keys, limit, n, "");
    WalkAscends(visits, "");
    var listed := Walk(visits, "");
    forall k ensures k in keys <==> k in listed {
      if k in keys {
        WalkMissesNothing(visits, "", k);
      }
      if k in listed {
        var i :| 0 <= i < |listed| && listed[i] == k;
        WalkInventsNothing(visits, "", i);
      }
    }
    EnumerationUnique(listed, Order(keys), keys);
  }
}
