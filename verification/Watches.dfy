/**
 * Watch accounting under every interleaving of watches, repeated stream closes and client closes.
 *
 * Closing a stream has two atomic parts: some caller wins the stream's once, and later that caller
 * releases the watch under the ledger lock.  A second close of the stream waits for the first.
 */
module Watches {
  import opened SandboxTypes
  import opened Sums

  datatype Phase = Live | Closing | Released

  datatype Stream = Stream(client: nat, phase: Phase)

  /** `returned` is set once a Close of the client has come back. */
  datatype Client = Client(principal: string, maximumWatches: nat, maximumGlobalWatches: nat, closed: bool,
        returned: bool)

  /** A client close in progress and the streams it set out to close. */
  datatype CloseCall = CloseCall(client: nat, streams: set<nat>)

  datatype State = State(
    clients: map<nat, Client>, streams: map<nat, Stream>, watches: map<string, nat>, calls: map<nat, CloseCall>)

  datatype Step =
    | NewClient(c: nat, principal: string, maximumWatches: nat, maximumGlobalWatches: nat)
    | Watch(c: nat, id: nat, found: bool, cursorHeld: bool)
    | BeginClose(id: nat)
    | Release(id: nat)
    | ClientClose(c: nat, call: nat)
    | ClientCloseReturns(call: nat)

  function WatchesOf(s: State, p: string): nat {
    if p in s.watches then s.watches[p] else 0
  }

  predicate AllReleased(s: State, ids: set<nat>) {
    forall id :: id in ids && id in s.streams ==> s.streams[id].phase == Released
  }

  /** The client and stream ids are those of new objects. */
  ghost function Next(s: State, step: Step): State {
    match step
    case NewClient(c, principal, maximumWatches, maximumGlobalWatches) =>
      if c in s.clients || maximumWatches >= U32 || maximumGlobalWatches >= U32 then s
      else s.(clients := s.clients[c := Client(principal, maximumWatches, maximumGlobalWatches, false, false)])
    case Watch(c, id, found, cursorHeld) =>
      if c !in s.clients || s.clients[c].closed || !found || !cursorHeld || id in s.streams then s
      else
        var client := s.clients[c];
        var held := WatchesOf(s, client.principal);
        if held >= client.maximumWatches || Total(s.watches) % U32 >= client.maximumGlobalWatches then s
        else s.(watches := s.watches[client.principal := (held + 1) % U32], streams := s.streams[id := Stream(c, Live)])
    case BeginClose(id) =>
      if id !in s.streams || s.streams[id].phase != Live then s
      else s.(streams := s.streams[id := s.streams[id].(phase := Closing)])
    case Release(id) =>
      if id !in s.streams || s.streams[id].phase != Closing || s.streams[id].client !in s.clients then s
      else
        var p := s.clients[s.streams[id].client].principal;
        s.(watches := if WatchesOf(s, p) > 0 then s.watches[p := WatchesOf(s, p) - 1] else s.watches,
           streams := s.streams[id := s.streams[id].(phase := Released)])
    case ClientClose(c, call) =>
      if c !in s.clients || call in s.calls then s
      else s.(clients := s.clients[c := s.clients[c].(closed := true)],
              calls := s.calls[call := CloseCall(c, set id | id in s.streams && s.streams[id].client == c
                    && s.streams[id].phase != Released)])
    case ClientCloseReturns(call) =>
      if call !in s.calls || !AllReleased(s, s.calls[call].streams)
         || s.calls[call].client !in s.clients then s
      else
        var c := s.calls[call].client;
        s.(clients := s.clients[c := s.clients[c].(returned := true)])
  }

  ghost function Run(s: State, steps: seq<Step>): State
    decreases |steps|
  {
    if steps == [] then s else Run(Next(s, steps[0]), steps[1..])
  }

  const EMPTY := State(map[], map[], map[], map[])

  // ----- What every step keeps -----

  predicate Registered(s: State, id: nat) {
    id in s.streams && s.streams[id].phase != Released
  }

  predicate Owned(s: State) {
    forall id :: id in s.streams ==> s.streams[id].client in s.clients
  }

  /** The registered streams of a principal's clients. */
  ghost function StreamsOf(s: State, p: string): set<nat>
    requires Owned(s)
  {
    set id | id in s.streams && Registered(s, id) && s.clients[s.streams[id].client].principal == p
  }

  ghost function AllRegistered(s: State): set<nat> {
    set id | id in s.streams && Registered(s, id)
  }

  /** No client's own limits are above the caps. */
  predicate Capped(s: State, cap: nat, globalCap: nat) {
    forall c :: c in s.clients ==>
        s.clients[c].maximumWatches <= cap < U32 && s.clients[c].maximumGlobalWatches <= globalCap < U32
  }

  /** Each principal's count is exactly its registered streams, and the total is all of them. */
  ghost predicate Counted(s: State)
    requires Owned(s)
  {
    (forall p :: WatchesOf(s, p) == |StreamsOf(s, p)|) && Total(s.watches) == |AllRegistered(s)|
  }

  ghost predicate Bounded(s: State, cap: nat, globalCap: nat) {
    (forall p :: p in s.watches ==> s.watches[p] <= cap) && Total(s.watches) <= globalCap
  }

  /** A close call covers every stream its client still has; a client whose close returned has none. */
  ghost predicate ClosesCover(s: State) {
    && (forall k :: k in s.calls ==> s.calls[k].client in s.clients && s.clients[s.calls[k].client].closed)
    && (forall k, id ::
          k in s.calls && id in s.streams && Registered(s, id) && s.streams[id].client == s.calls[k].client ==>
          id in s.calls[k].streams)
    && (forall c, id :: c in s.clients && s.clients[c].returned && id in s.streams && s.streams[id].client == c ==>
          !Registered(s, id))
    && (forall c :: c in s.clients && s.clients[c].returned ==> s.clients[c].closed)
  }

  ghost predicate Inv(s: State, cap: nat, globalCap: nat) {
    Owned(s) && Counted(s) && Bounded(s, cap, globalCap) && ClosesCover(s)
  }

  /** The step registers a new stream. */
  predicate Admits(s: State, after: State, c: nat, id: nat) {
    && c in s.clients && !s.clients[c].closed && id !in s.streams
    && after.streams == s.streams[id := Stream(c, Live)] && after.clients == s.clients && after.calls == s.calls
  }

  lemma AdmitOwned(s: State, after: State, c: nat, id: nat)
    requires Owned(s) && Admits(s, after, c, id)
    ensures Owned(after)
  {
  }

  lemma AdmitMember(s: State, after: State, c: nat, id: nat, q: string, x: nat)
    requires Owned(s) && Admits(s, after, c, id) && Owned(after)
    ensures x in StreamsOf(after, q) <==> x in StreamsOf(s, q) || (x == id && q == s.clients[c].principal)
  {
    if x == id {
      assert after.streams[x] == Stream(c, Live);
    } else if x in s.streams {
      assert after.streams[x] == s.streams[x];
    }
  }

  lemma AdmitStreams(s: State, after: State, c: nat, id: nat, q: string)
    requires Owned(s) && Admits(s, after, c, id) && Owned(after)
    ensures |StreamsOf(after, q)| == |StreamsOf(s, q)| + if q == s.clients[c].principal then 1 else 0
  {
    var added := if q == s.clients[c].principal then {id} else {};
    var was, now := StreamsOf(s, q), StreamsOf(after, q);
    assert id !in was;
    hide StreamsOf;
    hide Owned;
    forall x ensures x in now <==> x in was + added {
      AdmitMember(s, after, c, id, q, x);
    }
    assert now == was + added;
  }

  lemma AdmitCounts(s: State, after: State, c: nat, id: nat)
    requires Owned(s) && Counted(s) && Admits(s, after, c, id)
    requires var p := s.clients[c].principal; after.watches == s.watches[p := WatchesOf(s, p) + 1]
    ensures Owned(after) && Counted(after)
  {
    AdmitOwned(s, after, c, id);
    hide StreamsOf;
    var p := s.clients[c].principal;
    forall q ensures WatchesOf(after, q) == |StreamsOf(after, q)| {
      AdmitStreams(s, after, c, id, q);
    }
    assert AllRegistered(after) == AllRegistered(s) + {id};
    TotalSet(s.watches, p, WatchesOf(s, p) + 1);
  }

  lemma ReleaseStreams(s: State, after: State, id: nat, q: string)
    requires Owned(s) && Registered(s, id)
    requires after == s.(watches := after.watches, streams := s.streams[id := s.streams[id].(phase := Released)])
    ensures Owned(after)
    ensures |StreamsOf(after, q)| == |StreamsOf(s, q)| - if q == s.clients[s.streams[id].client].principal then 1 else 0
  {
    assert id in StreamsOf(s, q) <==> q == s.clients[s.streams[id].client].principal;
    assert StreamsOf(after, q) == StreamsOf(s, q) - {id};
  }

  lemma ReleaseCounts(s: State, after: State, id: nat)
    requires Owned(s) && Counted(s) && Registered(s, id)
    requires after == s.(watches := after.watches, streams := s.streams[id := s.streams[id].(phase := Released)])
    requires var p := s.clients[s.streams[id].client].principal;
             WatchesOf(s, p) > 0 && after.watches == s.watches[p := WatchesOf(s, p) - 1]
    ensures Owned(after) && Counted(after)
  {
    hide StreamsOf;
    var p := s.clients[s.streams[id].client].principal;
    forall q ensures WatchesOf(after, q) == |StreamsOf(after, q)| {
      ReleaseStreams(s, after, id, q);
    }
    assert AllRegistered(after) == AllRegistered(s) - {id};
    TotalSet(s.watches, p, WatchesOf(s, p) - 1);
  }

  /** A stream about to be released is counted, so the guard on the decrement never stops it. */
  lemma GuardNeverNeeded(s: State, id: nat)
    requires Owned(s) && Counted(s) && Registered(s, id)
    ensures WatchesOf(s, s.clients[s.streams[id].client].principal) > 0
  {
    var p := s.clients[s.streams[id].client].principal;
    assert id in StreamsOf(s, p);
  }

  /** Steps that leave registrations and principals alone leave the counts right. */
  lemma SameCounts(s: State, after: State)
    requires Owned(s) && Counted(s) && after.watches == s.watches && Owned(after)
    requires forall id :: id in s.streams <==> id in after.streams
    requires forall id :: id in s.streams ==>
             Registered(s, id) == Registered(after, id) && s.streams[id].client == after.streams[id].client
    requires forall c :: c in s.clients ==> c in after.clients && after.clients[c].principal == s.clients[c].principal
    ensures Counted(after)
  {
    forall q ensures WatchesOf(after, q) == |StreamsOf(after, q)| {
      assert StreamsOf(after, q) == StreamsOf(s, q);
    }
    assert AllRegistered(after) == AllRegistered(s);
  }

  lemma AdmitCovers(s: State, after: State, c: nat, id: nat)
    requires Owned(s) && ClosesCover(s) && Admits(s, after, c, id)
    ensures ClosesCover(after)
  {
  }

  lemma WatchKeepsInv(s: State, c: nat, id: nat, found: bool, cursorHeld: bool, cap: nat, globalCap: nat)
    requires Inv(s, cap, globalCap) && Capped(s, cap, globalCap)
    ensures Inv(Next(s, Watch(c, id, found, cursorHeld)), cap, globalCap)
  {
    hide ClosesCover;
    hide Counted;
    var after := Next(s, Watch(c, id, found, cursorHeld));
    if after != s {
      var p := s.clients[c].principal;
      AdmitCovers(s, after, c, id);
      AdmitCounts(s, after, c, id);
      TotalSet(s.watches, p, WatchesOf(s, p) + 1);
    }
  }

  lemma ReleaseKeepsInv(s: State, id: nat, cap: nat, globalCap: nat)
    requires Inv(s, cap, globalCap)
    ensures Inv(Next(s, Release(id)), cap, globalCap)
  {
    var after := Next(s, Release(id));
    if after != s {
      var p := s.clients[s.streams[id].client].principal;
      GuardNeverNeeded(s, id);
      ReleaseCounts(s, after, id);
      TotalSet(s.watches, p, WatchesOf(s, p) - 1);
    }
  }

  /** Steps that leave the counts alone keep the invariant if they keep the cover of closes. */
  lemma QuietKeepsInv(s: State, after: State, cap: nat, globalCap: nat)
    requires Inv(s, cap, globalCap) && after.watches == s.watches && Owned(after) && ClosesCover(after)
    requires forall id :: id in s.streams <==> id in after.streams
    requires forall id :: id in s.streams ==>
             Registered(s, id) == Registered(after, id) && s.streams[id].client == after.streams[id].client
    requires forall c :: c in s.clients ==> c in after.clients && after.clients[c].principal == s.clients[c].principal
    ensures Inv(after, cap, globalCap)
  {
    SameCounts(s, after);
    hide Counted;
    hide ClosesCover;
  }

  lemma NewClientKeepsInv(s: State, c: nat, principal: string, maximumWatches: nat, maximumGlobalWatches: nat,
                          cap: nat, globalCap: nat)
    requires Inv(s, cap, globalCap)
    ensures Inv(Next(s, NewClient(c, principal, maximumWatches, maximumGlobalWatches)), cap, globalCap)
  {
    var after := Next(s, NewClient(c, principal, maximumWatches, maximumGlobalWatches));
    if after != s {
      assert ClosesCover(after);
      hide Counted;
      QuietKeepsInv(s, after, cap, globalCap);
    }
  }

  lemma BeginCloseKeepsInv(s: State, id: nat, cap: nat, globalCap: nat)
    requires Inv(s, cap, globalCap)
    ensures Inv(Next(s, BeginClose(id)), cap, globalCap)
  {
    var after := Next(s, BeginClose(id));
    if after != s {
      assert ClosesCover(after);
      hide Counted;
      QuietKeepsInv(s, after, cap, globalCap);
    }
  }

  lemma ClientCloseKeepsInv(s: State, c: nat, call: nat, cap: nat, globalCap: nat)
    requires Inv(s, cap, globalCap)
    ensures Inv(Next(s, ClientClose(c, call)), cap, globalCap)
  {
    var after := Next(s, ClientClose(c, call));
    if after != s {
      assert ClosesCover(after);
      hide Counted;
      QuietKeepsInv(s, after, cap, globalCap);
    }
  }

  lemma CloseReturnsKeepsInv(s: State, call: nat, cap: nat, globalCap: nat)
    requires Inv(s, cap, globalCap)
    ensures Inv(Next(s, ClientCloseReturns(call)), cap, globalCap)
  {
    var after := Next(s, ClientCloseReturns(call));
    if after != s {
      assert ClosesCover(after);
      hide Counted;
      QuietKeepsInv(s, after, cap, globalCap);
    }
  }

  lemma NextKeepsInv(s: State, step: Step, cap: nat, globalCap: nat)
    requires Inv(s, cap, globalCap) && Capped(s, cap, globalCap)
    ensures Inv(Next(s, step), cap, globalCap)
  {
    hide Next;
    match step
    case Watch(c, id, found, cursorHeld) => WatchKeepsInv(s, c, id, found, cursorHeld, cap, globalCap);
    case Release(id) => ReleaseKeepsInv(s, id, cap, globalCap);
    case NewClient(c, principal, n, m) => NewClientKeepsInv(s, c, principal, n, m, cap, globalCap);
    case BeginClose(id) => BeginCloseKeepsInv(s, id, cap, globalCap);
    case ClientClose(c, call) => ClientCloseKeepsInv(s, c, call, cap, globalCap);
    case ClientCloseReturns(call) => CloseReturnsKeepsInv(s, call, cap, globalCap);
  }

  /** Clients and their limits only accumulate. */
  lemma CappedBefore(s: State, step: Step, cap: nat, globalCap: nat)
    requires Capped(Next(s, step), cap, globalCap)
    ensures Capped(s, cap, globalCap)
  {
    var after := Next(s, step);
    forall c | c in s.clients
      ensures s.clients[c].maximumWatches <= cap < U32 && s.clients[c].maximumGlobalWatches <= globalCap < U32
    {
      assert c in after.clients;
    }
  }

  lemma {:induction false} RunCappedBefore(s: State, steps: seq<Step>, cap: nat, globalCap: nat)
    requires Capped(Run(s, steps), cap, globalCap)
    ensures Capped(s, cap, globalCap)
    decreases |steps|
  {
    hide Next;
    if steps != [] {
      RunCappedBefore(Next(s, steps[0]), steps[1..], cap, globalCap);
      CappedBefore(s, steps[0], cap, globalCap);
    }
  }

  lemma {:induction false} RunKeepsInv(s: State, steps: seq<Step>, cap: nat, globalCap: nat)
    requires Inv(s, cap, globalCap) && Capped(Run(s, steps), cap, globalCap)
    ensures Inv(Run(s, steps), cap, globalCap)
    decreases |steps|
  {
    hide Next;
    hide Inv;
    if steps != [] {
      RunCappedBefore(s, steps, cap, globalCap);
      NextKeepsInv(s, steps[0], cap, globalCap);
      RunKeepsInv(Next(s, steps[0]), steps[1..], cap, globalCap);
    }
  }

  lemma EmptyInv(cap: nat, globalCap: nat)
    ensures Inv(EMPTY, cap, globalCap)
  {
    forall p ensures |StreamsOf(EMPTY, p)| == 0 {
      assert StreamsOf(EMPTY, p) == {};
    }
    assert AllRegistered(EMPTY) == {};
  }

  /**
   * Over every run whose clients' limits are within the caps: a principal's count is exactly the
   * registered streams of its clients, counts stay within the caps and the 32-bit total does not
   * wrap, and once a close of every client of a principal has returned its count is zero.
   */
  lemma WatchAccounting(steps: seq<Step>, cap: nat, globalCap: nat, p: string)
    requires Capped(Run(EMPTY, steps), cap, globalCap) && globalCap < U32
    ensures var s := Run(EMPTY, steps);
            && Owned(s) && WatchesOf(s, p) == |StreamsOf(s, p)|
            && WatchesOf(s, p) <= cap && Total(s.watches) <= globalCap && Total(s.watches) % U32 == Total(s.watches)
            && ((forall c :: c in s.clients && s.clients[c].principal == p ==> s.clients[c].returned) ==>
                  WatchesOf(s, p) == 0)
  {
    hide Next;
    EmptyInv(cap, globalCap);
    RunKeepsInv(EMPTY, steps, cap, globalCap);
    var s := Run(EMPTY, steps);
    if forall c :: c in s.clients && s.clients[c].principal == p ==> s.clients[c].returned {
      assert StreamsOf(s, p) == {};
    }
  }

  // ----- What each step achieves -----

  /**
   * A watch on a known operation from a held cursor is admitted exactly when its client is open and both
   * the principal and all principals together watch fewer streams than the client's quotas.
   */
  lemma WatchAdmitted(s: State, c: nat, id: nat, found: bool, cursorHeld: bool, cap: nat, globalCap: nat)
    requires Inv(s, cap, globalCap) && Capped(s, cap, globalCap) && c in s.clients && id !in s.streams
    ensures var client := s.clients[c];
            var after := Next(s, Watch(c, id, found, cursorHeld));
            if && found && cursorHeld && !client.closed
               && |StreamsOf(s, client.principal)| < client.maximumWatches
               && |AllRegistered(s)| < client.maximumGlobalWatches
            then && after.streams == s.streams[id := Stream(c, Live)] && after.clients == s.clients
                 && after.calls == s.calls
                 && WatchesOf(after, client.principal) == |StreamsOf(s, client.principal)| + 1
            else after == s
  {
    hide ClosesCover;
    hide StreamsOf;
    hide AllRegistered;
    var p := s.clients[c].principal;
    assert WatchesOf(s, p) == |StreamsOf(s, p)| <= cap;
  }

  /** Closing a live stream and releasing it takes one off its principal's count and leaves every other stream alone. */
  lemma CloseReleases(s: State, id: nat, cap: nat, globalCap: nat)
    requires Inv(s, cap, globalCap) && id in s.streams && s.streams[id].phase == Live
    ensures var p := s.clients[s.streams[id].client].principal;
            var after := Next(Next(s, BeginClose(id)), Release(id));
            && after.streams == s.streams[id := s.streams[id].(phase := Released)]
            && WatchesOf(after, p) == WatchesOf(s, p) - 1
            && (forall q :: q != p ==> WatchesOf(after, q) == WatchesOf(s, q))
            && after.clients == s.clients && after.calls == s.calls
  {
    hide ClosesCover;
    GuardNeverNeeded(s, id);
    hide StreamsOf;
    hide AllRegistered;
  }

  /** A client's close stops its watches at once and sets out to close every stream it still has. */
  lemma ClientCloseStops(s: State, c: nat, call: nat)
    requires c in s.clients && call !in s.calls
    ensures var closing := Next(s, ClientClose(c, call));
            && closing.clients == s.clients[c := s.clients[c].(closed := true)] && closing.streams == s.streams
            && closing.calls == s.calls[call :=
                 CloseCall(c, set id | id in s.streams && s.streams[id].client == c && Registered(s, id))]
  {
    var closing := Next(s, ClientClose(c, call));
    assert closing.calls[call].streams == set id | id in s.streams && s.streams[id].client == c && Registered(s, id);
  }

  /** The close returns exactly when all the streams it found are released. */
  lemma ReturnsWhenReleased(s: State, call: nat)
    requires call in s.calls && s.calls[call].client in s.clients
    ensures var d := s.calls[call].client;
            var after := Next(s, ClientCloseReturns(call));
            if forall id :: id in s.calls[call].streams && id in s.streams ==> !Registered(s, id)
            then after == s.(clients := s.clients[d := s.clients[d].(returned := true)])
            else after == s
  {
  }
}
