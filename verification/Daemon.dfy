/** The daemon object: bounded pushes, event processing and the reconnect loop. */
module Daemon {
  import opened Wrappers
  import opened Arithmetic
  import opened Ledger
  import opened Revocation
  import Edge

  /** The waits between attempts: 500 ms, doubling up to 5 s. */
  function Delay(i: nat): (d: nat) {
    if i == 0 then FIRST_DELAY else Min(2 * Delay(i - 1), MAX_DELAY)
  }

  lemma {:induction false} DelayClosedForm(i: nat)
    ensures Delay(i) == Min(500 * Pow2(i), 5000)
  {
    if i > 0 { DelayClosedForm(i - 1); }
  }

  function Slept(attempts: nat): (ms: nat) {
    if attempts == 0 then 0 else Slept(attempts - 1) + Delay(attempts - 1)
  }

  lemma SleptValues()
    ensures Slept(0) == 0 && Slept(1) == 500 && Slept(2) == 1_500 && Slept(3) == 3_500 && Slept(4) == 7_500
    ensures Slept(5) == 12_500
  {
  }

  /** Store, success and attempts made when at most |net| attempts are allowed. */
  function PushAll(u: Setup, store: Edge.Store, id: string, net: seq<Attempt>): (out: (Edge.Store, bool, nat))
    ensures out.2 <= |net| && (!out.1 ==> out.2 == |net|)
    decreases net
  {
    if net == [] then (store, false, 0)
    else if Succeeds(u, store, id, net[0]) then (StoreAfter(u, store, id, net[0]), true, 1)
    else
      var rest := PushAll(u, StoreAfter(u, store, id, net[0]), id, net[1..]);
      (rest.0, rest.1, rest.2 + 1)
  }

  function PushEvent(u: Setup, store: Edge.Store, e: Event, net: seq<Attempt>): (s: Edge.Store) {
    match EventId(e) case None => store case Some(id) => PushAll(u, store, id, net).0
  }

  /** Whether the event needs no push or its push is not given up. */
  predicate EventPushed(u: Setup, store: Edge.Store, e: Event, net: seq<Attempt>) {
    match EventId(e) case None => true case Some(id) => PushAll(u, store, id, net).1
  }

  /** The store after the first n events of a block, and whether no push among them is given up. */
  function PushEvents(u: Setup, store: Edge.Store, events: seq<Event>, net: seq<seq<Attempt>>, n: nat): (s: Edge.Store)
    requires n <= |events| == |net|
  {
    if n == 0 then store else PushEvent(u, PushEvents(u, store, events, net, n - 1), events[n - 1], net[n - 1])
  }

  predicate AllPushed(u: Setup, store: Edge.Store, events: seq<Event>, net: seq<seq<Attempt>>, n: nat)
    requires n <= |events| == |net|
  {
    n == 0 ||
    (AllPushed(u, store, events, net, n - 1) &&
     EventPushed(u, PushEvents(u, store, events, net, n - 1), events[n - 1], net[n - 1]))
  }

  /** The push loop is what the state machine does with the same attempts: it ends with no push pending, the
      same store, and an abandoned push exactly when the loop reports failure. */
  lemma {:induction false} PushLoopIsRun(u: Setup, s: Sys, net: seq<Attempt>) returns (steps: seq<Step>)
    requires s.pending.Some? && net != [] && s.pending.value.retries == |net|
    ensures Legal(u, s, steps) && |steps| == PushAll(u, s.store, s.pending.value.id, net).2
    ensures Final(u, s, steps) == s.(store := PushAll(u, s.store, s.pending.value.id, net).0, pending := None)
    ensures Undisturbed(u, s, steps) <==> PushAll(u, s.store, s.pending.value.id, net).1
    decreases net
  {
    var step := Push(net[0]);
    var t := Next(u, s, step);
    if t.pending.None? {
      steps := [step];
      assert Legal(u, t, steps[1..]);
      assert |net| == 1 ==> net[1..] == [];
    } else {
      var rest := PushLoopIsRun(u, t, net[1..]);
      steps := [step] + rest;
      assert steps[1..] == rest;
    }
  }

  /** A push loop adds at most the key of its id, and has added it when it reports success. */
  lemma {:induction false} PushAllStores(u: Setup, store: Edge.Store, id: string, net: seq<Attempt>)
    ensures var out := PushAll(u, store, id, net);
            && (out.0 == store || out.0 == store[KeyOf(id) := "true"])
            && (out.1 ==> out.0 == store[KeyOf(id) := "true"])
    decreases net
  {
    if net != [] {
      AttemptStores(u, store, id, net[0]);
      PushAllStores(u, StoreAfter(u, store, id, net[0]), id, net[1..]);
    }
  }

  predicate AllStored(store: Edge.Store, ids: set<string>) {
    forall id :: id in ids ==> KeyOf(id) in store
  }

  /** The attempt that the loop ends with: it succeeds exactly when the edge accepts the daemon, the id has a prefix to
      store and some attempt is answered by a writable edge, and then it stops at the first such attempt. */
  lemma {:induction false} PushAllIff(u: Setup, store: Edge.Store, id: string, net: seq<Attempt>)
    ensures var out := PushAll(u, store, id, net);
            && (out.1 <==> Accepts(u) && Edge.CleanPrefix(id) != "" && Answered(true) in net)
            && (out.1 ==> out.2 > 0 && net[out.2 - 1] == Answered(true) && Answered(true) !in net[..out.2 - 1])
            && (!out.1 ==> out.2 == |net|)
    decreases net
  {
    if net != [] {
      PushSucceedsIff(u, store, id, net[0]);
      PushAllIff(u, StoreAfter(u, store, id, net[0]), id, net[1..]);
      var out := PushAll(u, store, id, net);
      if out.1 && out.2 > 1 {
        assert net[..out.2 - 1] == [net[0]] + net[1..][..out.2 - 2];
      }
    }
  }

  /** A block adds only keys of its own ids, and all of them when no push is given up. */
  lemma {:induction false} BlockStores(u: Setup, store: Edge.Store, events: seq<Event>, net: seq<seq<Attempt>>, n: nat)
    requires n <= |events| == |net|
    ensures var after, ids := PushEvents(u, store, events, net, n), LogIds(events[..n]);
            && store.Keys <= after.Keys <= store.Keys + (set id | id in ids :: KeyOf(id))
            && (AllPushed(u, store, events, net, n) ==> AllStored(after, ids))
  {
    if n > 0 {
      BlockStores(u, store, events, net, n - 1);
      LogIdsLast(events, n);
      if EventId(events[n - 1]).Some? {
        PushAllStores(u, PushEvents(u, store, events, net, n - 1), EventId(events[n - 1]).value, net[n - 1]);
      }
    }
  }

  lemma LogIdsLast(events: seq<Event>, n: nat)
    requires 0 < n <= |events|
    ensures LogIds(events[..n]) == LogIds(events[..n - 1]) + LogIds([events[n - 1]])
    ensures LogIds([events[n - 1]]) == match EventId(events[n - 1]) case Some(id) => {id} case None => {}
  {
    assert events[..n] == events[..n - 1] + [events[n - 1]];
    LogIdsConcat(events[..n - 1], [events[n - 1]]);
    LogIdsOne(events[n - 1]);
  }

  /** The machine state after one event has been delivered and pushed. */
  function AfterEvent(u: Setup, s: Sys, e: Event, net: seq<Attempt>): (t: Sys) {
    s.(pos := s.pos + 1, delivered := Max(s.delivered, s.pos + 1), cache := s.cache + LogIds([e]),
       known := s.known + LogIds([e]), store := PushEvent(u, s.store, e, net))
  }

  /** The machine state after n events of a block: the object's cache and store, and the position advanced by n. */
  function AfterBlock(u: Setup, s: Sys, events: seq<Event>, net: seq<seq<Attempt>>, n: nat): (t: Sys)
    requires n <= |events| == |net|
  {
    s.(pos := s.pos + n, delivered := Max(s.delivered, s.pos + n), cache := s.cache + LogIds(events[..n]),
       known := s.known + LogIds(events[..n]), store := PushEvents(u, s.store, events, net, n))
  }

  /** One event is one delivery followed by its push loop. */
  lemma EventIsRun(u: Setup, s: Sys, e: Event, net: seq<Attempt>) returns (steps: seq<Step>)
    requires s.connected && s.pending.None? && s.pos < |s.ledger.log| && s.ledger.log[s.pos] == e && |net| == RETRIES
    ensures Legal(u, s, steps) && Final(u, s, steps) == AfterEvent(u, s, e, net)
    ensures Undisturbed(u, s, steps) <==> EventPushed(u, s.store, e, net)
  {
    var t := Next(u, s, Deliver);
    LogIdsOne(e);
    var rest := [];
    if EventId(e).Some? {
      rest := PushLoopIsRun(u, t, net);
    } else {
      assert s.cache + LogIds([e]) == s.cache && s.known + LogIds([e]) == s.known;
    }
    steps := [Deliver] + rest;
    assert steps[0] == Deliver && steps[1..] == rest;
  }

  lemma AfterBlockLast(u: Setup, s: Sys, events: seq<Event>, net: seq<seq<Attempt>>, n: nat)
    requires 0 < n <= |events| == |net|
    ensures AfterBlock(u, s, events, net, n)
         == AfterEvent(u, AfterBlock(u, s, events, net, n - 1), events[n - 1], net[n - 1])
  {
    LogIdsLast(events, n);
    var last := LogIds([events[n - 1]]);
    assert s.cache + LogIds(events[..n - 1]) + last == s.cache + (LogIds(events[..n - 1]) + last);
    assert s.known + LogIds(events[..n - 1]) + last == s.known + (LogIds(events[..n - 1]) + last);
  }

  /** One more event after a run that processed the events before it. */
  lemma {:induction false} NextEventRuns(u: Setup, s: Sys, events: seq<Event>, net: seq<seq<Attempt>>, n: nat,
                                         before: seq<Step>)
    returns (steps: seq<Step>)
    requires 0 < n <= |events| == |net| && |net[n - 1]| == RETRIES && s.connected && s.pending.None?
    requires s.pos + n <= |s.ledger.log| && s.ledger.log[s.pos + n - 1] == events[n - 1]
    requires Legal(u, s, before) && Final(u, s, before) == AfterBlock(u, s, events, net, n - 1)
    requires Undisturbed(u, s, before) <==> AllPushed(u, s.store, events, net, n - 1)
    ensures Legal(u, s, steps) && Final(u, s, steps) == AfterBlock(u, s, events, net, n)
    ensures Undisturbed(u, s, steps) <==> AllPushed(u, s.store, events, net, n)
  {
    AfterBlockLast(u, s, events, net, n);
    var last := EventIsRun(u, AfterBlock(u, s, events, net, n - 1), events[n - 1], net[n - 1]);
    steps := before + last;
    RunConcat(u, s, before, last);
  }

  /** Processing a block is what the state machine does with the same attempts: it delivers each event, pushes it, and
      ends with the same cache and store and the position advanced by the block; it is undisturbed exactly when no
      push is given up. */
  lemma {:induction false} BlockIsRun(u: Setup, s: Sys, events: seq<Event>, net: seq<seq<Attempt>>, n: nat)
    returns (steps: seq<Step>)
    requires s.connected && s.pending.None? && s.pos <= s.delivered
    requires s.pos + |events| <= |s.ledger.log| && s.ledger.log[s.pos..s.pos + |events|] == events
    requires n <= |events| == |net| && forall i :: 0 <= i < |net| ==> |net[i]| == RETRIES
    ensures Legal(u, s, steps) && Final(u, s, steps) == AfterBlock(u, s, events, net, n)
    ensures Undisturbed(u, s, steps) <==> AllPushed(u, s.store, events, net, n)
  {
    steps := [];
    if n == 0 {
      assert LogIds(events[..0]) == {};
      assert s.cache + LogIds(events[..0]) == s.cache && s.known + LogIds(events[..0]) == s.known;
    } else {
      assert s.ledger.log[s.pos..s.pos + |events|][n - 1] == events[n - 1];
      steps := BlockIsRun(u, s, events, net, n - 1);
      steps := NextEventRuns(u, s, events, net, n, steps);
    }
  }

  /** Processing the whole log after a reconnect is an undisturbed replay. */
  lemma {:induction false} WholeLogIsReplay(u: Setup, history: seq<Step>, net: seq<seq<Attempt>>)
    returns (replay: seq<Step>)
    requires Legal(u, START, history + [Connect])
    requires var c := Final(u, START, history + [Connect]);
             && |net| == |c.ledger.log| && (forall i :: 0 <= i < |net| ==> |net[i]| == RETRIES)
             && AllPushed(u, c.store, c.ledger.log, net, |net|)
    ensures var c := Final(u, START, history + [Connect]);
            && Legal(u, c, replay) && Undisturbed(u, c, replay)
            && var s := Final(u, c, replay);
            && s.ledger == c.ledger && s.pos == |s.ledger.log| && s.pending.None?
            && s.store == PushEvents(u, c.store, c.ledger.log, net, |net|)
  {
    var c := Final(u, START, history + [Connect]);
    StartInv();
    RunInv(u, START, history + [Connect]);
    ConnectLast(u, START, history);
    assert c.ledger.log[0..|net|] == c.ledger.log;
    replay := BlockIsRun(u, c, c.ledger.log, net, |net|);
  }

  /** After any history and a reconnect, a daemon that processes the whole log without giving up a push leaves the
      edge refusing exactly the prefixes of the logged ids, every delimiter-free revoked id among them. */
  lemma {:induction false} BlockHeals(u: Setup, history: seq<Step>, net: seq<seq<Attempt>>)
    requires Legal(u, START, history + [Connect])
    requires var c := Final(u, START, history + [Connect]);
             && |net| == |c.ledger.log| && (forall i :: 0 <= i < |net| ==> |net[i]| == RETRIES)
             && AllPushed(u, c.store, c.ledger.log, net, |net|)
    ensures var c := Final(u, START, history + [Connect]);
            var refused := EdgeIds(PushEvents(u, c.store, c.ledger.log, net, |net|));
            && refused == Prefixes(LogIds(c.ledger.log))
            && (forall id :: id in RevokedIds(c.ledger) && Edge.Clean(id) ==> id in refused)
  {
    var replay := WholeLogIsReplay(u, history, net);
    ReplayHeals(u, history, replay);
  }

  class FabricRevocationListener {
    var cache: set<string>
    const edge: Edge.EdgeFilter
    const setup: Setup

    constructor (edge: Edge.EdgeFilter, setup: Setup)
      requires setup.cfg == edge.config
      ensures cache == {} && this.edge == edge && this.setup == setup
    {
      cache, this.edge, this.setup := {}, edge, setup;
    }

    /** One POST to the admin endpoint; success is a 200 that arrives. */
    method TryPush(id: string, a: Attempt) returns (success: bool)
      requires setup.cfg == edge.config
      modifies edge
      ensures edge.shared == StoreAfter(setup, old(edge.shared), id, a)
      ensures success == Succeeds(setup, old(edge.shared), id, a)
    {
      success := false;
      if !a.Unreachable? {
        var res := edge.OnHttpRequestHeaders(PushRequest(setup, id), setup.verify, setup.keyLoaded, a.writable);
        success := a.Answered? && res == Edge.Reply(200);
      }
    }

    /** Pushes one id with up to five attempts. */
    method SyncToEnvoyMemory(id: string, net: seq<Attempt>) returns (ok: bool, attempts: nat, slept: nat)
      requires |net| == RETRIES && setup.cfg == edge.config
      modifies edge
      ensures (edge.shared, ok, attempts) == PushAll(setup, old(edge.shared), id, net)
      ensures ok ==> KeyOf(id) in edge.shared && edge.shared[KeyOf(id)] == "true"
      ensures slept == Slept(if ok then attempts - 1 else RETRIES)
      ensures slept == if !ok then 12_500 else [0, 500, 1_500, 3_500, 7_500][attempts - 1]
    {
      var retries, delay := RETRIES, FIRST_DELAY;
      attempts, slept := 0, 0;
      while retries > 0
        invariant attempts <= RETRIES && retries + attempts == RETRIES
        invariant slept == Slept(attempts) && delay == Delay(attempts)
        invariant PushAll(setup, old(edge.shared), id, net)
               == (var p := PushAll(setup, edge.shared, id, net[attempts..]); (p.0, p.1, p.2 + attempts))
      {
        var a := net[attempts];
        ghost var rest := net[attempts..];
        assert rest[0] == a && rest[1..] == net[attempts + 1..];
        AttemptStores(setup, edge.shared, id, a);
        var success := TryPush(id, a);
        attempts := attempts + 1;
        if success {
          SleptValues();
          return true, attempts, slept;
        }
        slept := slept + delay;
        delay := Min(2 * delay, MAX_DELAY);
        retries := retries - 1;
      }
      SleptValues();
      ok := false;
    }

    /** Caches and pushes every revocation of a delivered block, in order, cached before or not. */
    method ProcessChaincodeEventsResponse(events: seq<Event>, net: seq<seq<Attempt>>)
      requires setup.cfg == edge.config
      requires |net| == |events| && forall i :: 0 <= i < |net| ==> |net[i]| == RETRIES
      modifies this, edge
      ensures cache == old(cache) + LogIds(events)
      ensures edge.shared == PushEvents(setup, old(edge.shared), events, net, |net|)
      ensures AllPushed(setup, old(edge.shared), events, net, |net|) ==> AllStored(edge.shared, LogIds(events))
    {
      for i := 0 to |events|
        invariant cache == old(cache) + LogIds(events[..i])
        invariant edge.shared == PushEvents(setup, old(edge.shared), events, net, i)
      {
        LogIdsLast(events, i + 1);
        var id := EventId(events[i]);
        if id.Some? {
          cache := cache + {id.value};
          var ok, attempts, slept := SyncToEnvoyMemory(id.value, net[i]);
        }
      }
      assert events[..|events|] == events;
      BlockStores(setup, old(edge.shared), events, net, |net|);
    }
  }

  // ---- The reconnect loop.

  /** The errors in a row at the end of a sequence of stream outcomes; true is a graceful end. */
  function ErrorsInARow(outcomes: seq<bool>): (k: nat) {
    if outcomes == [] || outcomes[|outcomes| - 1] then 0 else ErrorsInARow(outcomes[..|outcomes| - 1]) + 1
  }

  lemma {:induction false} BackoffClosedForm(errors: nat)
    ensures Backoff(errors) == Min(Pow2(errors), 30)
  {
    if errors > 0 { BackoffClosedForm(errors - 1); }
  }

  /** Without a graceful end or a restart the machine counts every stream error. */
  lemma {:induction false} ErrorsAdd(u: Setup, s: Sys, steps: seq<Step>)
    requires Legal(u, s, steps) && StreamEnd !in steps && DaemonRestart !in steps
    ensures Final(u, s, steps).errors == s.errors + multiset(steps)[StreamError]
    decreases steps
  {
    if steps != [] {
      ErrorsAdd(u, Next(u, s, steps[0]), steps[1..]);
      assert steps == [steps[0]] + steps[1..];
    }
  }

  /** In every run the machine's wait is decided by the errors since the last graceful end or restart of the daemon. */
  lemma {:induction false} BackoffOfRun(u: Setup, before: seq<Step>, last: Step, after: seq<Step>)
    requires Legal(u, START, before) && (last == StreamEnd || last == DaemonRestart)
    requires Enabled(u, Final(u, START, before), last) && Legal(u, Next(u, Final(u, START, before), last), after)
    requires StreamEnd !in after && DaemonRestart !in after
    ensures var s := Final(u, Next(u, Final(u, START, before), last), after);
            s.backoff == Min(Pow2(multiset(after)[StreamError]), 30)
  {
    StartInv();
    RunInv(u, START, before);
    var s := Final(u, START, before);
    LedgerStep(u, s, last);
    DaemonStep(u, s, last);
    EdgeStep(u, s, last);
    RunInv(u, Next(u, s, last), after);
    ErrorsAdd(u, Next(u, s, last), after);
    BackoffClosedForm(multiset(after)[StreamError]);
  }

  /** After the k-th error in a row the daemon waits min(2^(k-1), 30) seconds; after a graceful end it does not wait. */
  method Run(outcomes: seq<bool>) returns (waits: seq<nat>)
    ensures |waits| == |outcomes|
    ensures forall i :: 0 <= i < |waits| ==>
              waits[i] == (var k := ErrorsInARow(outcomes[..i + 1]); if k == 0 then 0 else Min(Pow2(k - 1), 30))
  {
    var backoff := 1;
    waits := [];
    for i := 0 to |outcomes|
      invariant |waits| == i && backoff == Backoff(ErrorsInARow(outcomes[..i]))
      invariant forall j :: 0 <= j < i ==>
                  waits[j] == (var k := ErrorsInARow(outcomes[..j + 1]); if k == 0 then 0 else Min(Pow2(k - 1), 30))
    {
      assert outcomes[..i + 1][..i] == outcomes[..i];
      BackoffClosedForm(ErrorsInARow(outcomes[..i]));
      if outcomes[i] {
        waits := waits + [0];
        backoff := 1;
      } else {
        waits := waits + [backoff];
        backoff := Min(2 * backoff, 30);
      }
    }
  }
}
