/** Ledger, daemon and edge as one state machine: every interleaving of transactions, stream deliveries,
    push attempts, stream failures, edge restarts and public traffic. */
module Revocation {
  import opened Wrappers
  import opened Arithmetic
  import opened Ledger
  import Edge
  import RoleCircuit

  // ---- The daemon's push of one id.

  const RETRIES: nat := 5
  const FIRST_DELAY: nat := 500
  const MAX_DELAY: nat := 5000

  /** What the network does to one attempt: the request never arrives, or it is handled and the reply is lost or
      arrives. */
  datatype Attempt = Unreachable | ReplyLost(writable: bool) | Answered(writable: bool)

  /** Everything about the edge that does not change in a run. */
  datatype Setup = Setup(cfg: Edge.Config, token: string, verify: Edge.Verifier, keyLoaded: bool)

  function PushRequest(u: Setup, id: string): (req: Edge.Request) {
    Edge.Request(Edge.PushPath(id), u.token, None, None, None)
  }

  function Handled(u: Setup, store: Edge.Store, id: string, writable: bool): (out: (Edge.Store, Edge.Response)) {
    Edge.Handle(u.cfg, store, PushRequest(u, id), u.verify, u.keyLoaded, writable)
  }

  function StoreAfter(u: Setup, store: Edge.Store, id: string, a: Attempt): (s: Edge.Store) {
    if a.Unreachable? then store else Handled(u, store, id, a.writable).0
  }

  predicate Succeeds(u: Setup, store: Edge.Store, id: string, a: Attempt) {
    a.Answered? && Handled(u, store, id, a.writable).1 == Edge.Reply(200)
  }

  /** The edge listens for revocations and shares the daemon's token. */
  predicate Accepts(u: Setup) {
    u.cfg.mode == "admin_enabled" && u.token != "" && u.token == u.cfg.adminToken
  }

  function KeyOf(id: string): (k: string) { Edge.StoreKey(Edge.CleanPrefix(id)) }

  /** An attempt stores the id's delimiter-free prefix exactly when it reaches a writable edge that accepts the daemon
      and there is something to store, whether or not the reply arrives; a successful attempt has stored it. */
  lemma AttemptStores(u: Setup, store: Edge.Store, id: string, a: Attempt)
    ensures StoreAfter(u, store, id, a) ==
            if !a.Unreachable? && a.writable && Accepts(u) && Edge.CleanPrefix(id) != "" then
              store["revoked." + Edge.CleanPrefix(id) := "true"]
            else store
    ensures Succeeds(u, store, id, a) ==>
            Edge.CleanPrefix(id) != "" && StoreAfter(u, store, id, a) == store[KeyOf(id) := "true"]
  {
    Edge.PushPathRoundTrip(id);
  }

  // ---- The machine.

  datatype Pending = Pending(id: string, retries: nat, delay: nat)

  datatype Sys = Sys(
    ledger: State,
    cache: set<string>, connected: bool, pos: nat, pending: Option<Pending>,
    backoff: nat,
    store: Edge.Store,
    // history: the longest event prefix delivered and the errors in a row since the daemon started, and the ids that
    // it ever cached, before this start included
    delivered: nat, errors: nat, known: set<string>)

  const START: Sys := Sys(INITIAL, {}, false, 0, None, 1, map[], 0, 0, {})

  datatype Step =
    | Commit(tx: Tx)
    | Connect
    | Deliver
    | Push(attempt: Attempt)
    | StreamError
    | StreamEnd
    | Traffic(req: Edge.Request, writable: bool)
    | EdgeRestart
    | DaemonRestart

  /** Only the daemon is authorised on the admin path; any transaction may commit at any time. */
  predicate Enabled(u: Setup, s: Sys, step: Step) {
    match step
    case Commit(_) => true
    case Connect => !s.connected
    case Deliver => s.connected && s.pending.None? && s.pos < |s.ledger.log|
    case Push(_) => s.pending.Some?
    case StreamError => s.pending.None?
    case StreamEnd => s.connected && s.pending.None?
    case Traffic(req, _) => !Edge.Authorised(u.cfg, req)
    case EdgeRestart => true
    case DaemonRestart => true
  }

  function Min(a: nat, b: nat): (m: nat) { if a <= b then a else b }
  function Max(a: nat, b: nat): (m: nat) { if a <= b then b else a }

  function Next(u: Setup, s: Sys, step: Step): (s': Sys)
    requires Enabled(u, s, step)
  {
    match step
    case Commit(tx) => s.(ledger := Apply(s.ledger, tx))
    case Connect => s.(connected := true, pos := 0)
    case Deliver =>
      var seen := s.(pos := s.pos + 1, delivered := Max(s.delivered, s.pos + 1));
      (match EventId(s.ledger.log[s.pos])
       case None => seen
       case Some(id) =>
         seen.(cache := s.cache + {id}, known := s.known + {id}, pending := Some(Pending(id, RETRIES, FIRST_DELAY))))
    case Push(a) =>
      var p := s.pending.value;
      s.(store := StoreAfter(u, s.store, p.id, a),
         pending := if Succeeds(u, s.store, p.id, a) || p.retries <= 1 then None
                    else Some(Pending(p.id, p.retries - 1, Min(2 * p.delay, MAX_DELAY))))
    case StreamError => s.(connected := false, backoff := Min(2 * s.backoff, 30), errors := s.errors + 1)
    case StreamEnd => s.(connected := false, backoff := 1, errors := 0)
    case Traffic(req, writable) => s.(store := Edge.Handle(u.cfg, s.store, req, u.verify, u.keyLoaded, writable).0)
    case EdgeRestart => s.(store := map[])
    case DaemonRestart =>
      s.(cache := {}, connected := false, pos := 0, pending := None, backoff := 1, delivered := 0, errors := 0)
  }

  predicate Legal(u: Setup, s: Sys, steps: seq<Step>)
    decreases steps
  {
    steps == [] || (Enabled(u, s, steps[0]) && Legal(u, Next(u, s, steps[0]), steps[1..]))
  }

  function Final(u: Setup, s: Sys, steps: seq<Step>): (s': Sys)
    requires Legal(u, s, steps)
    decreases steps
  {
    if steps == [] then s else Final(u, Next(u, s, steps[0]), steps[1..])
  }

  lemma FirstStep(u: Setup, s: Sys, a: Step, rest: seq<Step>)
    requires Enabled(u, s, a) && Legal(u, Next(u, s, a), rest)
    ensures Legal(u, s, [a] + rest) && Final(u, s, [a] + rest) == Final(u, Next(u, s, a), rest)
  {
    assert ([a] + rest)[0] == a && ([a] + rest)[1..] == rest;
  }

  /** A run followed by a run is a run. */
  lemma {:induction false} RunConcat(u: Setup, s: Sys, a: seq<Step>, b: seq<Step>)
    requires Legal(u, s, a) && Legal(u, Final(u, s, a), b)
    ensures Legal(u, s, a + b) && Final(u, s, a + b) == Final(u, Final(u, s, a), b)
    ensures Undisturbed(u, s, a + b) <==> Undisturbed(u, s, a) && Undisturbed(u, Final(u, s, a), b)
    decreases a
  {
    if a == [] {
      assert a + b == b;
    } else {
      assert (a + b)[0] == a[0] && (a + b)[1..] == a[1..] + b;
      RunConcat(u, Next(u, s, a[0]), a[1..], b);
    }
  }

  // ---- The invariant.

  ghost predicate LedgerInv(s: Sys) { Valid(s.ledger) && RevokedIds(s.ledger) <= LogIds(s.ledger.log) }

  predicate DaemonInv(s: Sys) {
    && s.pos <= s.delivered <= |s.ledger.log|
    && s.cache == LogIds(s.ledger.log[..s.delivered])
    && s.cache <= s.known <= LogIds(s.ledger.log)
    && (s.pending.Some? ==>
        var p := s.pending.value;
        s.connected && p.id in s.cache && 1 <= p.retries <= 5 && p.delay == Min(500 * Pow2(5 - p.retries), 5000))
  }

  /** Every stored key comes from an id that was cached once. */
  predicate EdgeInv(s: Sys) {
    forall k :: k in s.store ==>
      s.store[k] == "true" && exists id :: id in s.known && Edge.CleanPrefix(id) != "" && k == KeyOf(id)
  }

  /** The wait before the next reconnect, as a function of the errors in a row. */
  function Backoff(errors: nat): (w: nat) {
    if errors == 0 then 1 else Min(2 * Backoff(errors - 1), 30)
  }

  ghost predicate Inv(s: Sys) {
    LedgerInv(s) && DaemonInv(s) && EdgeInv(s) && s.backoff == Backoff(s.errors)
  }

  lemma LedgerStep(u: Setup, s: Sys, step: Step)
    requires LedgerInv(s) && Enabled(u, s, step)
    ensures LedgerInv(Next(u, s, step))
  {
    if step.Commit? {
      ApplyValid(s.ledger, step.tx);
      ApplySets(s.ledger, step.tx);
    }
  }

  /** Transactions only append to the log. */
  lemma LogGrows(s: State, tx: Tx)
    ensures s.log <= Apply(s, tx).log && LogIds(s.log) <= LogIds(Apply(s, tx).log)
  {
    var log' := Apply(s, tx).log;
    assert log' == s.log + log'[|s.log|..];
    LogIdsConcat(s.log, log'[|s.log|..]);
  }

  lemma DaemonStep(u: Setup, s: Sys, step: Step)
    requires DaemonInv(s) && Enabled(u, s, step)
    ensures DaemonInv(Next(u, s, step)) && s.known <= Next(u, s, step).known
    ensures !step.DaemonRestart? ==> s.cache <= Next(u, s, step).cache
  {
    var s' := Next(u, s, step);
    if step.Commit? {
      LogGrows(s.ledger, step.tx);
      assert s'.ledger.log[..s.delivered] == s.ledger.log[..s.delivered];
    } else if step.Deliver? {
      DeliverCache(s.ledger.log, s.pos, s.delivered);
    } else if step.DaemonRestart? {
      assert LogIds(s.ledger.log[..0]) == {};
    }
  }

  /** Delivering event number pos extends the longest prefix by one event, or replays one already in it. */
  lemma DeliverCache(log: seq<Event>, pos: nat, delivered: nat)
    requires pos <= delivered <= |log| && pos < |log|
    ensures LogIds(log[..Max(delivered, pos + 1)]) == LogIds(log[..delivered]) + LogIds([log[pos]])
    ensures LogIds([log[pos]]) == match EventId(log[pos]) case Some(id) => {id} case None => {}
  {
    LogIdsOne(log[pos]);
    if pos == delivered {
      assert log[..pos + 1] == log[..pos] + [log[pos]];
      LogIdsConcat(log[..pos], [log[pos]]);
    } else {
      var prefix := log[..delivered];
      assert prefix == prefix[..pos] + [log[pos]] + prefix[pos + 1..];
      LogIdsConcat(prefix[..pos] + [log[pos]], prefix[pos + 1..]);
      LogIdsConcat(prefix[..pos], [log[pos]]);
    }
  }

  lemma EdgeStep(u: Setup, s: Sys, step: Step)
    requires DaemonInv(s) && EdgeInv(s) && Enabled(u, s, step)
    ensures EdgeInv(Next(u, s, step))
  {
    DaemonStep(u, s, step);
    var s' := Next(u, s, step);
    if step.Push? {
      AttemptStores(u, s.store, s.pending.value.id, step.attempt);
    } else if step.Traffic? {
      Edge.StoreChanges(u.cfg, s.store, step.req, u.verify, u.keyLoaded, step.writable, "");
    }
    forall k | k in s'.store
      ensures s'.store[k] == "true" && exists id :: id in s'.known && Edge.CleanPrefix(id) != "" && k == KeyOf(id)
    {
      if k !in s.store || s'.store[k] != s.store[k] {
        assert step.Push? && k == KeyOf(s.pending.value.id);
      } else {
        var id :| id in s.known && Edge.CleanPrefix(id) != "" && k == KeyOf(id);
        assert id in s'.known;
      }
    }
  }

  /** The invariant holds in every state of every run. */
  lemma {:induction false} RunInv(u: Setup, s: Sys, steps: seq<Step>)
    requires Inv(s) && Legal(u, s, steps)
    ensures Inv(Final(u, s, steps))
    decreases steps
  {
    if steps != [] {
      LedgerStep(u, s, steps[0]);
      DaemonStep(u, s, steps[0]);
      EdgeStep(u, s, steps[0]);
      RunInv(u, Next(u, s, steps[0]), steps[1..]);
    }
  }

  /** The transactions a run commits, in order. */
  function Committed(steps: seq<Step>): (txs: seq<Tx>) {
    if steps == [] then []
    else (if steps[0].Commit? then [steps[0].tx] else []) + Committed(steps[1..])
  }

  /** Nothing but the committed transactions changes the ledger. */
  lemma {:induction false} LedgerOfRun(u: Setup, s: Sys, steps: seq<Step>)
    requires Legal(u, s, steps)
    ensures Final(u, s, steps).ledger == ApplyAll(s.ledger, Committed(steps))
    decreases steps
  {
    if steps != [] {
      var t := Next(u, s, steps[0]);
      LedgerOfRun(u, t, steps[1..]);
      if steps[0].Commit? {
        var one := [steps[0].tx];
        assert ApplyAll(s.ledger, one) == t.ledger by {
          assert one[..0] == [] && one[0] == steps[0].tx;
        }
        ApplyAllConcat(s.ledger, one, Committed(steps[1..]));
      } else {
        assert Committed(steps) == Committed(steps[1..]);
      }
    }
  }

  lemma StartInv()
    ensures Inv(START)
  {
    assert LogIds([]) == {} && RevokedIds(INITIAL) == {};
  }

  // ---- What the invariant means for the edge.

  function EdgeIds(store: Edge.Store): (ids: set<string>) {
    set k | k in store && |k| >= 8 && store[k] == "true" :: k[8..]
  }

  function Prefixes(ids: set<string>): (ps: set<string>) {
    set id | id in ids :: Edge.CleanPrefix(id)
  }

  predicate AllClean(ids: set<string>) {
    forall id :: id in ids ==> Edge.Clean(id)
  }

  lemma EdgeIdsMeans(store: Edge.Store, id: string)
    requires forall k :: k in store ==> exists x :: k == Edge.StoreKey(x)
    ensures id in EdgeIds(store) <==> Edge.Refused(store, id)
  {
    if id in EdgeIds(store) {
      var k :| k in store && |k| >= 8 && store[k] == "true" && k[8..] == id;
      var x :| k == Edge.StoreKey(x);
      assert x == id;
    }
    if Edge.Refused(store, id) {
      assert Edge.StoreKey(id)[8..] == id;
    }
  }

  lemma EdgeKeys(s: Sys)
    requires EdgeInv(s)
    ensures forall k :: k in s.store ==> exists x :: k == Edge.StoreKey(x)
    ensures EdgeIds(s.store) <= Prefixes(s.known)
  {
    forall k | k in s.store ensures exists x :: k == Edge.StoreKey(x) {
      var id :| id in s.known && Edge.CleanPrefix(id) != "" && k == KeyOf(id);
      assert k == Edge.StoreKey(Edge.CleanPrefix(id));
    }
    forall x | x in EdgeIds(s.store) ensures x in Prefixes(s.known) {
      EdgeIdsMeans(s.store, x);
      var id :| id in s.known && Edge.StoreKey(x) == KeyOf(id);
      Edge.KeyInjective(x, Edge.CleanPrefix(id));
    }
  }

  lemma CleanIsOwnPrefix(ids: set<string>)
    ensures AllClean(ids) ==> Prefixes(ids) == ids
    ensures Prefixes(ids) == ids && "" !in ids ==> AllClean(ids)
  {
    forall id { Edge.CleanPrefixIff(id); }
    if AllClean(ids) {
      forall id | id in ids ensures id in Prefixes(ids) {
        assert Edge.CleanPrefix(id) == id;
      }
    }
    forall id | Prefixes(ids) == ids && "" !in ids && id in ids ensures Edge.Clean(id) {
      var x :| x in ids && Edge.CleanPrefix(x) == id;
    }
  }

  /** In every reachable state: every revoked id is logged, and every logged id revoked exactly when no id was left
      recorded again after its revocation; the cache is the longest prefix delivered since the daemon started; the edge
      refuses only (prefixes of) ids that the daemon cached once, all logged, which are those of the cache unless the
      daemon was restarted. */
  lemma ReachableStates(u: Setup, steps: seq<Step>)
    requires Legal(u, START, steps)
    ensures
      var s := Final(u, START, steps);
      && RevokedIds(s.ledger) <= LogIds(s.ledger.log)
      && (RevokedIds(s.ledger) == LogIds(s.ledger.log) <==> forall id :: !Reissued(Committed(steps), id))
      && s.delivered <= |s.ledger.log| && s.cache == LogIds(s.ledger.log[..s.delivered])
      && s.cache <= s.known <= LogIds(s.ledger.log) && (DaemonRestart !in steps ==> s.known == s.cache)
      && EdgeIds(s.store) <= Prefixes(s.known)
      && (AllClean(LogIds(s.ledger.log)) ==> EdgeIds(s.store) <= s.known)
      && s.backoff == Backoff(s.errors)
  {
    LedgerOfRun(u, START, steps);
    AgreementOfRun(Committed(steps));
    StartInv();
    RunInv(u, START, steps);
    var s := Final(u, START, steps);
    EdgeKeys(s);
    CleanIsOwnPrefix(s.known);
    if DaemonRestart !in steps {
      KnownIsCached(u, START, steps);
    }
  }

  lemma {:induction false} KnownIsCached(u: Setup, s: Sys, steps: seq<Step>)
    requires Legal(u, s, steps) && DaemonRestart !in steps && s.known == s.cache
    ensures Final(u, s, steps).known == Final(u, s, steps).cache
    decreases steps
  {
    if steps != [] { KnownIsCached(u, Next(u, s, steps[0]), steps[1..]); }
  }

  // ---- Replay heals.

  predicate Interrupts(step: Step) {
    step.StreamError? || step.StreamEnd? || step.EdgeRestart? || step.DaemonRestart?
  }

  predicate Abandons(u: Setup, s: Sys, step: Step)
    requires Enabled(u, s, step)
  {
    step.Push? && s.pending.value.retries <= 1 && !Succeeds(u, s.store, s.pending.value.id, step.attempt)
  }

  /** The stream stays up, edge and daemon are not restarted, and no push fails five times in a row. Transactions,
      traffic and failing attempts may still interleave. */
  predicate Undisturbed(u: Setup, s: Sys, steps: seq<Step>)
    requires Legal(u, s, steps)
    decreases steps
  {
    steps == [] ||
    (!Interrupts(steps[0]) && !Abandons(u, s, steps[0])
     && Undisturbed(u, Next(u, s, steps[0]), steps[1..]))
  }

  /** Every event replayed so far is stored, except the one being pushed. */
  predicate Replayed(s: Sys) {
    s.connected && s.pos <= |s.ledger.log| &&
    forall i :: 0 <= i < s.pos && EventId(s.ledger.log[i]).Some? ==>
      var id := EventId(s.ledger.log[i]).value;
      KeyOf(id) in s.store || (s.pending.Some? && s.pending.value.id == id)
  }

  lemma ReplayStep(u: Setup, s: Sys, step: Step)
    requires Replayed(s) && Enabled(u, s, step) && !Abandons(u, s, step) && !Interrupts(step)
    ensures Replayed(Next(u, s, step))
  {
    if step.Commit? {
      LogGrows(s.ledger, step.tx);
    } else if step.Push? {
      AttemptStores(u, s.store, s.pending.value.id, step.attempt);
    } else if step.Traffic? {
      Edge.StoreChanges(u.cfg, s.store, step.req, u.verify, u.keyLoaded, step.writable, "");
    }
  }

  lemma {:induction false} ReplayRun(u: Setup, s: Sys, steps: seq<Step>)
    requires Replayed(s) && Legal(u, s, steps) && Undisturbed(u, s, steps)
    ensures Replayed(Final(u, s, steps))
    decreases steps
  {
    if steps != [] {
      ReplayStep(u, s, steps[0]);
      ReplayRun(u, Next(u, s, steps[0]), steps[1..]);
    }
  }

  lemma NoEmptyKey(s: Sys)
    requires EdgeInv(s)
    ensures !Edge.Refused(s.store, "")
  {
    forall id | Edge.CleanPrefix(id) != "" ensures Edge.StoreKey("") != KeyOf(id) {
      Edge.KeyInjective("", Edge.CleanPrefix(id));
    }
  }

  /** A finished replay has pushed every logged id. */
  lemma ReplayedId(s: Sys, id: string)
    requires Inv(s) && Replayed(s) && s.pos == |s.ledger.log| && s.pending.None? && id in LogIds(s.ledger.log)
    ensures Edge.Refused(s.store, Edge.CleanPrefix(id))
  {
    var i :| 0 <= i < |s.ledger.log| && EventId(s.ledger.log[i]) == Some(id);
  }

  /** A finished replay: everything in the log has been delivered and pushed. */
  lemma ReplayedMeans(s: Sys)
    requires Inv(s) && Replayed(s) && s.pos == |s.ledger.log| && s.pending.None?
    ensures EdgeIds(s.store) == Prefixes(LogIds(s.ledger.log)) && "" !in EdgeIds(s.store)
  {
    EdgeKeys(s);
    forall id | id in LogIds(s.ledger.log) ensures Edge.CleanPrefix(id) in EdgeIds(s.store) {
      ReplayedId(s, id);
      EdgeIdsMeans(s.store, Edge.CleanPrefix(id));
    }
    NoEmptyKey(s);
    EdgeIdsMeans(s.store, "");
  }

  lemma PrefixRefused(ids: set<string>, id: string)
    requires id in ids
    ensures Edge.CleanPrefix(id) in Prefixes(ids) && (Edge.Clean(id) ==> id in Prefixes(ids))
  {
    Edge.CleanPrefixIff(id);
  }

  /** What the edge of a healed system refuses, against the logged and the revoked ids of the ledger: exactly the
      prefixes of the logged ids. Every revoked id has its prefix refused, and is refused itself if it is
      delimiter-free. Exactly the revoked ids are refused when and only when these are delimiter-free and the prefix of
      every logged id is one of them, which for delimiter-free logged ids is agreement, and under agreement is
      delimiter-freeness. */
  predicate Healed(refused: set<string>, logged: set<string>, revoked: set<string>) {
    && refused == Prefixes(logged) && "" !in refused
    && (forall id :: id in revoked ==> Edge.CleanPrefix(id) in refused && (Edge.Clean(id) ==> id in refused))
    && (refused == revoked <==> AllClean(revoked) && Prefixes(logged) <= revoked)
    && (AllClean(logged) ==> (refused == revoked <==> logged == revoked))
    && (logged == revoked ==> (refused == revoked <==> AllClean(revoked)))
  }

  lemma HealedMeans(logged: set<string>, revoked: set<string>)
    requires revoked <= logged && "" !in Prefixes(logged)
    ensures Healed(Prefixes(logged), logged, revoked)
  {
    PrefixesRefused(logged, revoked);
    EqualIff(logged, revoked);
  }

  /** When the prefixes of a set are exactly a given part of it. */
  lemma EqualIff(logged: set<string>, revoked: set<string>)
    requires revoked <= logged && "" !in Prefixes(logged)
    ensures Prefixes(logged) == revoked <==> AllClean(revoked) && Prefixes(logged) <= revoked
    ensures AllClean(logged) ==> (Prefixes(logged) == revoked <==> logged == revoked)
    ensures logged == revoked ==> (Prefixes(logged) == revoked <==> AllClean(revoked))
  {
    CleanIsOwnPrefix(revoked);
    CleanIsOwnPrefix(logged);
    assert Prefixes(revoked) <= Prefixes(logged);
    forall id | Prefixes(logged) == revoked && id in revoked ensures Edge.Clean(id) {
      var x :| x in logged && Edge.CleanPrefix(x) == id;
    }
  }

  lemma PrefixesRefused(ids: set<string>, revoked: set<string>)
    requires revoked <= ids
    ensures forall id :: id in revoked ==>
              Edge.CleanPrefix(id) in Prefixes(ids) && (Edge.Clean(id) ==> id in Prefixes(ids))
  {
    forall id | id in revoked
      ensures Edge.CleanPrefix(id) in Prefixes(ids) && (Edge.Clean(id) ==> id in Prefixes(ids))
    {
      PrefixRefused(ids, id);
    }
  }

  /** A complete undisturbed replay ends in a healed state. */
  lemma {:induction false} ReplayDone(u: Setup, history: seq<Step>, replay: seq<Step>)
    requires Legal(u, START, history + [Connect]) && Legal(u, Final(u, START, history + [Connect]), replay)
    requires Undisturbed(u, Final(u, START, history + [Connect]), replay)
    requires var s := Final(u, Final(u, START, history + [Connect]), replay);
             s.pos == |s.ledger.log| && s.pending.None?
    ensures var s := Final(u, Final(u, START, history + [Connect]), replay);
            Inv(s) && EdgeIds(s.store) == Prefixes(LogIds(s.ledger.log)) && "" !in EdgeIds(s.store)
  {
    var c := Final(u, START, history + [Connect]);
    StartInv();
    RunInv(u, START, history + [Connect]);
    ConnectLast(u, START, history);
    RunInv(u, c, replay);
    ReplayRun(u, c, replay);
    ReplayedMeans(Final(u, c, replay));
  }

  /** After any history, one undisturbed replay from the start of the log to its end heals the edge, whatever was
      recorded again. */
  lemma {:induction false} ReplayHeals(u: Setup, history: seq<Step>, replay: seq<Step>)
    requires Legal(u, START, history + [Connect]) && Legal(u, Final(u, START, history + [Connect]), replay)
    requires Undisturbed(u, Final(u, START, history + [Connect]), replay)
    requires var s := Final(u, Final(u, START, history + [Connect]), replay);
             s.pos == |s.ledger.log| && s.pending.None?
    ensures var s := Final(u, Final(u, START, history + [Connect]), replay);
            Healed(EdgeIds(s.store), LogIds(s.ledger.log), RevokedIds(s.ledger))
  {
    ReplayDone(u, history, replay);
    var s := Final(u, Final(u, START, history + [Connect]), replay);
    HealedMeans(LogIds(s.ledger.log), RevokedIds(s.ledger));
  }

  /** A run that ends with a connect ends connected, at the start of the log, with nothing being pushed. */
  lemma {:induction false} ConnectLast(u: Setup, s: Sys, history: seq<Step>)
    requires DaemonInv(s) && Legal(u, s, history + [Connect])
    ensures var c := Final(u, s, history + [Connect]); c.connected && c.pos == 0 && c.pending.None?
    decreases history
  {
    var steps := history + [Connect];
    if history == [] {
      assert steps == [Connect];
    } else {
      assert steps[1..] == history[1..] + [Connect];
      DaemonStep(u, s, steps[0]);
      ConnectLast(u, Next(u, s, steps[0]), history[1..]);
    }
  }

  // ---- Such a replay exists, and what it gives the gate.

  /** An attempt succeeds exactly when it is answered by a writable edge that accepts the daemon and finds an id. */
  lemma PushSucceedsIff(u: Setup, store: Edge.Store, id: string, a: Attempt)
    ensures Succeeds(u, store, id, a) <==> a.Answered? && a.writable && Accepts(u) && Edge.CleanPrefix(id) != ""
  {
    Edge.PushPathRoundTrip(id);
  }

  /** From any connected state the rest of the log can be delivered and pushed without disturbance. */
  lemma {:induction false} ReplayExists(u: Setup, s: Sys) returns (steps: seq<Step>)
    requires Accepts(u) && s.connected && s.pending.None? && s.pos <= |s.ledger.log|
    requires forall id :: id in LogIds(s.ledger.log) ==> Edge.CleanPrefix(id) != ""
    ensures Legal(u, s, steps) && Undisturbed(u, s, steps)
    ensures var t := Final(u, s, steps); t.pos == |t.ledger.log| && t.pending.None? && t.ledger == s.ledger
    decreases |s.ledger.log| - s.pos
  {
    if s.pos == |s.ledger.log| {
      steps := [];
    } else {
      var t := Next(u, s, Deliver);
      var id := EventId(s.ledger.log[s.pos]);
      if id.None? {
        var rest := ReplayExists(u, t);
        steps := [Deliver] + rest;
        assert steps[1..] == rest;
      } else {
        var push := Push(Answered(true));
        assert id.value in LogIds(s.ledger.log);
        PushSucceedsIff(u, t.store, id.value, push.attempt);
        var rest := ReplayExists(u, Next(u, t, push));
        var tail := [push] + rest;
        assert tail[1..] == rest;
        assert Legal(u, t, tail) && Undisturbed(u, t, tail);
        steps := [Deliver] + tail;
        assert steps[1..] == tail;
      }
    }
  }

  /** After any history that leaves the daemon disconnected, an accepting edge can be healed if every logged id has
      a prefix to push, which by ReplayHeals it also needs. */
  lemma HealingIsPossible(u: Setup, history: seq<Step>) returns (replay: seq<Step>)
    requires Accepts(u) && Legal(u, START, history + [Connect])
    requires "" !in Prefixes(LogIds(Final(u, START, history + [Connect]).ledger.log))
    ensures var c := Final(u, START, history + [Connect]);
            && Legal(u, c, replay) && Undisturbed(u, c, replay)
            && Final(u, c, replay).pos == |c.ledger.log| && Final(u, c, replay).pending.None?
            && EdgeIds(Final(u, c, replay).store) == Prefixes(LogIds(c.ledger.log))
            && (forall id :: id in RevokedIds(c.ledger) && Edge.Clean(id) ==> id in EdgeIds(Final(u, c, replay).store))
            && (AllClean(RevokedIds(c.ledger)) && Agreement(c.ledger) ==>
                EdgeIds(Final(u, c, replay).store) == RevokedIds(c.ledger))
  {
    var c := Final(u, START, history + [Connect]);
    StartInv();
    RunInv(u, START, history + [Connect]);
    ConnectLast(u, START, history);
    forall id | id in LogIds(c.ledger.log) ensures Edge.CleanPrefix(id) != "" {
      assert Edge.CleanPrefix(id) in Prefixes(LogIds(c.ledger.log));
    }
    replay := ReplayExists(u, c);
    ReplayHeals(u, history, replay);
  }

  /** Once healed, a request that the edge lets continue names no prefix of a logged id, so no delimiter-free
      credential the ledger has revoked, and its public inputs are witnessed by some clearance within the range. */
  lemma HealedGate(u: Setup, history: seq<Step>, replay: seq<Step>, req: Edge.Request, writable: bool, r: int, n: nat)
    returns (x: RoleCircuit.Instance)
    requires Legal(u, START, history + [Connect]) && Legal(u, Final(u, START, history + [Connect]), replay)
    requires Undisturbed(u, Final(u, START, history + [Connect]), replay)
    requires var s := Final(u, Final(u, START, history + [Connect]), replay);
             && s.pos == |s.ledger.log| && s.pending.None?
             && Edge.Handle(u.cfg, s.store, req, u.verify, u.keyLoaded, writable).1 == Edge.Continue
    requires Prime(r) && RoleCircuit.FieldShape(r, n) && Edge.Sound(u.verify, r, n)
    ensures var s := Final(u, Final(u, START, history + [Connect]), replay);
            && req.revocationId.Some? && req.revocationId.value !in Prefixes(LogIds(s.ledger.log))
            && (Edge.Clean(req.revocationId.value) ==> req.revocationId.value !in RevokedIds(s.ledger))
    ensures req.proof.Some? && req.inputs.Some?
            && u.verify(req.proof.value, req.inputs.value) == Edge.Accept([x.required, x.commitment])
            && (x.clearance - x.required) % r <= 255
            && x.commitment == (x.nullifier * x.clearance * x.role) % r
  {
    ReplayDone(u, history, replay);
    var s := Final(u, Final(u, START, history + [Connect]), replay);
    x := Edge.ContinueMeans(u.cfg, s.store, req, u.verify, u.keyLoaded, writable, r, n);
    EdgeKeys(s);
    EdgeIdsMeans(s.store, req.revocationId.value);
    Edge.CleanPrefixIff(req.revocationId.value);
  }

  /** The healed gate decided: a public request continues exactly when the key is loaded, all headers are there, the
      proof verifies and the id is no prefix of a logged id. */
  lemma HealedGateIff(u: Setup, history: seq<Step>, replay: seq<Step>, req: Edge.Request, writable: bool)
    requires Legal(u, START, history + [Connect]) && Legal(u, Final(u, START, history + [Connect]), replay)
    requires Undisturbed(u, Final(u, START, history + [Connect]), replay)
    requires var s := Final(u, Final(u, START, history + [Connect]), replay);
             s.pos == |s.ledger.log| && s.pending.None?
    requires !Edge.IsAdmin(req)
    ensures var s := Final(u, Final(u, START, history + [Connect]), replay);
            Edge.Handle(u.cfg, s.store, req, u.verify, u.keyLoaded, writable).1 == Edge.Continue <==>
            && u.keyLoaded && Edge.HasHeaders(req) && req.revocationId.value !in Prefixes(LogIds(s.ledger.log))
            && u.verify(req.proof.value, req.inputs.value).Accept?
  {
    ReplayDone(u, history, replay);
    var s := Final(u, Final(u, START, history + [Connect]), replay);
    Edge.GateAnswerIff(u.cfg, s.store, req, u.verify, u.keyLoaded, writable);
    EdgeKeys(s);
    if Edge.HasHeaders(req) {
      EdgeIdsMeans(s.store, req.revocationId.value);
    }
  }

  // ---- Where healing stops short.

  /** The run that records one id, revokes it, connects, delivers the event and pushes it once. */
  function OneRevocation(id: string): (steps: seq<Step>) {
    [Commit(Record(id, "s", "i", "d", 0, None)), Commit(Revoke(id, None)), Connect, Deliver, Push(Answered(true))]
  }

  lemma RecordAndRevoke(id: string)
    ensures
      var s := Apply(Apply(INITIAL, Record(id, "s", "i", "d", 0, None)), Revoke(id, None));
      |s.log| == 1 && EventId(s.log[0]) == Some(id) && RevokedIds(s) == {id}
  {
    var rec := Record(id, "s", "i", "d", 0, None);
    StartInv();
    ApplyValid(INITIAL, rec);
    ApplyFrame(INITIAL, rec, id);
    ApplySets(INITIAL, rec);
    ApplySets(Apply(INITIAL, rec), Revoke(id, None));
  }

  /** It ends with the edge refusing the prefix and the ledger naming the id. */
  lemma OneRevocationRun(u: Setup, id: string)
    requires Accepts(u) && Edge.CleanPrefix(id) != ""
    ensures Legal(u, START, OneRevocation(id))
    ensures var s := Final(u, START, OneRevocation(id));
            EdgeIds(s.store) == {Edge.CleanPrefix(id)} && RevokedIds(s.ledger) == {id}
  {
    var steps := OneRevocation(id);
    RecordAndRevoke(id);
    var s1 := START.(ledger := Apply(INITIAL, steps[0].tx));
    var s2 := START.(ledger := Apply(Apply(INITIAL, steps[0].tx), steps[1].tx));
    DeliverAndPush(u, s2, id);
    var rest := [Connect, Deliver, Push(Answered(true))];
    FirstStep(u, s1, steps[1], rest);
    FirstStep(u, START, steps[0], [steps[1]] + rest);
    assert steps == [steps[0]] + ([steps[1]] + rest);
    OneKey(Edge.CleanPrefix(id));
  }

  lemma DeliverAndPush(u: Setup, s: Sys, id: string)
    requires Accepts(u) && Edge.CleanPrefix(id) != ""
    requires !s.connected && s.pending.None? && s.store == map[]
    requires |s.ledger.log| == 1 && EventId(s.ledger.log[0]) == Some(id)
    ensures var steps := [Connect, Deliver, Push(Answered(true))];
            && Legal(u, s, steps) && Final(u, s, steps).store == map[KeyOf(id) := "true"]
            && Final(u, s, steps).ledger == s.ledger
  {
    var push := Push(Answered(true));
    var s1 := Next(u, s, Connect);
    var s2 := Next(u, s1, Deliver);
    PushSucceedsIff(u, s2.store, id, Answered(true));
    AttemptStores(u, s2.store, id, Answered(true));
    FirstStep(u, s2, push, []);
    FirstStep(u, s1, Deliver, [push] + []);
    FirstStep(u, s, Connect, [Deliver] + ([push] + []));
    assert [Connect, Deliver, push] == [Connect] + ([Deliver] + ([push] + []));
  }

  lemma OneKey(x: string)
    ensures EdgeIds(map[Edge.StoreKey(x) := "true"]) == {x}
  {
    assert Edge.StoreKey(x)[8..] == x;
    assert Edge.StoreKey(x) in map[Edge.StoreKey(x) := "true"];
  }

  /** The id "a&b" is revoked, delivered and pushed, and the edge refuses "a" instead. */
  lemma DelimiterRefusesPrefix(u: Setup)
    requires Accepts(u)
    ensures Legal(u, START, OneRevocation("a&b"))
    ensures var s := Final(u, START, OneRevocation("a&b"));
            EdgeIds(s.store) == {"a"} && RevokedIds(s.ledger) == {"a&b"}
  {
    assert Edge.CleanPrefix("a&b") == "a";
    OneRevocationRun(u, "a&b");
  }

  /** A restarted edge has forgotten a revocation that stands, and a restarted daemon its cache, until a replay. */
  lemma RestartsForget(u: Setup, id: string)
    requires Accepts(u) && Edge.Clean(id)
    ensures var steps := OneRevocation(id) + [EdgeRestart, DaemonRestart];
            && Legal(u, START, steps)
            && var s := Final(u, START, steps);
            RevokedIds(s.ledger) == {id} && EdgeIds(s.store) == {} && s.cache == {} && !s.connected && s.backoff == 1
  {
    Edge.CleanPrefixIff(id);
    OneRevocationRun(u, id);
    var s := Final(u, START, OneRevocation(id));
    var restarts := [EdgeRestart, DaemonRestart];
    FirstStep(u, Next(u, s, EdgeRestart), DaemonRestart, []);
    FirstStep(u, s, EdgeRestart, [DaemonRestart] + []);
    assert restarts == [EdgeRestart] + ([DaemonRestart] + []);
    RunConcat(u, START, OneRevocation(id), restarts);
  }

  /** A clean id is revoked, delivered and pushed, then recorded again: the edge refuses a credential that is not
      revoked. */
  lemma ReissueStaysRefused(u: Setup, id: string)
    requires Accepts(u) && Edge.Clean(id)
    ensures var steps := OneRevocation(id) + [Commit(Record(id, "s", "i", "d", 0, None))];
            && Legal(u, START, steps)
            && EdgeIds(Final(u, START, steps).store) == {id} && RevokedIds(Final(u, START, steps).ledger) == {}
  {
    var tx := Record(id, "s", "i", "d", 0, None);
    Edge.CleanPrefixIff(id);
    OneRevocationRun(u, id);
    var s := Final(u, START, OneRevocation(id));
    StartInv();
    RunInv(u, START, OneRevocation(id));
    ApplySets(s.ledger, tx);
    RunConcat(u, START, OneRevocation(id), [Commit(tx)]);
  }
}
