/** The edge filter: the admin path that stores revocations and the gate in front of public traffic. */
module Edge {
  import opened Wrappers
  import opened Arithmetic
  import R1cs
  import RoleCircuit

  // ---- Query extraction, in terms of what `split` yields before and after a separator.

  /** The first piece of s.split(c). */
  function Before(s: string, c: char): (t: string) {
    if s == "" || s[0] == c then "" else [s[0]] + Before(s[1..], c)
  }

  /** What the first separator leaves over, if there is one. */
  function After(s: string, c: char): (t: Option<string>)
    ensures t.Some? ==> |t.value| < |s|
  {
    if s == "" then None else if s[0] == c then Some(s[1..]) else After(s[1..], c)
  }

  /** The second piece of s.split(c). */
  function Second(s: string, c: char): (t: Option<string>) {
    match After(s, c) case None => None case Some(rest) => Some(Before(rest, c))
  }

  /** The first key-value pair with key "id" and a value, possibly empty. */
  function FindId(query: string): (id: Option<string>)
    decreases |query|
  {
    var pair := Before(query, '&');
    if Before(pair, '=') == "id" && Second(pair, '=').Some? then Second(pair, '=')
    else match After(query, '&') case None => None case Some(rest) => FindId(rest)
  }

  function TargetId(path: string): (id: Option<string>) {
    match Second(path, '?') case None => None case Some(query) => FindId(query)
  }

  const ADMIN_PATH := "/_wasm_admin/revoke"

  /** The path that the daemon's client sends: the URL without its fragment. */
  function PushPath(id: string): (path: string) { Before(ADMIN_PATH + "?id=" + id, '#') }

  predicate Delimiter(c: char) { c == '#' || c == '?' || c == '&' || c == '=' }

  predicate Clean(id: string) { id != "" && forall i :: 0 <= i < |id| ==> !Delimiter(id[i]) }

  /** The longest delimiter-free prefix. */
  function CleanPrefix(s: string): (t: string)
    ensures t <= s && (forall i :: 0 <= i < |t| ==> !Delimiter(t[i]))
    ensures t == s || Delimiter(s[|t|])
  {
    if s == "" || Delimiter(s[0]) then "" else [s[0]] + CleanPrefix(s[1..])
  }

  lemma {:induction false} BeforeConcat(a: string, c: char, b: string)
    requires c !in a
    ensures Before(a + b, c) == a + Before(b, c)
  {
    if a == "" {
      assert a + b == b;
    } else {
      var rest := a[1..];
      BeforeConcat(rest, c, b);
      assert a == [a[0]] + rest;
      assert (a + b)[0] == a[0] && (a + b)[1..] == rest + b;
      assert a + Before(b, c) == [a[0]] + (rest + Before(b, c));
    }
  }

  lemma {:induction false} AfterConcat(a: string, c: char, b: string)
    requires c !in a
    ensures After(a + ([c] + b), c) == Some(b)
  {
    if a == "" {
      assert a + ([c] + b) == [c] + b;
    } else {
      AfterConcat(a[1..], c, b);
      assert a + ([c] + b) == [a[0]] + (a[1..] + ([c] + b));
    }
  }

  /** Splitting at a separator that ends the first piece. */
  lemma SplitAt(a: string, c: char, b: string)
    requires c !in a
    ensures Before(a + ([c] + b), c) == a && Second(a + ([c] + b), c) == Some(Before(b, c))
  {
    BeforeConcat(a, c, [c] + b);
    AfterConcat(a, c, b);
  }

  lemma {:induction false} PrefixOfAll(s: string)
    ensures Before(Before(Before(Before(s, '#'), '?'), '&'), '=') == CleanPrefix(s)
  {
    if s != "" && !Delimiter(s[0]) {
      PrefixOfAll(s[1..]);
      var f := Before(s[1..], '#');
      var q := Before(f, '?');
      assert ([s[0]] + f)[1..] == f;
      assert ([s[0]] + q)[1..] == q;
      assert ([s[0]] + Before(q, '&'))[1..] == Before(q, '&');
    }
  }

  /** The query of a pushed path, and the value of the pair inside it. */
  lemma QueryOf(s: string)
    ensures Second(PushPath(s), '?') == Some("id=" + Before(Before(s, '#'), '?'))
    ensures ADMIN_PATH <= PushPath(s)
  {
    var sent := Before(s, '#');
    assert PushPath(s) == ADMIN_PATH + (['?'] + ("id=" + sent)) by {
      BeforeConcat(ADMIN_PATH + "?id=", '#', s);
    }
    SplitAt(ADMIN_PATH, '?', "id=" + sent);
    BeforeConcat("id=", '?', sent);
  }

  lemma IdOfQuery(t: string)
    ensures FindId("id=" + t) == Some(Before(Before(t, '&'), '='))
  {
    var value := Before(t, '&');
    BeforeConcat("id=", '&', t);
    assert "id=" + value == "id" + (['='] + value);
    SplitAt("id", '=', value);
  }

  /** A query whose first pair has a plain key and value: an "id" is found, any other pair is passed over. */
  lemma QueryReads(key: string, value: string, rest: string)
    requires '&' !in key && '=' !in key && '&' !in value && '=' !in value
    ensures FindId(key + "=" + value + "&" + rest) == if key == "id" then Some(value) else FindId(rest)
    ensures FindId(key + "=" + value) == if key == "id" then Some(value) else None
  {
    var pair := key + (['='] + value);
    assert pair == key + "=" + value;
    assert '&' !in pair;
    assert key + "=" + value + "&" + rest == pair + (['&'] + rest);
    SplitAt(pair, '&', rest);
    AfterConcat(pair, '&', rest);
    SplitAt(key, '=', value);
    Absent(value, '=');
    Absent(pair, '&');
  }

  lemma {:induction false} Absent(s: string, c: char)
    requires c !in s
    ensures Before(s, c) == s && After(s, c) == None
  {
    if s != "" { Absent(s[1..], c); }
  }

  /** A path without a query names no id. */
  lemma NoQuery(path: string)
    requires '?' !in path
    ensures TargetId(path) == None
  {
    Absent(path, '?');
  }

  /** Whatever the daemon appends after "id=", the filter reads back its longest delimiter-free prefix. */
  lemma PushPathRoundTrip(s: string)
    ensures ADMIN_PATH <= PushPath(s) && TargetId(PushPath(s)) == Some(CleanPrefix(s))
    ensures TargetId(PushPath(s)) == Some(s) <==> s == "" || Clean(s)
  {
    QueryOf(s);
    IdOfQuery(Before(Before(s, '#'), '?'));
    PrefixOfAll(s);
    CleanPrefixIff(s);
  }

  lemma CleanPrefixIff(s: string)
    ensures CleanPrefix(s) == s <==> s == "" || Clean(s)
  {
    var t := CleanPrefix(s);
    if t != s {
      assert Delimiter(s[|t|]);
    }
  }

  // ---- Requests.

  datatype Config = Config(mode: string, adminToken: string)

  datatype Request = Request(
    path: string, adminToken: string,
    proof: Option<string>, inputs: Option<string>, revocationId: Option<string>)

  /** The outcome of base64 decoding, deserialization and Groth16 verification, with the decoded inputs. */
  datatype Verdict = Accept(inputs: seq<int>) | Reject | Malformed

  type Verifier = (string, string) -> Verdict

  datatype Response = Continue | Reply(status: int)

  type Store = map<string, string>

  function StoreKey(id: string): (k: string) { "revoked." + id }

  predicate IsAdmin(req: Request) { ADMIN_PATH <= req.path }

  predicate Authorised(cfg: Config, req: Request) {
    IsAdmin(req) && cfg.mode == "admin_enabled" && req.adminToken != "" && req.adminToken == cfg.adminToken
  }

  predicate Refused(store: Store, id: string) {
    StoreKey(id) in store && store[StoreKey(id)] == "true"
  }

  /** The request carries all three headers. */
  predicate HasHeaders(req: Request) { req.proof.Some? && req.inputs.Some? && req.revocationId.Some? }

  /** One request: `keyLoaded` says whether the verifying key deserialized, `writable` whether the shared store takes
      a write. */
  function Handle(cfg: Config, store: Store, req: Request, verify: Verifier, keyLoaded: bool, writable: bool)
    : (out: (Store, Response))
  {
    if IsAdmin(req) then
      if cfg.mode != "admin_enabled" then (store, Reply(403))
      else if !Authorised(cfg, req) then (store, Reply(401))
      else match TargetId(req.path)
        case None => (store, Reply(400))
        case Some(id) =>
          if id == "" then (store, Reply(400))
          else if writable then (store[StoreKey(id) := "true"], Reply(200))
          else (store, Reply(500))
    else if !keyLoaded then (store, Reply(500))
    else if req.proof.None? || req.inputs.None? || req.revocationId.None? then (store, Reply(401))
    else if Refused(store, req.revocationId.value) then (store, Reply(403))
    else match verify(req.proof.value, req.inputs.value)
      case Accept(_) => (store, Continue)
      case Reject => (store, Reply(403))
      case Malformed => (store, Reply(400))
  }

  /** The filter's state lives in the shared store. */
  class EdgeFilter {
    const config: Config
    var shared: Store

    constructor (config: Config)
      ensures this.config == config && shared == map[]
    {
      this.config, shared := config, map[];
    }

    method OnHttpRequestHeaders(req: Request, verify: Verifier, keyLoaded: bool, writable: bool) returns (res: Response)
      modifies this
      ensures (shared, res) == Handle(config, old(shared), req, verify, keyLoaded, writable)
      ensures res == Continue <==>
              && !("/_wasm_admin/revoke" <= req.path) && keyLoaded && HasHeaders(req)
              && verify(req.proof.value, req.inputs.value).Accept?
              && !("revoked." + req.revocationId.value in old(shared)
                   && old(shared)["revoked." + req.revocationId.value] == "true")
    {
      if ADMIN_PATH <= req.path {
        if config.mode != "admin_enabled" { return Reply(403); }
        if req.adminToken == "" || req.adminToken != config.adminToken { return Reply(401); }
        var target := TargetId(req.path);
        if target.None? || target.value == "" { return Reply(400); }
        if !writable { return Reply(500); }
        shared := shared[StoreKey(target.value) := "true"];
        return Reply(200);
      }
      if !keyLoaded { return Reply(500); }
      if req.proof.None? || req.inputs.None? || req.revocationId.None? { return Reply(401); }
      var key := StoreKey(req.revocationId.value);
      if key in shared && shared[key] == "true" { return Reply(403); }
      match verify(req.proof.value, req.inputs.value)
      case Accept(_) => return Continue;
      case Reject => return Reply(403);
      case Malformed => return Reply(400);
    }
  }

  // ---- When each answer is given.

  /** The admin path: 200 exactly for an authorised request that names an id while the store can be written, and only
      then does the store change, by that one entry; every other outcome has exactly one reason. */
  lemma AdminAnswerIff(cfg: Config, store: Store, req: Request, verify: Verifier, keyLoaded: bool, writable: bool)
    requires "/_wasm_admin/revoke" <= req.path
    ensures
      var out, id := Handle(cfg, store, req, verify, keyLoaded, writable), TargetId(req.path);
      var open, known := cfg.mode == "admin_enabled", req.adminToken != "" && req.adminToken == cfg.adminToken;
      var named := id.Some? && id.value != "";
      && (out.1 == Reply(403) <==> !open)
      && (out.1 == Reply(401) <==> open && !known)
      && (out.1 == Reply(400) <==> open && known && !named)
      && (out.1 == Reply(500) <==> open && known && named && !writable)
      && (out.1 == Reply(200) <==> open && known && named && writable)
      && out.0 == (if out.1 == Reply(200) then store["revoked." + id.value := "true"] else store)
      && out.1 in {Reply(200), Reply(400), Reply(401), Reply(403), Reply(500)}
  {
  }

  /** The gate: a request continues exactly when the key is loaded, all headers are there, the id is not stored as
      revoked and the proof verifies; every refusal has exactly its reasons, and the store never changes. */
  lemma GateAnswerIff(cfg: Config, store: Store, req: Request, verify: Verifier, keyLoaded: bool, writable: bool)
    requires !("/_wasm_admin/revoke" <= req.path)
    ensures
      var out := Handle(cfg, store, req, verify, keyLoaded, writable);
      var headers := HasHeaders(req);
      var refused := headers && "revoked." + req.revocationId.value in store
                     && store["revoked." + req.revocationId.value] == "true";
      && out.0 == store
      && (out.1 == Reply(500) <==> !keyLoaded)
      && (out.1 == Reply(401) <==> keyLoaded && !headers)
      && (out.1 == Continue <==>
          keyLoaded && headers && !refused && verify(req.proof.value, req.inputs.value).Accept?)
      && (out.1 == Reply(403) <==>
          keyLoaded && headers && (refused || verify(req.proof.value, req.inputs.value).Reject?))
      && (out.1 == Reply(400) <==>
          keyLoaded && headers && !refused && verify(req.proof.value, req.inputs.value).Malformed?)
      && out.1 in {Continue, Reply(400), Reply(401), Reply(403), Reply(500)}
  {
  }

  // ---- What the gate guarantees.

  /** Ideal Groth16: an accepted proof has an assignment behind it whose public part is the given inputs. */
  ghost predicate Sound(verify: Verifier, r: int, n: nat)
    requires RoleCircuit.FieldShape(r, n)
  {
    forall p, i :: verify(p, i).Accept? ==>
      exists z :: && RoleCircuit.Shaped(z, r, n) && z.inputs == verify(p, i).inputs
                  && R1cs.AllHold(RoleCircuit.Compile(r, n), z, r)
  }

  /** A request that continues names an id not refused at that moment, and carries public inputs that some
      clearance, role and nullifier witness within the range. */
  lemma ContinueMeans(cfg: Config, store: Store, req: Request, verify: Verifier, keyLoaded: bool, writable: bool,
                      r: int, n: nat)
    returns (x: RoleCircuit.Instance)
    requires Prime(r) && RoleCircuit.FieldShape(r, n) && Sound(verify, r, n)
    requires Handle(cfg, store, req, verify, keyLoaded, writable).1 == Continue
    ensures !IsAdmin(req) && req.revocationId.Some? && !Refused(store, req.revocationId.value)
    ensures req.proof.Some? && req.inputs.Some?
    ensures verify(req.proof.value, req.inputs.value) == Accept([x.required, x.commitment])
    ensures (x.clearance - x.required) % r <= 255
    ensures x.commitment == (x.nullifier * x.clearance * x.role) % r
  {
    var v := verify(req.proof.value, req.inputs.value);
    var z :| && RoleCircuit.Shaped(z, r, n) && z.inputs == v.inputs
             && R1cs.AllHold(RoleCircuit.Compile(r, n), z, r);
    RoleCircuit.CircuitExact(z, r, n);
    x := RoleCircuit.InstanceOf(z);
    assert z.inputs == [x.required, x.commitment];
  }

  /** A request outside the authorised admin path leaves the store as it is; an authorised one can only add. */
  lemma StoreChanges(cfg: Config, store: Store, req: Request, verify: Verifier, keyLoaded: bool, writable: bool,
                     id: string)
    ensures !Authorised(cfg, req) ==> Handle(cfg, store, req, verify, keyLoaded, writable).0 == store
    ensures Refused(store, id) ==> Refused(Handle(cfg, store, req, verify, keyLoaded, writable).0, id)
    ensures Refused(Handle(cfg, store, req, verify, keyLoaded, writable).0, id) && !Refused(store, id)
            ==> Authorised(cfg, req) && TargetId(req.path) == Some(id)
  {
    forall a { KeyInjective(a, id); }
  }

  lemma KeyInjective(a: string, b: string)
    ensures StoreKey(a) == StoreKey(b) <==> a == b
  {
    assert StoreKey(a)[8..] == a && StoreKey(b)[8..] == b;
  }

  datatype Call = Call(req: Request, keyLoaded: bool, writable: bool)

  function StoreAfter(cfg: Config, store: Store, calls: seq<Call>, verify: Verifier): (s: Store) {
    if calls == [] then store
    else
      var c := calls[|calls| - 1];
      Handle(cfg, StoreAfter(cfg, store, calls[..|calls| - 1], verify), c.req, verify, c.keyLoaded, c.writable).0
  }

  /** Once an id is stored, no request that names it continues in any later state. */
  lemma {:induction false} RefusedForGood(cfg: Config, store: Store, calls: seq<Call>, verify: Verifier, id: string,
                                          next: Call)
    requires Refused(store, id)
    ensures Refused(StoreAfter(cfg, store, calls, verify), id)
    ensures next.req.revocationId == Some(id) ==>
            var after := StoreAfter(cfg, store, calls, verify);
            Handle(cfg, after, next.req, verify, next.keyLoaded, next.writable).1 != Continue
  {
    if calls != [] {
      var c := calls[|calls| - 1];
      RefusedForGood(cfg, store, calls[..|calls| - 1], verify, id, next);
      var before := StoreAfter(cfg, store, calls[..|calls| - 1], verify);
      StoreChanges(cfg, before, c.req, verify, c.keyLoaded, c.writable, id);
    }
  }
}
