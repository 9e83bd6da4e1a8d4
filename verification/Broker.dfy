/** Attested key release: enclave bindings, quote checks, and the broker's handlers over an ideal Vault. */
module Broker {
  import opened Wrappers
  import opened Arithmetic
  import opened ByteStrings

  const SESSION_TAG: Bytes :=  // "dZTA_SGX_SESSION_v1"
    [100, 90, 84, 65, 95, 83, 71, 88, 95, 83, 69, 83, 83, 73, 79, 78, 95, 118, 49]

  // ---- Bindings.

  /** What a key handshake hashes: the tag, the public key text and the clearance as eight big-endian bytes. */
  function KeyBinding(key: Bytes, clearance: nat): (m: Bytes) {
    SESSION_TAG + (key + ToBeFixed(clearance, 8))
  }

  /** What a proof session hashes: the tag and the serialized public inputs. */
  function ProofBinding(inputs: Bytes): (m: Bytes) { SESSION_TAG + inputs }

  /** A vector of two field elements: an eight-byte length and two 32-byte values. */
  const PUBLIC_INPUT_BYTES: nat := 72

  /** The first 64 bytes of the data followed by zeros. */
  function Pad64(data: Bytes): (p: Bytes)
    ensures |p| == 64 && forall i :: 0 <= i < 64 ==> p[i] == if i < |data| then data[i] else 0
  {
    if |data| >= 64 then data[..64] else data + seq(64 - |data|, _ => 0)
  }

  /** What is written to the report device; without enclave hardware nothing is, and that is no error. */
  method BindUserReportData(data: Bytes, hardware: bool) returns (written: Option<Bytes>)
    ensures written == if hardware then Some(Pad64(data)) else None
  {
    if !hardware { return None; }
    var padded := new Byte[64](_ => 0);
    var len := if |data| < 64 then |data| else 64;
    for i := 0 to len
      invariant forall k :: 0 <= k < i ==> padded[k] == data[k]
      invariant forall k :: i <= k < 64 ==> padded[k] == 0
    {
      padded[i] := data[i];
    }
    assert padded[..] == Pad64(data);
    return Some(padded[..]);
  }

  method BindSession(data: Bytes, h: Hash, hardware: bool) returns (written: Option<Bytes>)
    ensures written == if hardware then Some(Pad64(h(SESSION_TAG + data))) else None
  {
    var hasher := new Hasher();
    hasher.Update(SESSION_TAG);
    hasher.Update(data);
    assert hasher.absorbed == SESSION_TAG + data;
    written := BindUserReportData(h(hasher.absorbed), hardware);
  }

  /** The key handshake determines its key and clearance, and equals a proof session only for the one 64-byte
      "key" that the session's own inputs spell. */
  lemma BindingsIff(k1: Bytes, c1: nat, k2: Bytes, c2: nat, inputs: Bytes)
    requires c1 < U64 && c2 < U64 && |inputs| == PUBLIC_INPUT_BYTES
    ensures KeyBinding(k1, c1) == KeyBinding(k2, c2) <==> k1 == k2 && c1 == c2
    ensures KeyBinding(k1, c1) == ProofBinding(inputs) <==> k1 == inputs[..64] && ToBeFixed(c1, 8) == inputs[64..]
  {
    assert Pow256(8) == U64;
    BeFixedRoundTrip(c1, 8);
    BeFixedRoundTrip(c2, 8);
    var b1, b2 := k1 + ToBeFixed(c1, 8), k2 + ToBeFixed(c2, 8);
    TagPrefix(b1, b2);
    TagPrefix(b1, inputs);
    assert b1[..|b1| - 8] == k1 && b1[|b1| - 8..] == ToBeFixed(c1, 8);
    assert b2[..|b2| - 8] == k2 && b2[|b2| - 8..] == ToBeFixed(c2, 8);
    assert inputs == inputs[..64] + inputs[64..];
  }

  lemma SessionTagText()
    ensures Spells(SESSION_TAG, "dZTA_SGX_SESSION_v1")
  {
  }

  /** The two kinds of hashed message, part by part: a 19-byte tag, then the key text and the clearance as a big-endian
      number of eight bytes, or the public inputs. */
  lemma BindingLayout(key: Bytes, clearance: nat, inputs: Bytes)
    requires clearance < U64
    ensures var m, k := KeyBinding(key, clearance), 19 + |key|;
            && |m| == k + 8 && Spells(m[..19], "dZTA_SGX_SESSION_v1") && m[19..k] == key && BeValue(m[k..]) == clearance
    ensures var m := ProofBinding(inputs);
            |m| == 19 + |inputs| && Spells(m[..19], "dZTA_SGX_SESSION_v1") && m[19..] == inputs
  {
    SessionTagText();
    assert Pow256(8) == U64;
    BeFixedRoundTrip(clearance, 8);
    var level := ToBeFixed(clearance, 8);
    Slices(SESSION_TAG, key, level, [], SESSION_TAG + key + level + []);
    assert KeyBinding(key, clearance) == SESSION_TAG + key + level + [];
    assert (SESSION_TAG + inputs)[..19] == SESSION_TAG && (SESSION_TAG + inputs)[19..] == inputs;
    var m, k := KeyBinding(key, clearance), 19 + |key|;
    assert m[k..] == m[k..k + 8];
  }

  lemma TagPrefix(a: Bytes, b: Bytes)
    ensures SESSION_TAG + a == SESSION_TAG + b <==> a == b
  {
    assert (SESSION_TAG + a)[|SESSION_TAG|..] == a && (SESSION_TAG + b)[|SESSION_TAG|..] == b;
  }

  // ---- Quotes.

  /** The claims of a quote that DCAP verification accepts. */
  datatype Quote = Quote(mrenclave: Bytes, mrsigner: Bytes, reportData: Bytes)

  datatype Setup = Setup(
    h: Hash, mrenclave: Bytes, mrsigner: Bytes,
    isPublicKey: Bytes -> bool,  // whether the text parses as an RSA public key that can wrap a secret
    engine: bool)                // whether the data-key engine is configured

  datatype ApiError = QuoteInvalid | WrongEnclave | WrongSession | BadRequest | Internal

  function VerifyQuote(u: Setup, genuine: set<Quote>, q: Quote, key: Bytes, clearance: nat)
    : (res: Result<(), ApiError>)
  {
    if q !in genuine || |q.reportData| != 64 then Err(QuoteInvalid)
    else if q.mrenclave != u.mrenclave || q.mrsigner != u.mrsigner then Err(WrongEnclave)
    else if q.reportData[..32] != u.h(KeyBinding(key, clearance)) then Err(WrongSession)
    else Ok(())
  }

  /** When each answer of the quote check is given: the reasons in order, and acceptance exactly for a genuine quote of
      the expected enclave whose report starts with the digest of the requested handshake. */
  lemma QuoteAnswerIff(u: Setup, genuine: set<Quote>, q: Quote, key: Bytes, clearance: nat)
    ensures
      var res := VerifyQuote(u, genuine, q, key, clearance);
      var sound := q in genuine && |q.reportData| == 64;
      var expected := q.mrenclave == u.mrenclave && q.mrsigner == u.mrsigner;
      var bound := sound && q.reportData[..32] == u.h(KeyBinding(key, clearance));
      && (res == Err(QuoteInvalid) <==> !sound)
      && (res == Err(WrongEnclave) <==> sound && !expected)
      && (res == Err(WrongSession) <==> sound && expected && !bound)
      && (res.Ok? <==> sound && expected && bound)
  {
  }

  method VerifySgxQuote(u: Setup, genuine: set<Quote>, q: Quote, key: Bytes, clearance: nat)
    returns (res: Result<(), ApiError>)
    ensures res == VerifyQuote(u, genuine, q, key, clearance)
  {
    if q !in genuine || |q.reportData| != 64 { return Err(QuoteInvalid); }
    if q.mrenclave != u.mrenclave || q.mrsigner != u.mrsigner { return Err(WrongEnclave); }
    var binding := key;
    binding := binding + ToBeFixed(clearance, 8);
    var hasher := new Hasher();
    hasher.Update(SESSION_TAG);
    hasher.Update(binding);
    assert hasher.absorbed == KeyBinding(key, clearance);
    if q.reportData[..32] != u.h(hasher.absorbed) { return Err(WrongSession); }
    return Ok(());
  }

  // ---- The data-key engine over Vault.

  /** Ideal RSA-OAEP: a ciphertext names the key it is wrapped to. */
  datatype Wrapped = Wrapped(key: Bytes, secret: Bytes)

  datatype Provisioned = Provisioned(walletCt: string, walletKey: Wrapped, seedCt: string, masterSeed: Wrapped)

  type Plain = map<string, Bytes>

  /** Vault never issues a ciphertext twice. */
  predicate NewTexts(plain: Plain, texts: seq<string>) {
    && (forall i :: 0 <= i < |texts| ==> texts[i] !in plain)
    && (forall i, j :: 0 <= i < j < |texts| ==> texts[i] != texts[j])
  }

  class VaultDatakeyEngine {
    var plain: Plain           // the ciphertexts that Vault has issued, and what they decrypt to
    var secrets: seq<Bytes>    // the random values that Vault draws next
    var texts: seq<string>     // the texts of the ciphertexts that it issues next

    constructor (secrets: seq<Bytes>, texts: seq<string>)
      requires NewTexts(map[], texts)
      ensures plain == map[] && this.secrets == secrets && this.texts == texts
    {
      plain, this.secrets, this.texts := map[], secrets, texts;
    }

    method GenerateVaultRandomSeed() returns (seed: Bytes)
      requires secrets != []
      modifies this`secrets
      ensures [seed] + secrets == old(secrets)
    {
      seed := secrets[0];
      secrets := secrets[1..];
    }

    method Encrypt(payload: Bytes) returns (ct: string)
      requires texts != [] && NewTexts(plain, texts)
      modifies this`plain, this`texts
      ensures [ct] + texts == old(texts) && plain == old(plain)[ct := payload] && NewTexts(plain, texts)
    {
      ct := texts[0];
      plain := plain[ct := payload];
      texts := texts[1..];
    }

    method Decrypt(ct: string) returns (res: Result<Bytes, ApiError>)
      ensures res == if ct in plain then Ok(plain[ct]) else Err(Internal)
    {
      if ct !in plain { return Err(Internal); }
      return Ok(plain[ct]);
    }

    method WrapBytesForEnclave(u: Setup, raw: Bytes, key: Bytes) returns (res: Result<Wrapped, ApiError>)
      ensures res == if u.isPublicKey(key) then Ok(Wrapped(key, raw)) else Err(Internal)
    {
      if !u.isPublicKey(key) { return Err(Internal); }
      return Ok(Wrapped(key, raw));
    }

    /** A data key and a seed, each under a ciphertext of its own; an unusable key is noticed after the data key
        exists. */
    method ProvisionDatakey(u: Setup, key: Bytes) returns (res: Result<Provisioned, ApiError>)
      requires |secrets| >= 2 && |texts| >= 2 && NewTexts(plain, texts)
      modifies this
      ensures NewTexts(plain, texts)
      ensures res == if u.isPublicKey(key)
                     then Ok(Provisioned(old(texts[0]), Wrapped(key, old(secrets[0])),
                                         old(texts[1]), Wrapped(key, old(secrets[1]))))
                     else Err(Internal)
      ensures var n := if res.Ok? then 2 else 1;
              && secrets == old(secrets[n..]) && texts == old(texts[n..])
              && plain == Issued(old(plain), old(secrets), old(texts), n)
      ensures res.Ok? ==> Opens(plain, res.value)
    {
      var dek := GenerateVaultRandomSeed();
      var walletCt := Encrypt(dek);
      assert plain == Issued(old(plain), old(secrets), old(texts), 1);
      var walletKey := WrapBytesForEnclave(u, dek, key);
      if walletKey.Err? { return Err(walletKey.error); }
      var seed := GenerateVaultRandomSeed();
      var seedCt := Encrypt(seed);
      var masterSeed := WrapBytesForEnclave(u, seed, key);
      if masterSeed.Err? { return Err(Internal); }
      res := Ok(Provisioned(walletCt, walletKey.value, seedCt, masterSeed.value));
    }

    method UnwrapDatakeyForEnclave(u: Setup, ct: string, key: Bytes) returns (res: Result<Wrapped, ApiError>)
      ensures res == if ct in plain && u.isPublicKey(key) then Ok(Wrapped(key, plain[ct])) else Err(Internal)
    {
      var raw := Decrypt(ct);
      if raw.Err? { return Err(Internal); }
      res := WrapBytesForEnclave(u, raw.value, key);
    }
  }

  /** The ciphertexts after the next n secrets went under the next n texts. */
  function Issued(plain: Plain, secrets: seq<Bytes>, texts: seq<string>, n: nat): (p: Plain)
    requires n <= |secrets| && n <= |texts|
  {
    if n == 0 then plain else Issued(plain, secrets, texts, n - 1)[texts[n - 1] := secrets[n - 1]]
  }

  lemma ThreeIssued(plain: Plain, secrets: seq<Bytes>, texts: seq<string>)
    requires 3 <= |secrets| && 3 <= |texts|
    ensures Issued(plain, secrets, texts, 3)
         == plain[texts[0] := secrets[0]][texts[1] := secrets[1]][texts[2] := secrets[2]]
  {
    assert Issued(plain, secrets, texts, 1) == plain[texts[0] := secrets[0]];
    assert Issued(plain, secrets, texts, 2) == plain[texts[0] := secrets[0]][texts[1] := secrets[1]];
  }

  /** Each returned ciphertext decrypts to the secret inside the wrapped value returned with it. */
  predicate Opens(plain: Plain, p: Provisioned) {
    && p.walletCt in plain && plain[p.walletCt] == p.walletKey.secret
    && p.seedCt in plain && plain[p.seedCt] == p.masterSeed.secret
  }

  /** How many secrets a provisioning request makes Vault draw: none when it is refused outright, one when the key turns
      out unusable, and otherwise three, although only two of them are returned. */
  function Drawn(u: Setup, key: Bytes): (n: nat)
    ensures n <= 3
  {
    if BlankBytes(key) || !u.engine then 0 else if !u.isPublicKey(key) then 1 else 3
  }

  function ProvisionAnswer(u: Setup, key: Bytes, secrets: seq<Bytes>, texts: seq<string>)
    : (res: Result<Provisioned, ApiError>)
    requires |secrets| >= 3 && |texts| >= 3
  {
    if BlankBytes(key) then Err(BadRequest)
    else if !u.engine || !u.isPublicKey(key) then Err(Internal)
    else Ok(Provisioned(texts[0], Wrapped(key, secrets[0]), texts[2], Wrapped(key, secrets[2])))
  }

  // ---- The run.

  datatype Bound = Bound(key: Bytes, clearance: nat)

  datatype Emission = Emission(clearance: nat, walletKey: Wrapped, masterSeed: Wrapped)

  datatype State = State(
    quotes: set<Quote>,          // quotes that verify
    vault: Plain,                // Vault ciphertexts and what they decrypt to
    emitted: seq<Emission>,      // answers of unwrap and release
    // history
    bound: set<Bound>,           // key handshakes made by expected enclaves
    hashed: set<Bytes>)          // session messages hashed so far

  const INITIAL: State := State({}, map[], [], {}, {})

  datatype Step =
    | BindKey(key: Bytes, clearance: nat)
    | BindProof(inputs: Bytes)
    | BindOther(quote: Quote)
    | Provision(key: Bytes, secrets: seq<Bytes>, texts: seq<string>)
    | Unwrap(quote: Quote, key: Bytes, clearance: nat, walletCt: string, seedCt: string)
    | Release(quote: Quote, key: Bytes, clearance: nat, walletCt: string, seedCt: string)

  /** Levels are 64-bit, Vault ciphertexts are new, and code other than the expected enclave's cannot quote as it. */
  predicate Enabled(u: Setup, s: State, step: Step) {
    match step
    case BindKey(_, clearance) => clearance < U64
    case BindProof(inputs) => |inputs| == PUBLIC_INPUT_BYTES
    case BindOther(q) => q.mrenclave != u.mrenclave || q.mrsigner != u.mrsigner
    case Provision(_, secrets, texts) => |secrets| >= 3 && |texts| >= 3 && NewTexts(s.vault, texts)
    case Unwrap(_, _, clearance, _, _) => clearance < U64
    case Release(_, _, clearance, _, _) => clearance < U64
  }

  /** What the two handlers return once their own argument checks pass. */
  function Answer(u: Setup, s: State, q: Quote, key: Bytes, clearance: nat, walletCt: string, seedCt: string)
    : (res: Result<Emission, ApiError>)
  {
    match VerifyQuote(u, s.quotes, q, key, clearance)
    case Err(e) => Err(e)
    case Ok(_) =>
      if walletCt !in s.vault || seedCt !in s.vault || !u.isPublicKey(key) then Err(Internal)
      else Ok(Emission(clearance, Wrapped(key, s.vault[walletCt]), Wrapped(key, s.vault[seedCt])))
  }

  function Handle(u: Setup, s: State, step: Step): (res: Result<Emission, ApiError>)
    requires step.Unwrap? || step.Release?
  {
    if step.Unwrap? && (Blank(step.walletCt) || Blank(step.seedCt)) then Err(BadRequest)
    else if step.Unwrap? && !u.engine then Err(Internal)
    else if step.Release? && step.key == [] && VerifyQuote(u, s.quotes, step.quote, step.key, step.clearance).Ok? then
      Err(Internal)
    else Answer(u, s, step.quote, step.key, step.clearance, step.walletCt, step.seedCt)
  }

  function Quoted(u: Setup, m: Bytes): (q: Quote) { Quote(u.mrenclave, u.mrsigner, Pad64(u.h(m))) }

  function Next(u: Setup, s: State, step: Step): (s': State)
    requires Enabled(u, s, step)
  {
    match step
    case BindKey(key, clearance) =>
      var m := KeyBinding(key, clearance);
      s.(quotes := s.quotes + {Quoted(u, m)}, bound := s.bound + {Bound(key, clearance)}, hashed := s.hashed + {m})
    case BindProof(inputs) =>
      var m := ProofBinding(inputs);
      s.(quotes := s.quotes + {Quoted(u, m)}, hashed := s.hashed + {m})
    case BindOther(q) => s.(quotes := s.quotes + {q})
    case Provision(key, secrets, texts) =>
      s.(vault := Issued(s.vault, secrets, texts, Drawn(u, key)))
    case _ =>
      var s1 := s.(hashed := s.hashed + {KeyBinding(step.key, step.clearance)});
      (match Handle(u, s, step) case Ok(e) => s1.(emitted := s.emitted + [e]) case Err(_) => s1)
  }

  predicate Legal(u: Setup, s: State, steps: seq<Step>)
    decreases steps
  {
    steps == [] || (Enabled(u, s, steps[0]) && Legal(u, Next(u, s, steps[0]), steps[1..]))
  }

  function Final(u: Setup, s: State, steps: seq<Step>): (s': State)
    requires Legal(u, s, steps)
    decreases steps
  {
    if steps == [] then s else Final(u, Next(u, s, steps[0]), steps[1..])
  }

  // ---- Secrets go only to bound keys.

  /** A session message of the expected enclave: a recorded key handshake or a proof session. */
  predicate Session(s: State, m: Bytes) {
    || (exists b :: b in s.bound && b.clearance < U64 && m == KeyBinding(b.key, b.clearance))
    || (|m| == |SESSION_TAG| + PUBLIC_INPUT_BYTES && SESSION_TAG <= m)
  }

  predicate QuotesInv(u: Setup, s: State) {
    forall q :: q in s.quotes && q.mrenclave == u.mrenclave && q.mrsigner == u.mrsigner ==>
      exists m :: m in s.hashed && Session(s, m) && q.reportData == Pad64(u.h(m))
  }

  predicate EmittedInv(s: State) {
    forall i :: 0 <= i < |s.emitted| ==>
      var e := s.emitted[i];
      e.walletKey.key == e.masterSeed.key && Bound(e.walletKey.key, e.clearance) in s.bound
  }

  lemma QuotesStep(u: Setup, s: State, step: Step)
    requires QuotesInv(u, s) && Enabled(u, s, step)
    ensures QuotesInv(u, Next(u, s, step))
  {
    var s' := Next(u, s, step);
    forall m | Session(s, m) ensures Session(s', m) { }
    forall q | q in s'.quotes && q.mrenclave == u.mrenclave && q.mrsigner == u.mrsigner
      ensures exists m :: m in s'.hashed && Session(s', m) && q.reportData == Pad64(u.h(m))
    {
      if q in s.quotes {
        var m :| m in s.hashed && Session(s, m) && q.reportData == Pad64(u.h(m));
        assert m in s'.hashed && Session(s', m);
      } else if step.BindKey? {
        var m := KeyBinding(step.key, step.clearance);
        assert Bound(step.key, step.clearance) in s'.bound;
        assert m in s'.hashed && Session(s', m);
      } else {
        var m := ProofBinding(step.inputs);
        assert m in s'.hashed && Session(s', m);
      }
    }
  }

  /** A verified request for a text that is not 64 bytes long was bound by an expected enclave. */
  lemma VerifiedIsBound(u: Setup, s: State, q: Quote, key: Bytes, clearance: nat)
    requires IsDigest(u.h) && QuotesInv(u, s) && clearance < U64 && |key| != 64
    requires VerifyQuote(u, s.quotes, q, key, clearance).Ok?
    requires CollisionFree(u.h, s.hashed + {KeyBinding(key, clearance)})
    ensures Bound(key, clearance) in s.bound
  {
    var m :| m in s.hashed && Session(s, m) && q.reportData == Pad64(u.h(m));
    assert Pad64(u.h(m))[..32] == u.h(m);
    assert m == KeyBinding(key, clearance);
    assert |m| == |SESSION_TAG| + |key| + 8;
    var b :| b in s.bound && b.clearance < U64 && m == KeyBinding(b.key, b.clearance);
    BindingsIff(key, clearance, b.key, b.clearance, seq(PUBLIC_INPUT_BYTES, _ => 0));
  }

  /** An answer goes to the requested key, which was bound with the requested clearance. */
  lemma AnswerIsBound(u: Setup, s: State, step: Step)
    requires IsDigest(u.h) && (forall k :: u.isPublicKey(k) ==> |k| != 64)
    requires QuotesInv(u, s) && Enabled(u, s, step) && (step.Unwrap? || step.Release?) && Handle(u, s, step).Ok?
    requires CollisionFree(u.h, s.hashed + {KeyBinding(step.key, step.clearance)})
    ensures var e := Handle(u, s, step).value;
            e.walletKey.key == e.masterSeed.key == step.key && e.clearance == step.clearance
    ensures Bound(step.key, step.clearance) in s.bound
  {
    assert Handle(u, s, step) == Answer(u, s, step.quote, step.key, step.clearance, step.walletCt, step.seedCt);
    VerifiedIsBound(u, s, step.quote, step.key, step.clearance);
  }

  lemma EmittedStep(u: Setup, s: State, step: Step)
    requires IsDigest(u.h) && (forall k :: u.isPublicKey(k) ==> |k| != 64)
    requires QuotesInv(u, s) && EmittedInv(s) && Enabled(u, s, step) && CollisionFree(u.h, Next(u, s, step).hashed)
    ensures EmittedInv(Next(u, s, step))
    ensures (step.Unwrap? || step.Release?) && Handle(u, s, step).Ok? ==> Bound(step.key, step.clearance) in s.bound
  {
    if (step.Unwrap? || step.Release?) && Handle(u, s, step).Ok? {
      AnswerIsBound(u, s, step);
    } else {
      assert Next(u, s, step).emitted == s.emitted;
    }
  }

  lemma {:induction false} HashedGrows(u: Setup, s: State, steps: seq<Step>)
    requires Legal(u, s, steps)
    ensures s.hashed <= Final(u, s, steps).hashed
    decreases steps
  {
    if steps != [] { HashedGrows(u, Next(u, s, steps[0]), steps[1..]); }
  }

  /** A run splits at every point. */
  lemma {:induction false} RunSplits(u: Setup, s: State, steps: seq<Step>, k: nat)
    requires Legal(u, s, steps) && k <= |steps|
    ensures Legal(u, s, steps[..k]) && Legal(u, Final(u, s, steps[..k]), steps[k..])
    ensures Final(u, Final(u, s, steps[..k]), steps[k..]) == Final(u, s, steps)
    decreases k
  {
    if k == 0 {
      assert steps[..0] == [] && steps[0..] == steps;
    } else {
      assert steps[..k][1..] == steps[1..][..k - 1] && steps[1..][k - 1..] == steps[k..];
      RunSplits(u, Next(u, s, steps[0]), steps[1..], k - 1);
    }
  }

  lemma {:induction false} RunInv(u: Setup, s: State, steps: seq<Step>)
    requires IsDigest(u.h) && (forall k :: u.isPublicKey(k) ==> |k| != 64)
    requires QuotesInv(u, s) && EmittedInv(s) && Legal(u, s, steps) && CollisionFree(u.h, Final(u, s, steps).hashed)
    ensures QuotesInv(u, Final(u, s, steps)) && EmittedInv(Final(u, s, steps))
    decreases steps
  {
    if steps != [] {
      HashedGrows(u, Next(u, s, steps[0]), steps[1..]);
      QuotesStep(u, s, steps[0]);
      EmittedStep(u, s, steps[0]);
      RunInv(u, Next(u, s, steps[0]), steps[1..]);
    }
  }

  /** Step k of the run answers e, wrapped to a key that was bound with that clearance before the step. */
  predicate AnsweredAt(u: Setup, steps: seq<Step>, k: nat, e: Emission) {
    && k < |steps| && Legal(u, INITIAL, steps[..k]) && (steps[k].Unwrap? || steps[k].Release?)
    && var s := Final(u, INITIAL, steps[..k]);
    && Handle(u, s, steps[k]) == Ok(e) && e.walletKey.key == e.masterSeed.key
    && Bound(e.walletKey.key, e.clearance) in s.bound
  }

  lemma AnsweredLater(u: Setup, steps: seq<Step>, n: nat, k: nat, e: Emission)
    requires n <= |steps| && AnsweredAt(u, steps[..n], k, e)
    ensures AnsweredAt(u, steps, k, e)
  {
    assert steps[..n][..k] == steps[..k] && steps[..n][k] == steps[k];
  }

  lemma LastStep(u: Setup, steps: seq<Step>)
    requires Legal(u, INITIAL, steps) && steps != []
    ensures var n := |steps| - 1;
            && Legal(u, INITIAL, steps[..n]) && Enabled(u, Final(u, INITIAL, steps[..n]), steps[n])
            && var t := Final(u, INITIAL, steps[..n]);
            && Final(u, INITIAL, steps) == Next(u, t, steps[n])
            && t.hashed <= Final(u, INITIAL, steps).hashed
            && t.emitted <= Final(u, INITIAL, steps).emitted
            && |Final(u, INITIAL, steps).emitted| <= |t.emitted| + 1
  {
    var n := |steps| - 1;
    RunSplits(u, INITIAL, steps, n);
    var last, t := steps[n..], Final(u, INITIAL, steps[..n]);
    assert last[0] == steps[n] && last[1..] == [];
    assert Final(u, t, last) == Next(u, t, steps[n]);
  }

  /** An answer of the last step goes to a key bound before it. */
  lemma LastAnswer(u: Setup, steps: seq<Step>)
    requires IsDigest(u.h) && (forall k :: u.isPublicKey(k) ==> |k| != 64)
    requires Legal(u, INITIAL, steps) && CollisionFree(u.h, Final(u, INITIAL, steps).hashed) && steps != []
    ensures
      var n, s := |steps| - 1, Final(u, INITIAL, steps);
      Legal(u, INITIAL, steps[..n]) &&
      forall i :: |Final(u, INITIAL, steps[..n]).emitted| <= i < |s.emitted| ==> AnsweredAt(u, steps, n, s.emitted[i])
  {
    var n := |steps| - 1;
    LastStep(u, steps);
    RunInv(u, INITIAL, steps[..n]);
    EmittedStep(u, Final(u, INITIAL, steps[..n]), steps[n]);
  }

  /** The step behind one emission. */
  lemma {:induction false} EmissionAnswered(u: Setup, steps: seq<Step>, i: nat) returns (k: nat)
    requires IsDigest(u.h) && (forall k :: u.isPublicKey(k) ==> |k| != 64)
    requires Legal(u, INITIAL, steps) && CollisionFree(u.h, Final(u, INITIAL, steps).hashed)
    requires i < |Final(u, INITIAL, steps).emitted|
    ensures AnsweredAt(u, steps, k, Final(u, INITIAL, steps).emitted[i])
    decreases |steps|
  {
    k := |steps| - 1;
    LastStep(u, steps);
    var t := Final(u, INITIAL, steps[..k]);
    if i < |t.emitted| {
      var n := k;
      k := EmissionAnswered(u, steps[..n], i);
      AnsweredLater(u, steps, n, k, t.emitted[i]);
    } else {
      LastAnswer(u, steps);
    }
  }

  /** Some step of the run answered e to a key bound before it. */
  ghost predicate Answered(u: Setup, steps: seq<Step>, e: Emission) {
    exists k: nat :: AnsweredAt(u, steps, k, e)
  }

  /** In every run without a hash collision, every secret that unwrap or release emits is wrapped to a key that an
      enclave with the expected measurement and signer had bound, together with the requested clearance, before the
      step that emits it. */
  lemma {:induction false} SecretsGoToBoundKeys(u: Setup, steps: seq<Step>)
    requires IsDigest(u.h) && (forall k :: u.isPublicKey(k) ==> |k| != 64)
    requires Legal(u, INITIAL, steps) && CollisionFree(u.h, Final(u, INITIAL, steps).hashed)
    ensures forall i :: 0 <= i < |Final(u, INITIAL, steps).emitted| ==>
              Answered(u, steps, Final(u, INITIAL, steps).emitted[i])
  {
    forall i | 0 <= i < |Final(u, INITIAL, steps).emitted|
      ensures Answered(u, steps, Final(u, INITIAL, steps).emitted[i])
    {
      var k := EmissionAnswered(u, steps, i);
    }
  }

  lemma FirstStep(u: Setup, s: State, a: Step, rest: seq<Step>)
    requires Enabled(u, s, a) && Legal(u, Next(u, s, a), rest)
    ensures Legal(u, s, [a] + rest) && Final(u, s, [a] + rest) == Final(u, Next(u, s, a), rest)
  {
    assert ([a] + rest)[0] == a && ([a] + rest)[1..] == rest;
  }

  /** The quote of a proof session verifies for the key and clearance that its public inputs spell. */
  lemma SpelledHandshakeVerifies(u: Setup, quotes: set<Quote>, key: Bytes, clearance: nat)
    requires IsDigest(u.h) && Quoted(u, ProofBinding(key + ToBeFixed(clearance, 8))) in quotes
    ensures VerifyQuote(u, quotes, Quoted(u, ProofBinding(key + ToBeFixed(clearance, 8))), key, clearance).Ok?
  {
    var digest := u.h(KeyBinding(key, clearance));
    assert Pad64(digest)[..32] == digest;
  }

  /** Why keys of 64 bytes are excluded: a proof session whose public inputs spell such a key and a clearance passes
      for its handshake, and the secrets go to a key that nobody bound. */
  lemma ProofPassesForHandshake(u: Setup, key: Bytes, clearance: nat, secrets: seq<Bytes>, texts: seq<string>)
    returns (steps: seq<Step>)
    requires IsDigest(u.h) && u.engine && u.isPublicKey(key) && |key| == 64 && !BlankBytes(key) && clearance < U64
    requires |secrets| == |texts| == 3 && NewTexts(map[], texts) && !Blank(texts[0]) && !Blank(texts[2])
    ensures |steps| == 3 && steps[0].BindProof? && steps[1].Provision? && steps[2].Unwrap? && Legal(u, INITIAL, steps)
    ensures var s := Final(u, INITIAL, steps);
            && s.bound == {}
            && s.emitted == [Emission(clearance, Wrapped(key, secrets[0]), Wrapped(key, secrets[2]))]
  {
    var inputs := key + ToBeFixed(clearance, 8);
    BeFixedRoundTrip(clearance, 8);
    var bind, provision := BindProof(inputs), Provision(key, secrets, texts);
    var unwrap := Unwrap(Quoted(u, ProofBinding(inputs)), key, clearance, texts[0], texts[2]);
    var s1 := Next(u, INITIAL, bind);
    var s2 := Next(u, s1, provision);
    SpelledHandshakeVerifies(u, s2.quotes, key, clearance);
    DataKeysConserved(u, s1, provision, [], unwrap);
    steps := [bind, provision, unwrap];
    FirstStep(u, s2, unwrap, []);
    FirstStep(u, s1, provision, [unwrap] + []);
    FirstStep(u, INITIAL, bind, [provision] + ([unwrap] + []));
    assert steps == [bind] + ([provision] + ([unwrap] + []));
  }

  // ---- Data keys are conserved.

  lemma {:induction false} IssuedKeeps(plain: Plain, secrets: seq<Bytes>, texts: seq<string>, n: nat, ct: string)
    requires n <= |secrets| && n <= |texts| && NewTexts(plain, texts) && ct in plain
    ensures ct in Issued(plain, secrets, texts, n) && Issued(plain, secrets, texts, n)[ct] == plain[ct]
  {
    if n > 0 { IssuedKeeps(plain, secrets, texts, n - 1, ct); }
  }

  lemma {:induction false} VaultKeeps(u: Setup, s: State, steps: seq<Step>, ct: string)
    requires Legal(u, s, steps) && ct in s.vault
    ensures ct in Final(u, s, steps).vault && Final(u, s, steps).vault[ct] == s.vault[ct]
    decreases steps
  {
    if steps != [] {
      if steps[0].Provision? {
        IssuedKeeps(s.vault, steps[0].secrets, steps[0].texts, Drawn(u, steps[0].key), ct);
      }
      VaultKeeps(u, Next(u, s, steps[0]), steps[1..], ct);
    }
  }

  /** The answer of a provisioning step opens in the Vault that the step leaves. */
  lemma ProvisionOpens(u: Setup, s: State, step: Step)
    requires step.Provision? && Enabled(u, s, step) && ProvisionAnswer(u, step.key, step.secrets, step.texts).Ok?
    ensures Opens(Next(u, s, step).vault, ProvisionAnswer(u, step.key, step.secrets, step.texts).value)
  {
    var one := Issued(s.vault, step.secrets, step.texts, 1);
    var two := Issued(s.vault, step.secrets, step.texts, 2);
    assert two == one[step.texts[1] := step.secrets[1]];
    assert Next(u, s, step).vault == two[step.texts[2] := step.secrets[2]];
  }

  /** What a request for secrets needs besides ciphertexts that Vault knows. */
  predicate Admitted(u: Setup, quotes: set<Quote>, step: Step)
    requires step.Unwrap? || step.Release?
  {
    && VerifyQuote(u, quotes, step.quote, step.key, step.clearance).Ok? && u.isPublicKey(step.key)
    && (step.Unwrap? ==> u.engine && !Blank(step.walletCt) && !Blank(step.seedCt))
    && (step.Release? ==> step.key != [])
  }

  /** When each error is given to a request for secrets: a blank ciphertext, a missing engine, the quote check's own
      reason, and an internal error for an unusable key or an unknown ciphertext, in that order. */
  lemma RequestErrorIff(u: Setup, s: State, step: Step)
    requires step.Unwrap? || step.Release?
    ensures
      var res, quote := Handle(u, s, step), VerifyQuote(u, s.quotes, step.quote, step.key, step.clearance);
      var blank := step.Unwrap? && (Blank(step.walletCt) || Blank(step.seedCt));
      var checked := !blank && (step.Unwrap? ==> u.engine);
      && (res == Err(BadRequest) <==> blank)
      && (forall e :: e in {QuoteInvalid, WrongEnclave, WrongSession} ==>
            (res == Err(e) <==> checked && quote == Err(e)))
      && (res.Ok? <==> Admitted(u, s.quotes, step) && step.walletCt in s.vault && step.seedCt in s.vault)
      && (res.Ok? ==> res.value == Emission(step.clearance, Wrapped(step.key, s.vault[step.walletCt]),
                                            Wrapped(step.key, s.vault[step.seedCt])))
  {
    QuoteAnswerIff(u, s.quotes, step.quote, step.key, step.clearance);
  }

  /** However much happens in between and whatever key is used, unwrapping the ciphertexts of a provisioning succeeds
      exactly for admitted requests, and then yields the very secrets that it wrapped then, wrapped to the new key. */
  lemma DataKeysConserved(u: Setup, s: State, provision: Step, between: seq<Step>, unwrap: Step)
    requires provision.Provision? && Enabled(u, s, provision) && Legal(u, Next(u, s, provision), between)
    requires ProvisionAnswer(u, provision.key, provision.secrets, provision.texts).Ok?
    requires unwrap.Unwrap? || unwrap.Release?
    requires var p := ProvisionAnswer(u, provision.key, provision.secrets, provision.texts).value;
             unwrap.walletCt == p.walletCt && unwrap.seedCt == p.seedCt
    ensures
      var p := ProvisionAnswer(u, provision.key, provision.secrets, provision.texts).value;
      var t := Final(u, Next(u, s, provision), between);
      var res := Handle(u, t, unwrap);
      && (res.Ok? <==> Admitted(u, t.quotes, unwrap))
      && (res.Ok? ==> res.value == Emission(unwrap.clearance, Wrapped(unwrap.key, p.walletKey.secret),
                                            Wrapped(unwrap.key, p.masterSeed.secret)))
  {
    ProvisionOpens(u, s, provision);
    VaultKeeps(u, Next(u, s, provision), between, unwrap.walletCt);
    VaultKeeps(u, Next(u, s, provision), between, unwrap.seedCt);
  }

  /** A handshake's quote stays valid and verifies for its own key and clearance. */
  lemma {:induction false} HandshakeVerifies(u: Setup, s: State, steps: seq<Step>, key: Bytes, clearance: nat)
    requires IsDigest(u.h) && Legal(u, s, steps)
    requires Quoted(u, KeyBinding(key, clearance)) in s.quotes || BindKey(key, clearance) in steps
    ensures VerifyQuote(u, Final(u, s, steps).quotes, Quoted(u, KeyBinding(key, clearance)), key, clearance).Ok?
    decreases steps
  {
    if steps == [] {
      var digest := u.h(KeyBinding(key, clearance));
      assert Pad64(digest)[..32] == digest;
    } else {
      HandshakeVerifies(u, Next(u, s, steps[0]), steps[1..], key, clearance);
    }
  }

  /** An expected enclave that shook hands at any time after a provisioning, with any key that can wrap, gets the
      provisioned secrets back. */
  lemma SessionRecoversSecrets(u: Setup, s: State, provision: Step, between: seq<Step>, key: Bytes, clearance: nat)
    requires IsDigest(u.h) && u.isPublicKey(key)
    requires provision.Provision? && Enabled(u, s, provision) && Legal(u, Next(u, s, provision), between)
    requires ProvisionAnswer(u, provision.key, provision.secrets, provision.texts).Ok?
    requires BindKey(key, clearance) in between
    requires forall i :: 0 <= i < 3 ==> !Blank(provision.texts[i])
    ensures
      var p := ProvisionAnswer(u, provision.key, provision.secrets, provision.texts).value;
      var unwrap := Unwrap(Quoted(u, KeyBinding(key, clearance)), key, clearance, p.walletCt, p.seedCt);
      Handle(u, Final(u, Next(u, s, provision), between), unwrap)
      == Ok(Emission(clearance, Wrapped(key, p.walletKey.secret), Wrapped(key, p.masterSeed.secret)))
  {
    var p := ProvisionAnswer(u, provision.key, provision.secrets, provision.texts).value;
    var unwrap := Unwrap(Quoted(u, KeyBinding(key, clearance)), key, clearance, p.walletCt, p.seedCt);
    HandshakeVerifies(u, Next(u, s, provision), between, key, clearance);
    DataKeysConserved(u, s, provision, between, unwrap);
  }

  // ---- The handlers over the engine.

  /** The provisioning handler takes the engine's data key and a seed of its own in place of the engine's, and is the
      machine's provisioning. */
  method ProvisionDatakey(u: Setup, engine: VaultDatakeyEngine, ghost s: State, key: Bytes)
    returns (res: Result<Provisioned, ApiError>)
    requires s.vault == engine.plain
    requires |engine.secrets| >= 3 && |engine.texts| >= 3 && NewTexts(engine.plain, engine.texts)
    modifies engine
    ensures NewTexts(engine.plain, engine.texts)
    ensures res == ProvisionAnswer(u, key, old(engine.secrets), old(engine.texts))
    ensures engine.secrets == old(engine.secrets[Drawn(u, key)..]) && engine.texts == old(engine.texts[Drawn(u, key)..])
    ensures engine.plain == Next(u, s, Provision(key, old(engine.secrets), old(engine.texts))).vault
    ensures res.Ok? ==> Opens(engine.plain, res.value) && res.value.walletKey.key == res.value.masterSeed.key == key
    ensures res.Ok? <==> !BlankBytes(key) && u.engine && u.isPublicKey(key)
    ensures res == Err(BadRequest) <==> BlankBytes(key)
    ensures res.Ok? ==>
            && res.value.walletKey.secret == old(engine.secrets[0])
            && res.value.masterSeed.secret == old(engine.secrets[2]) && engine.secrets == old(engine.secrets[3..])
            && engine.plain == old(engine.plain[engine.texts[0] := engine.secrets[0]]
                                               [engine.texts[1] := engine.secrets[1]]
                                               [engine.texts[2] := engine.secrets[2]])
    ensures res.Err? ==>
            engine.secrets == old(engine.secrets[if !BlankBytes(key) && u.engine then 1 else 0..])
  {
    if BlankBytes(key) { return Err(BadRequest); }
    if !u.engine { return Err(Internal); }
    var wallet := engine.ProvisionDatakey(u, key);
    if wallet.Err? { return Err(wallet.error); }
    var seed := engine.GenerateVaultRandomSeed();
    var seedCt := engine.Encrypt(seed);
    ThreeIssued(old(engine.plain), old(engine.secrets), old(engine.texts));
    var masterSeed := engine.WrapBytesForEnclave(u, seed, key);
    if masterSeed.Err? { return Err(Internal); }
    res := Ok(Provisioned(wallet.value.walletCt, wallet.value.walletKey, seedCt, masterSeed.value));
  }

  /** The unwrap handler is the machine's unwrap. */
  method UnwrapDatakey(u: Setup, engine: VaultDatakeyEngine, s: State, step: Step)
    returns (res: Result<Emission, ApiError>)
    requires step.Unwrap? && s.vault == engine.plain
    ensures res == Handle(u, s, step)
    ensures res.Ok? <==> Admitted(u, s.quotes, step) && step.walletCt in engine.plain && step.seedCt in engine.plain
  {
    if Blank(step.walletCt) || Blank(step.seedCt) { return Err(BadRequest); }
    if !u.engine { return Err(Internal); }
    var verified := VerifySgxQuote(u, s.quotes, step.quote, step.key, step.clearance);
    if verified.Err? { return Err(verified.error); }
    var walletKey := engine.UnwrapDatakeyForEnclave(u, step.walletCt, step.key);
    if walletKey.Err? { return Err(walletKey.error); }
    var masterSeed := engine.UnwrapDatakeyForEnclave(u, step.seedCt, step.key);
    if masterSeed.Err? { return Err(masterSeed.error); }
    res := Ok(Emission(step.clearance, walletKey.value, masterSeed.value));
  }

  /** Releasing to a verified enclave: both ciphertexts are opened before the key is parsed. */
  method ReleaseForVerifiedEnclave(u: Setup, vault: VaultDatakeyEngine, step: Step)
    returns (res: Result<Emission, ApiError>)
    requires step.Release?
    ensures res.Ok? <==>
            step.key != [] && u.isPublicKey(step.key) && step.walletCt in vault.plain && step.seedCt in vault.plain
    ensures res == if res.Err? then Err(Internal)
                   else Ok(Emission(step.clearance, Wrapped(step.key, vault.plain[step.walletCt]),
                                    Wrapped(step.key, vault.plain[step.seedCt])))
  {
    if step.key == [] { return Err(Internal); }
    var walletKey := vault.Decrypt(step.walletCt);
    if walletKey.Err? { return Err(walletKey.error); }
    var masterSeed := vault.Decrypt(step.seedCt);
    if masterSeed.Err? { return Err(masterSeed.error); }
    if !u.isPublicKey(step.key) { return Err(Internal); }
    var wrappedKey, wrappedSeed := Wrapped(step.key, walletKey.value), Wrapped(step.key, masterSeed.value);
    res := Ok(Emission(step.clearance, wrappedKey, wrappedSeed));
  }

  /** The release handler is the machine's release. */
  method ReleaseKey(u: Setup, vault: VaultDatakeyEngine, s: State, step: Step) returns (res: Result<Emission, ApiError>)
    requires step.Release? && s.vault == vault.plain
    ensures res == Handle(u, s, step)
    ensures res.Ok? <==> Admitted(u, s.quotes, step) && step.walletCt in vault.plain && step.seedCt in vault.plain
  {
    var verified := VerifySgxQuote(u, s.quotes, step.quote, step.key, step.clearance);
    if verified.Err? { return Err(verified.error); }
    res := ReleaseForVerifiedEnclave(u, vault, step);
  }
}
