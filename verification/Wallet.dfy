/** The wallet object over its store, and concurrent creation of the master seed. */
module WalletStore {
  import opened Wrappers
  import opened ByteStrings
  import opened Envelope
  import opened Json

  datatype Entry = Entry(value: Bytes, revoked: bool)

  datatype WalletError = NotInitialized | NotFound | Duplicate | Unreadable

  /** A stored credential as the wallet reads it. */
  function ReadCredential(y: Crypto, codec: Codec, credentials: map<string, Entry>, passphrase: Bytes, id: string)
    : (res: Result<Value, WalletError>)
  {
    if id !in credentials then Err(NotFound)
    else match Decrypt(y, credentials[id].value, passphrase)
      case None => Err(Unreadable)
      case Some(clear) => match codec.parse(clear) case Some(v) => Ok(v) case None => Err(Unreadable)
  }

  const SEED_NAME := "master_zkp_seed"

  class Wallet {
    const y: Crypto
    const codec: Codec
    var passphrase: Option<Bytes>
    var credentials: map<string, Entry>
    var keys: map<string, Bytes>

    constructor (y: Crypto, codec: Codec)
      ensures this.y == y && this.codec == codec && passphrase.None? && credentials == map[] && keys == map[]
    {
      this.y, this.codec, passphrase, credentials, keys := y, codec, None, map[], map[];
    }

    method Initialize(pass: Bytes)
      modifies this`passphrase
      ensures passphrase == Some(pass)
    {
      passphrase := Some(pass);
    }

    /** Seals and inserts a new credential; an existing name is refused and nothing else changes. */
    method StoreCredential(id: string, document: Value, nonce: Bytes) returns (res: Result<(), WalletError>)
      requires |nonce| == NONCE && Ideal(y.aead) && Faithful(codec)
      modifies this`credentials
      ensures res.Ok? <==> passphrase.Some? && id !in old(credentials)
      ensures res.Ok? ==>
              var sealed := Encrypt(y, codec.write(document), passphrase.value, nonce);
              credentials == old(credentials)[id := Entry(sealed, false)]
      ensures res.Ok? ==> ReadCredential(y, codec, credentials, passphrase.value, id) == Ok(document)
      ensures res.Err? ==> credentials == old(credentials)
    {
      if passphrase.None? { return Err(NotInitialized); }
      var sealed := EncryptWalletRecord(y, codec.write(document), passphrase.value, nonce);
      if id in credentials { return Err(Duplicate); }
      EnvelopeRoundTrip(y, codec.write(document), passphrase.value, nonce);
      credentials := credentials[id := Entry(sealed, false)];
      return Ok(());
    }

    method FetchRawEncryptedRecord(id: string) returns (res: Result<Bytes, WalletError>)
      ensures res == if passphrase.None? then Err(NotInitialized)
                     else if id in credentials then Ok(credentials[id].value) else Err(NotFound)
    {
      if passphrase.None? { return Err(NotInitialized); }
      if id !in credentials { return Err(NotFound); }
      return Ok(credentials[id].value);
    }

    method GetCredential(id: string) returns (res: Result<Value, WalletError>)
      ensures res == Err(NotInitialized) <==> passphrase.None?
      ensures res == Err(NotFound) <==> passphrase.Some? && id !in credentials
      ensures res.Ok? ==>
              && passphrase.Some? && id in credentials
              && var clear := Decrypt(y, credentials[id].value, passphrase.value);
              clear.Some? && codec.parse(clear.value) == Some(res.value)
      ensures res == Err(Unreadable) <==>
              && passphrase.Some? && id in credentials
              && var clear := Decrypt(y, credentials[id].value, passphrase.value);
              clear.None? || codec.parse(clear.value).None?
      ensures passphrase.Some? ==> res == ReadCredential(y, codec, credentials, passphrase.value, id)
    {
      if passphrase.None? { return Err(NotInitialized); }
      if id !in credentials { return Err(NotFound); }
      var clear := Decrypt(y, credentials[id].value, passphrase.value);
      if clear.None? { return Err(Unreadable); }
      var v := codec.parse(clear.value);
      if v.None? { return Err(Unreadable); }
      return Ok(v.value);
    }

    /** Marks one credential; every credential still reads as before. */
    method MarkCredentialRevoked(id: string) returns (res: Result<(), WalletError>)
      modifies this`credentials
      ensures res.Ok? <==> passphrase.Some? && id in old(credentials)
      ensures res.Ok? ==> id in credentials && credentials[id].revoked
      ensures credentials.Keys == old(credentials).Keys
      ensures forall k :: k in credentials && (k != id || res.Err?) ==> credentials[k] == old(credentials)[k]
      ensures passphrase.Some? ==> forall k ::
                ReadCredential(y, codec, credentials, passphrase.value, k)
                == ReadCredential(y, codec, old(credentials), passphrase.value, k)
    {
      if passphrase.None? { return Err(NotInitialized); }
      if id !in credentials { return Err(NotFound); }
      credentials := credentials[id := Entry(credentials[id].value, true)];
      return Ok(());
    }

    /** Returns the stored seed, creating it from the given randomness the first time only. */
    method GetOrCreateZkpSecretSeed(random: Bytes) returns (res: Result<Bytes, WalletError>)
      modifies this`keys
      ensures res.Ok? <==> passphrase.Some?
      ensures res.Ok? ==> keys == old(keys)[SEED_NAME := res.value]
      ensures res.Ok? ==> res.value == if SEED_NAME in old(keys) then old(keys)[SEED_NAME] else random
      ensures res.Err? ==> keys == old(keys)
    {
      if passphrase.None? { return Err(NotInitialized); }
      if SEED_NAME in keys {
        assert keys == keys[SEED_NAME := keys[SEED_NAME]];
        return Ok(keys[SEED_NAME]);
      }
      keys := keys[SEED_NAME := random];
      return Ok(random);
    }
  }
}

/** Concurrent `get_or_create_zkp_secret_seed` calls on one store whose insert rejects an existing name. */
module SeedRace {
  import opened Wrappers
  import opened ByteStrings

  /** Where a call is: before its fetch, past a fetch that found nothing, past its insert, or finished. */
  datatype Phase = Started | Missed | Inserted(seed: Bytes) | Returned(seed: Bytes) | Failed

  datatype State = State(stored: Option<Bytes>, calls: seq<Phase>)

  datatype Step =
    | Begin
    | Fetch(call: nat)
    | Insert(call: nat, random: Bytes)
    | Commit(call: nat, ok: bool)
    | Abort(call: nat)

  predicate Enabled(s: State, step: Step) {
    match step
    case Begin => true
    case Fetch(c) => c < |s.calls| && s.calls[c].Started?
    case Insert(c, _) => c < |s.calls| && s.calls[c].Missed?
    case Commit(c, _) => c < |s.calls| && s.calls[c].Inserted?
    case Abort(c) => c < |s.calls| && !s.calls[c].Returned?
  }

  function Next(s: State, step: Step): (s': State)
    requires Enabled(s, step)
  {
    match step
    case Begin => s.(calls := s.calls + [Started])
    case Fetch(c) =>
      s.(calls := s.calls[c := match s.stored case Some(seed) => Returned(seed) case None => Missed])
    case Insert(c, random) =>
      if s.stored.Some? then s.(calls := s.calls[c := Failed])
      else State(Some(random), s.calls[c := Inserted(random)])
    case Commit(c, ok) => s.(calls := s.calls[c := if ok then Returned(s.calls[c].seed) else Failed])
    case Abort(c) => s.(calls := s.calls[c := Failed])
  }

  predicate Legal(s: State, steps: seq<Step>)
    decreases steps
  {
    steps == [] || (Enabled(s, steps[0]) && Legal(Next(s, steps[0]), steps[1..]))
  }

  function Final(s: State, steps: seq<Step>): (s': State)
    requires Legal(s, steps)
    decreases steps
  {
    if steps == [] then s else Final(Next(s, steps[0]), steps[1..])
  }

  /** Whoever holds a seed holds the stored one. */
  predicate Inv(s: State) {
    forall c :: 0 <= c < |s.calls| && (s.calls[c].Inserted? || s.calls[c].Returned?) ==>
      s.stored == Some(s.calls[c].seed)
  }

  lemma {:induction false} RunInv(s: State, steps: seq<Step>)
    requires Inv(s) && Legal(s, steps)
    ensures Inv(Final(s, steps)) && (s.stored.Some? ==> Final(s, steps).stored == s.stored)
    decreases steps
  {
    if steps != [] { RunInv(Next(s, steps[0]), steps[1..]); }
  }

  /** Under every interleaving, all calls that succeed in a run return one seed: the stored one, and the one that was
      there at the start if there was one. */
  lemma OneSeed(stored: Option<Bytes>, steps: seq<Step>)
    requires Legal(State(stored, []), steps)
    ensures
      var s := Final(State(stored, []), steps);
      && (forall c, d :: 0 <= c < |s.calls| && 0 <= d < |s.calls| && s.calls[c].Returned? && s.calls[d].Returned?
            ==> s.calls[c].seed == s.calls[d].seed)
      && (forall c :: 0 <= c < |s.calls| && s.calls[c].Returned? ==> s.stored == Some(s.calls[c].seed))
      && (stored.Some? ==> s.stored == stored)
  {
    RunInv(State(stored, []), steps);
  }
}
