/** The chaincode: world state, event log and the transactions that change them. */
module Ledger {
  import opened Wrappers

  datatype Metadata = Metadata(
    credentialId: string, schemaId: string, issuerDid: string, subjectDid: string,
    issuedAt: int, expiresAt: int, revoked: bool)

  datatype Document =
    | SchemaDoc(schemaId: string, issuerDid: string, name: string, version: string, attributes: string, created: int)
    | CredentialDoc(meta: Metadata)
    | DidDoc(doc: DidDocument)

  datatype VerificationMethod = VerificationMethod(
    id: string, methodType: string, controller: string, publicKeyMultibase: string)

  datatype DidDocument = DidDocument(
    context: seq<string>, id: string, publicKey: string, verificationMethod: seq<VerificationMethod>,
    authentication: seq<string>, assertionMethod: seq<string>, issuerDid: string)

  /** One key, named after the did, for every purpose. */
  function NewDidDocument(did: string, issuerDid: string, publicKey: string): (d: DidDocument) {
    var key := did + "#key-1";
    DidDocument(["https://www.w3.org/ns/did/v1"], did, publicKey,
                [VerificationMethod(key, "Ed25519VerificationKey2020", did, publicKey)], [key], [key], issuerDid)
  }

  datatype Payload =
    | RevocationJson(credentialId: string, revokedAt: int, reason: string)
    | PlainText(text: string)
    | Binary

  datatype Event = Event(name: string, payload: Payload)

  datatype State = State(world: map<string, Document>, log: seq<Event>)

  const INITIAL: State := State(map[], [])

  const REASON := "Revoked via Administrative Lifecycle Request"

  /** Transactions; a timestamp is absent when the stub cannot supply one. */
  datatype Tx =
    | Record(id: string, schemaId: string, issuerDid: string, subjectDid: string, expiresAt: int, time: Option<int>)
    | Revoke(id: string, time: Option<int>)
    | RegisterSchema(schemaId: string, issuerDid: string, name: string, version: string, attributes: Option<string>,
                     time: Option<int>)
    | RegisterDid(did: string, issuerDid: string, publicKey: string)

  function CredKey(id: string): (k: string) { "CRED_" + id }
  function SchemaKey(id: string): (k: string) { "SCHEMA_" + id }
  function DidKey(did: string): (k: string) { "DID_" + did }

  function Seconds(time: Option<int>): (t: int) {
    match time case Some(t) => t case None => 0
  }

  function GetMetadata(s: State, id: string): (m: Option<Metadata>) {
    if CredKey(id) in s.world && s.world[CredKey(id)].CredentialDoc? then Some(s.world[CredKey(id)].meta) else None
  }

  /** The committed effect of a transaction; one that returns an error is not committed. */
  function Apply(s: State, tx: Tx): (s': State) {
    match tx
    case Record(id, schemaId, issuerDid, subjectDid, expiresAt, time) =>
      s.(world := s.world[CredKey(id) :=
        CredentialDoc(Metadata(id, schemaId, issuerDid, subjectDid, Seconds(time), expiresAt, false))])
    case Revoke(id, time) =>
      (match GetMetadata(s, id)
       case None => s
       case Some(m) =>
         State(s.world[CredKey(id) := CredentialDoc(m.(revoked := true))],
               s.log + [Event("RevokeCredential", RevocationJson(id, Seconds(time), REASON))]))
    case RegisterSchema(schemaId, issuerDid, name, version, attributes, time) =>
      if attributes.None? then s
      else s.(world := s.world[SchemaKey(schemaId) :=
        SchemaDoc(schemaId, issuerDid, name, version, attributes.value, Seconds(time))])
    case RegisterDid(did, issuerDid, publicKey) =>
      if did == "" || issuerDid == "" || publicKey == "" then s
      else s.(world := s.world[DidKey(did) := DidDoc(NewDidDocument(did, issuerDid, publicKey))])
  }

  // ---- Namespaces.

  lemma KeysApart(a: string, b: string)
    ensures CredKey(a) == CredKey(b) <==> a == b
    ensures CredKey(a) != SchemaKey(b) && CredKey(a) != DidKey(b) && SchemaKey(a) != DidKey(b)
  {
    assert CredKey(a)[5..] == a && CredKey(b)[5..] == b;
    assert CredKey(a)[0] == 'C' && SchemaKey(b)[0] == 'S' && DidKey(b)[0] == 'D' && SchemaKey(a)[0] == 'S';
  }

  /** Credential keys hold credential metadata of their own id, and nothing else does. */
  ghost predicate Valid(s: State) {
    && (forall id :: CredKey(id) in s.world ==> s.world[CredKey(id)].CredentialDoc?)
    && (forall k :: k in s.world && s.world[k].CredentialDoc? ==> k == CredKey(s.world[k].meta.credentialId))
  }

  lemma ApplyValid(s: State, tx: Tx)
    requires Valid(s)
    ensures Valid(Apply(s, tx))
  {
    forall a, b { KeysApart(a, b); }
  }

  /** The metadata carries the arguments of the record, each in its own field, and its time or 0. */
  predicate RecordedAs(m: Metadata, tx: Tx)
    requires tx.Record?
  {
    && m.credentialId == tx.id && m.schemaId == tx.schemaId
    && m.issuerDid == tx.issuerDid && m.subjectDid == tx.subjectDid && m.expiresAt == tx.expiresAt
    && (tx.time.Some? ==> m.issuedAt == tx.time.value) && (tx.time.None? ==> m.issuedAt == 0)
  }

  /** A transaction touches the metadata of at most the credential it names. */
  lemma ApplyFrame(s: State, tx: Tx, id: string)
    requires Valid(s)
    ensures tx.Record? && tx.id == id ==>
              GetMetadata(Apply(s, tx), id).Some? && RecordedAs(GetMetadata(Apply(s, tx), id).value, tx)
              && !GetMetadata(Apply(s, tx), id).value.revoked
    ensures tx.Revoke? && tx.id == id && GetMetadata(s, id).Some? ==>
              GetMetadata(Apply(s, tx), id) == Some(GetMetadata(s, id).value.(revoked := true))
    ensures !((tx.Record? || tx.Revoke?) && tx.id == id) ==> GetMetadata(Apply(s, tx), id) == GetMetadata(s, id)
  {
    forall b { KeysApart(id, b); }
  }

  /** Whether the transaction succeeds and k is its key. */
  predicate Writes(s: State, tx: Tx, k: string) {
    match tx
    case Record(id, _, _, _, _, _) => k == "CRED_" + id
    case Revoke(id, _) => k == "CRED_" + id && GetMetadata(s, id).Some?
    case RegisterSchema(id, _, _, _, attributes, _) => k == "SCHEMA_" + id && attributes.Some?
    case RegisterDid(did, issuer, key) => k == "DID_" + did && did != "" && issuer != "" && key != ""
  }

  /** A transaction writes at most one key, in the namespace of its kind, and never deletes: what each stores there. */
  lemma ApplyWrites(s: State, tx: Tx, k: string)
    ensures s.world.Keys <= Apply(s, tx).world.Keys
    ensures tx.Record? ==>
            && "CRED_" + tx.id in Apply(s, tx).world && Apply(s, tx).world["CRED_" + tx.id].CredentialDoc?
            && RecordedAs(Apply(s, tx).world["CRED_" + tx.id].meta, tx)
    ensures tx.RegisterSchema? && tx.attributes.Some? ==>
            && "SCHEMA_" + tx.schemaId in Apply(s, tx).world && Apply(s, tx).world["SCHEMA_" + tx.schemaId].SchemaDoc?
            && var d := Apply(s, tx).world["SCHEMA_" + tx.schemaId];
            && d.schemaId == tx.schemaId && d.issuerDid == tx.issuerDid && d.name == tx.name
            && d.version == tx.version && d.attributes == tx.attributes.value
            && (tx.time.Some? ==> d.created == tx.time.value) && (tx.time.None? ==> d.created == 0)
    ensures tx.RegisterDid? && tx.did != "" && tx.issuerDid != "" && tx.publicKey != "" ==>
            && "DID_" + tx.did in Apply(s, tx).world && Apply(s, tx).world["DID_" + tx.did].DidDoc?
            && var d := Apply(s, tx).world["DID_" + tx.did].doc;
            && d.id == tx.did && d.issuerDid == tx.issuerDid && d.publicKey == tx.publicKey
            && d.context == ["https://www.w3.org/ns/did/v1"] && |d.verificationMethod| == 1
            && d.verificationMethod[0].id == tx.did + "#key-1" && d.verificationMethod[0].controller == tx.did
            && d.verificationMethod[0].methodType == "Ed25519VerificationKey2020"
            && d.verificationMethod[0].publicKeyMultibase == tx.publicKey
            && d.authentication == d.assertionMethod == [d.verificationMethod[0].id]
    ensures k in s.world && !Writes(s, tx, k) ==> Apply(s, tx).world[k] == s.world[k]
  {
  }

  /** Only the revocation of an existing credential is logged, as one event with its id, its time or 0, and the
      reason. */
  lemma ApplyLog(s: State, tx: Tx)
    ensures !(tx.Revoke? && GetMetadata(s, tx.id).Some?) ==> Apply(s, tx).log == s.log
    ensures tx.Revoke? && GetMetadata(s, tx.id).Some? ==>
            && |Apply(s, tx).log| == |s.log| + 1 && Apply(s, tx).log[..|s.log|] == s.log
            && var e := Apply(s, tx).log[|s.log|];
            && e.name == "RevokeCredential" && e.payload.RevocationJson? && e.payload.credentialId == tx.id
            && (tx.time.Some? ==> e.payload.revokedAt == tx.time.value) && (tx.time.None? ==> e.payload.revokedAt == 0)
            && e.payload.reason == "Revoked via Administrative Lifecycle Request"
  {
  }

  // ---- The log against the flags.

  /** The daemon's reading of an event: its name must be a revocation, its payload JSON or plain text. */
  function EventId(e: Event): (id: Option<string>) {
    if e.name == "RevokeCredential" || e.name == "CredentialRevoked" then
      match e.payload
      case RevocationJson(id, _, _) => Some(id)
      case PlainText(text) => Some(text)
      case Binary => None
    else None
  }

  /** Which events revoke, and whom. */
  lemma EventIdIff(e: Event, id: string)
    ensures EventId(e) == Some(id) <==>
            && (e.name == "RevokeCredential" || e.name == "CredentialRevoked")
            && (|| (e.payload.RevocationJson? && e.payload.credentialId == id)
                || (e.payload.PlainText? && e.payload.text == id))
  {
  }

  function LogIds(log: seq<Event>): (ids: set<string>) {
    set i | 0 <= i < |log| && EventId(log[i]).Some? :: EventId(log[i]).value
  }

  function RevokedIds(s: State): (ids: set<string>) {
    set k | k in s.world && s.world[k].CredentialDoc? && s.world[k].meta.revoked :: s.world[k].meta.credentialId
  }

  /** The ids of all logged revocations are exactly the credentials whose flag is set. */
  predicate Agreement(s: State) { LogIds(s.log) == RevokedIds(s) }

  lemma RevokedMeans(s: State, id: string)
    requires Valid(s)
    ensures id in RevokedIds(s) <==> GetMetadata(s, id).Some? && GetMetadata(s, id).value.revoked
  {
    if id in RevokedIds(s) {
      var k :| k in s.world && s.world[k].CredentialDoc? && s.world[k].meta.revoked
            && s.world[k].meta.credentialId == id;
    }
    if GetMetadata(s, id).Some? {
      var m := s.world[CredKey(id)].meta;
      KeysApart(m.credentialId, id);
    }
  }

  lemma LogIdsConcat(a: seq<Event>, b: seq<Event>)
    ensures LogIds(a + b) == LogIds(a) + LogIds(b)
  {
    forall id | id in LogIds(a + b) ensures id in LogIds(a) + LogIds(b) {
      var i :| 0 <= i < |a + b| && EventId((a + b)[i]) == Some(id);
      if i >= |a| { assert b[i - |a|] == (a + b)[i]; }
    }
    forall id | id in LogIds(a) ensures id in LogIds(a + b) {
      var i :| 0 <= i < |a| && EventId(a[i]) == Some(id);
      assert (a + b)[i] == a[i];
    }
    forall id | id in LogIds(b) ensures id in LogIds(a + b) {
      var i :| 0 <= i < |b| && EventId(b[i]) == Some(id);
      assert (a + b)[|a| + i] == b[i];
    }
  }

  lemma LogIdsOne(e: Event)
    ensures LogIds([e]) == match EventId(e) case Some(id) => {id} case None => {}
  {
    assert [e][0] == e;
    if EventId(e).Some? {
      assert EventId(e).value in LogIds([e]);
    }
  }

  /** What each transaction does to the two sets. */
  lemma ApplySets(s: State, tx: Tx)
    requires Valid(s)
    ensures RevokedIds(Apply(s, tx)) ==
            match tx
            case Record(id, _, _, _, _, _) => RevokedIds(s) - {id}
            case Revoke(id, _) => if GetMetadata(s, id).Some? then RevokedIds(s) + {id} else RevokedIds(s)
            case _ => RevokedIds(s)
    ensures LogIds(Apply(s, tx).log) ==
            if tx.Revoke? && GetMetadata(s, tx.id).Some? then LogIds(s.log) + {tx.id} else LogIds(s.log)
  {
    ApplyValid(s, tx);
    forall id ensures id in RevokedIds(Apply(s, tx)) <==>
        match tx
        case Record(id', _, _, _, _, _) => id in RevokedIds(s) && id != id'
        case Revoke(id', _) => id in RevokedIds(s) || (GetMetadata(s, id').Some? && id == id')
        case _ => id in RevokedIds(s)
    {
      ApplyFrame(s, tx, id);
      RevokedMeans(s, id);
      RevokedMeans(Apply(s, tx), id);
    }
    if tx.Revoke? && GetMetadata(s, tx.id).Some? {
      var e := Event("RevokeCredential", RevocationJson(tx.id, Seconds(tx.time), REASON));
      LogIdsConcat(s.log, [e]);
      LogIdsOne(e);
    }
  }

  /** Agreement survives a transaction exactly when it does not record an id that is revoked already. */
  lemma AgreementStep(s: State, tx: Tx)
    requires Valid(s) && Agreement(s)
    ensures Agreement(Apply(s, tx)) <==> !(tx.Record? && tx.id in RevokedIds(s))
  {
    ApplySets(s, tx);
  }

  /** Recording an id again after its revocation clears the flag while the event stays in the log. */
  lemma ReissueBreaksAgreement(id: string)
    ensures
      var tx := Record(id, "s", "i", "d", 0, None);
      var s := Apply(Apply(INITIAL, tx), Revoke(id, None));
      Valid(s) && Agreement(s) && id in LogIds(Apply(s, tx).log) && id !in RevokedIds(Apply(s, tx))
  {
    var tx := Record(id, "s", "i", "d", 0, None);
    var s := Apply(INITIAL, tx);
    ApplyValid(INITIAL, tx);
    ApplyValid(s, Revoke(id, None));
    ApplySets(INITIAL, tx);
    ApplyFrame(INITIAL, tx, id);
    ApplySets(s, Revoke(id, None));
    ApplySets(Apply(s, Revoke(id, None)), tx);
  }

  // ---- Whole runs of transactions.

  function ApplyAll(s: State, txs: seq<Tx>): (s': State) {
    if txs == [] then s else Apply(ApplyAll(s, txs[..|txs| - 1]), txs[|txs| - 1])
  }

  lemma {:induction false} ApplyAllConcat(s: State, a: seq<Tx>, b: seq<Tx>)
    ensures ApplyAll(s, a + b) == ApplyAll(ApplyAll(s, a), b)
    decreases b
  {
    if b == [] {
      assert a + b == a;
    } else {
      var n := |b| - 1;
      assert (a + b)[..|a + b| - 1] == a + b[..n];
      ApplyAllConcat(s, a, b[..n]);
    }
  }

  predicate Recorded(txs: seq<Tx>, id: string) {
    exists i :: 0 <= i < |txs| && txs[i].Record? && txs[i].id == id
  }

  predicate RevokedAgain(txs: seq<Tx>, from: nat, id: string) {
    exists i :: from <= i < |txs| && txs[i].Revoke? && txs[i].id == id
  }

  /** Some revocation of the id comes after a record of it. */
  predicate Logged(txs: seq<Tx>, id: string) {
    exists i :: 0 <= i < |txs| && txs[i].Revoke? && txs[i].id == id && Recorded(txs[..i], id)
  }

  /** The id is recorded after a logged revocation of it and not revoked after that. */
  predicate Reissued(txs: seq<Tx>, id: string) {
    exists i :: 0 <= i < |txs| && txs[i].Record? && txs[i].id == id && Logged(txs[..i], id) && !RevokedAgain(txs, i, id)
  }

  lemma RecordedSnoc(txs: seq<Tx>, tx: Tx, id: string)
    ensures Recorded(txs + [tx], id) <==> Recorded(txs, id) || (tx.Record? && tx.id == id)
  {
    var all := txs + [tx];
    assert all[|txs|] == tx;
    forall i | 0 <= i < |txs| ensures all[i] == txs[i] { }
  }

  lemma LoggedSnoc(txs: seq<Tx>, tx: Tx, id: string)
    ensures Logged(txs + [tx], id) <==> Logged(txs, id) || (tx.Revoke? && tx.id == id && Recorded(txs, id))
    ensures Logged(txs, id) ==> Recorded(txs, id)
  {
    var all := txs + [tx];
    assert all[|txs|] == tx && all[..|txs|] == txs;
    forall i | 0 <= i < |txs| ensures all[i] == txs[i] && all[..i] == txs[..i] { }
  }

  lemma LoggedPrefix(txs: seq<Tx>, n: nat, id: string)
    requires n <= |txs| && Logged(txs[..n], id)
    ensures Logged(txs, id)
  {
    var p := txs[..n];
    var i :| 0 <= i < |p| && p[i].Revoke? && p[i].id == id && Recorded(p[..i], id);
    assert p[..i] == txs[..i] && p[i] == txs[i];
  }

  lemma ReissuedSnoc(txs: seq<Tx>, tx: Tx, id: string)
    ensures Reissued(txs + [tx], id) <==>
            if tx.Record? && tx.id == id then Logged(txs, id)
            else Reissued(txs, id) && !(tx.Revoke? && tx.id == id)
  {
    var all := txs + [tx];
    assert all[|txs|] == tx && all[..|txs|] == txs;
    forall i | 0 <= i < |txs|
      ensures all[i] == txs[i] && all[..i] == txs[..i]
      ensures RevokedAgain(all, i, id) <==> RevokedAgain(txs, i, id) || (tx.Revoke? && tx.id == id)
    {
      forall j | 0 <= j < |txs| ensures all[j] == txs[j] { }
    }
    if Logged(txs, id) && tx.Record? && tx.id == id {
      assert !RevokedAgain(all, |txs|, id);
    }
    forall i | 0 <= i < |txs| && Logged(txs[..i], id) ensures Logged(txs, id) {
      LoggedPrefix(txs, i, id);
    }
  }

  /** After any transactions: which credentials exist, which ids are logged, and which of those are not revoked. */
  lemma {:induction false} RunSets(txs: seq<Tx>, id: string)
    ensures var s := ApplyAll(INITIAL, txs);
      && Valid(s)
      && (GetMetadata(s, id).Some? <==> Recorded(txs, id))
      && (id in LogIds(s.log) <==> Logged(txs, id))
      && (id in RevokedIds(s) <==> Logged(txs, id) && !Reissued(txs, id))
  {
    if txs != [] {
      var n := |txs| - 1;
      var s := ApplyAll(INITIAL, txs[..n]);
      RunSets(txs[..n], id);
      assert txs == txs[..n] + [txs[n]];
      RecordedSnoc(txs[..n], txs[n], id);
      LoggedSnoc(txs[..n], txs[n], id);
      ReissuedSnoc(txs[..n], txs[n], id);
      ApplyValid(s, txs[n]);
      ApplyFrame(s, txs[n], id);
      ApplySets(s, txs[n]);
    }
  }

  /** A whole run ends in agreement exactly when no id was left recorded after a logged revocation. */
  lemma AgreementOfRun(txs: seq<Tx>)
    ensures RevokedIds(ApplyAll(INITIAL, txs)) <= LogIds(ApplyAll(INITIAL, txs).log)
    ensures Agreement(ApplyAll(INITIAL, txs)) <==> forall id :: !Reissued(txs, id)
  {
    var s := ApplyAll(INITIAL, txs);
    forall id
      ensures id in RevokedIds(s) ==> id in LogIds(s.log)
      ensures Reissued(txs, id) <==> id in LogIds(s.log) && id !in RevokedIds(s)
    {
      RunSets(txs, id);
      forall i | 0 <= i < |txs| && Logged(txs[..i], id) ensures Logged(txs, id) {
        LoggedPrefix(txs, i, id);
      }
    }
  }

  /** The last record of an id among the transactions. */
  function LastRecord(txs: seq<Tx>, id: string): (tx: Option<Tx>)
    ensures tx.Some? ==> tx.value.Record? && tx.value.id == id && tx.value in txs
  {
    if txs == [] then None
    else
      var n := |txs| - 1;
      if txs[n].Record? && txs[n].id == id then Some(txs[n]) else LastRecord(txs[..n], id)
  }

  /** After any transactions the getter reports the arguments of the last record, and as flag whether the id was
      revoked after it. */
  lemma {:induction false} MetadataOfRun(txs: seq<Tx>, id: string)
    ensures var m, last := GetMetadata(ApplyAll(INITIAL, txs), id), LastRecord(txs, id);
      && (m.Some? <==> last.Some?)
      && (m.Some? ==> RecordedAs(m.value, last.value))
      && (m.Some? ==> (m.value.revoked <==> Logged(txs, id) && !Reissued(txs, id)))
  {
    RunSets(txs, id);
    RevokedMeans(ApplyAll(INITIAL, txs), id);
    if txs != [] {
      var n := |txs| - 1;
      MetadataOfRun(txs[..n], id);
      RunSets(txs[..n], id);
      ApplyFrame(ApplyAll(INITIAL, txs[..n]), txs[n], id);
    }
  }

  predicate RecordedOnce(txs: seq<Tx>) {
    forall i, j :: 0 <= i < j < |txs| && txs[i].Record? && txs[j].Record? ==> txs[i].id != txs[j].id
  }

  /** With every id recorded at most once, log and flags agree. */
  lemma RecordedOnceAgrees(txs: seq<Tx>)
    requires RecordedOnce(txs)
    ensures Agreement(ApplyAll(INITIAL, txs))
  {
    forall id ensures !Reissued(txs, id) {
      forall i | 0 <= i < |txs| && txs[i].Record? && txs[i].id == id ensures !Logged(txs[..i], id) {
        LoggedSnoc(txs[..i], txs[i], id);
      }
    }
    AgreementOfRun(txs);
  }

  // ---- The contract object.

  datatype CallError = NotFound | BadArguments

  class DztaContract {
    var world: map<string, Document>
    var log: seq<Event>

    constructor ()
      ensures Current() == INITIAL
    {
      world, log := map[], [];
    }

    function Current(): (s: State)
      reads this
    {
      State(world, log)
    }

    method RecordCredentialMetadata(id: string, schemaId: string, issuerDid: string, subjectDid: string,
                                    expiresAt: int, time: Option<int>)
      modifies this
      ensures Current() == Apply(old(Current()), Record(id, schemaId, issuerDid, subjectDid, expiresAt, time))
      ensures GetMetadata(Current(), id) ==
              Some(Metadata(id, schemaId, issuerDid, subjectDid, if time.Some? then time.value else 0, expiresAt,
                            false))
    {
      var issuedAt := 0;
      if time.Some? { issuedAt := time.value; }
      var meta := Metadata(id, schemaId, issuerDid, subjectDid, issuedAt, expiresAt, false);
      world := world[CredKey(id) := CredentialDoc(meta)];
    }

    method GetCredentialMetadata(id: string) returns (res: Result<Metadata, CallError>)
      ensures res == match GetMetadata(Current(), id) case Some(m) => Ok(m) case None => Err(NotFound)
    {
      var key := CredKey(id);
      if key !in world || !world[key].CredentialDoc? { return Err(NotFound); }
      return Ok(world[key].meta);
    }

    method IsCredentialRevoked(id: string) returns (res: Result<bool, CallError>)
      requires Valid(Current())
      ensures res.Ok? <==> GetMetadata(Current(), id).Some?
      ensures res.Ok? ==> (res.value <==> id in RevokedIds(Current()))
    {
      var m := GetCredentialMetadata(id);
      RevokedMeans(Current(), id);
      if m.Err? { return Err(m.error); }
      return Ok(m.value.revoked);
    }

    method RevokeCredential(id: string, time: Option<int>) returns (res: Result<(), CallError>)
      modifies this
      ensures res.Ok? <==> GetMetadata(old(Current()), id).Some?
      ensures Current() == Apply(old(Current()), Revoke(id, time))
    {
      var m := GetCredentialMetadata(id);
      if m.Err? { return Err(m.error); }
      var meta := m.value.(revoked := true);
      world := world[CredKey(id) := CredentialDoc(meta)];
      var revokedAt := 0;
      if time.Some? { revokedAt := time.value; }
      log := log + [Event("RevokeCredential", RevocationJson(id, revokedAt, REASON))];
      return Ok(());
    }

    method RegisterSchema(schemaId: string, issuerDid: string, name: string, version: string,
                          attributes: Option<string>, time: Option<int>)
      returns (res: Result<(), CallError>)
      modifies this
      ensures res.Ok? <==> attributes.Some?
      ensures Current()
           == Apply(old(Current()), Tx.RegisterSchema(schemaId, issuerDid, name, version, attributes, time))
    {
      if attributes.None? { return Err(BadArguments); }
      var created := 0;
      if time.Some? { created := time.value; }
      world := world[SchemaKey(schemaId) := SchemaDoc(schemaId, issuerDid, name, version, attributes.value, created)];
      return Ok(());
    }

    method RegisterDid(did: string, issuerDid: string, publicKey: string) returns (res: Result<(), CallError>)
      modifies this
      ensures res.Err? <==> did == "" || issuerDid == "" || publicKey == ""
      ensures Current() == Apply(old(Current()), Tx.RegisterDid(did, issuerDid, publicKey))
    {
      if did == "" || issuerDid == "" || publicKey == "" { return Err(BadArguments); }
      var key := did + "#key-1";
      var doc := DidDocument(
        ["https://www.w3.org/ns/did/v1"], did, publicKey,
        [VerificationMethod(key, "Ed25519VerificationKey2020", did, publicKey)], [key], [key], issuerDid);
      world := world[DidKey(did) := DidDoc(doc)];
      return Ok(());
    }
  }
}
