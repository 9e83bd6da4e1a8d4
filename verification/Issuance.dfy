/** Credential issuance and storage, and the way back from the stored record to the circuit. */
module Issuance {
  import opened Wrappers
  import opened Arithmetic
  import opened ByteStrings
  import opened Envelope
  import opened Json
  import opened Unsealing
  import ZkpCore
  import RoleCircuit
  import Ledger

  datatype Attributes = Attributes(userRoleId: string, orgId: string, clearanceLevel: nat, timestamp: int) {
    predicate Valid() { clearanceLevel < U64 && IsI64(timestamp) }
  }

  // ---- Schema validation.

  datatype SchemaAttribute = SchemaAttribute(name: string, attrType: string)

  datatype IssueError = MissingField(name: string) | TypeMismatch(name: string) | UnknownType(name: string)
                      | BlankDid | PastExpiry | NoSchema | BadExpiry | SigningFailed | LedgerFailed

  function CheckField(attr: SchemaAttribute, v: Value, isRfc3339: string -> bool): (res: Result<(), IssueError>) {
    if attr.attrType == "string" then
      if v.Str? then Ok(()) else Err(TypeMismatch(attr.name))
    else if attr.attrType == "integer" then
      if AsI64(Some(v)).Some? || AsU64(Some(v)).Some? then Ok(()) else Err(TypeMismatch(attr.name))
    else if attr.attrType == "timestamp" then
      if AsI64(Some(v)).Some? then (if v.n <= 0 then Err(TypeMismatch(attr.name)) else Ok(()))
      else if v.Str? then (if isRfc3339(v.s) then Ok(()) else Err(TypeMismatch(attr.name)))
      else Err(TypeMismatch(attr.name))
    else Err(UnknownType(attr.name))
  }

  function ValidateFields(attrs: seq<SchemaAttribute>, subject: Value, isRfc3339: string -> bool)
    : (res: Result<(), IssueError>)
  {
    if attrs == [] then Ok(())
    else match Get(subject, attrs[0].name)
      case None => Err(MissingField(attrs[0].name))
      case Some(v) =>
        match CheckField(attrs[0], v, isRfc3339)
        case Err(e) => Err(e)
        case Ok(_) => ValidateFields(attrs[1..], subject, isRfc3339)
  }

  /** What the schema language promises of a field. */
  predicate WellTyped(attr: SchemaAttribute, f: Option<Value>, isRfc3339: string -> bool) {
    && f.Some?
    && (|| (attr.attrType == "string" && f.value.Str?)
        || (attr.attrType == "integer" && f.value.Int? && -0x8000_0000_0000_0000 <= f.value.n < 0x1_0000_0000_0000_0000)
        || (attr.attrType == "timestamp" && f.value.Int? && 0 < f.value.n < 0x8000_0000_0000_0000)
        || (attr.attrType == "timestamp" && f.value.Str? && isRfc3339(f.value.s)))
  }

  /** Validation succeeds exactly when every attribute of the schema is present and well typed. */
  lemma {:induction false} ValidateIff(attrs: seq<SchemaAttribute>, subject: Value, isRfc3339: string -> bool)
    ensures ValidateFields(attrs, subject, isRfc3339).Ok? <==>
            forall i :: 0 <= i < |attrs| ==> WellTyped(attrs[i], Get(subject, attrs[i].name), isRfc3339)
  {
    if attrs != [] {
      ValidateIff(attrs[1..], subject, isRfc3339);
      assert forall i :: 1 <= i < |attrs| ==> attrs[i] == attrs[1..][i - 1];
    }
  }

  /** A rejection names the first attribute that is missing or ill typed, and why. */
  lemma {:induction false} ValidateError(attrs: seq<SchemaAttribute>, subject: Value, isRfc3339: string -> bool)
    returns (i: nat)
    requires ValidateFields(attrs, subject, isRfc3339).Err?
    ensures i < |attrs| && !WellTyped(attrs[i], Get(subject, attrs[i].name), isRfc3339)
    ensures forall j :: 0 <= j < i ==> WellTyped(attrs[j], Get(subject, attrs[j].name), isRfc3339)
    ensures ValidateFields(attrs, subject, isRfc3339).error ==
            if Get(subject, attrs[i].name).None? then MissingField(attrs[i].name)
            else if attrs[i].attrType in {"string", "integer", "timestamp"} then TypeMismatch(attrs[i].name)
            else UnknownType(attrs[i].name)
  {
    var f := Get(subject, attrs[0].name);
    if f.None? || CheckField(attrs[0], f.value, isRfc3339).Err? {
      i := 0;
    } else {
      var k := ValidateError(attrs[1..], subject, isRfc3339);
      i := k + 1;
      assert forall j :: 1 <= j < |attrs| ==> attrs[j] == attrs[1..][j - 1];
    }
  }

  // ---- Issuing.

  function SubjectDocument(did: string, a: Attributes): (v: Value) {
    Obj(map["id" := Str(did), "userRoleId" := Str(a.userRoleId), "orgId" := Str(a.orgId),
            "clearanceLevel" := Int(a.clearanceLevel), "timestamp" := Int(a.timestamp)])
  }

  /** The unsigned credential. */
  function CredentialDocument(issuer: string, issued: string, expires: string, subject: Value): (v: Value) {
    Obj(map["@context" := Arr([Str("https://www.w3.org/2018/credentials/v1"),
                               Str("https://www.w3.org/2018/credentials/examples/v1")]),
            "type" := Arr([Str("VerifiableCredential")]),
            "issuer" := Str(issuer), "issuanceDate" := Str(issued), "expirationDate" := Str(expires),
            "credentialSubject" := subject])
  }

  function ProofOptions(issuer: string, issued: string): (v: Value) {
    Obj(map["type" := Str("DataIntegrityProof"), "cryptosuite" := Str("eddsa-jcs-2022"), "created" := Str(issued),
            "proofPurpose" := Str("assertionMethod"), "verificationMethod" := Str(issuer + "#key-1")])
  }

  function ProofDocument(issuer: string, issued: string, signature: string): (v: Value) {
    Obj(ProofOptions(issuer, issued).fields["proofValue" := Str(signature)])
  }

  /** What is signed: the credential without its proof, and the proof without its value. */
  function SigningInput(credential: Value, options: Value): (v: Value) {
    Obj(map["credential" := credential, "proof" := options])
  }

  /** The subject, field by field. */
  predicate IsSubject(v: Value, did: string, a: Attributes) {
    && v.Obj? && v.fields.Keys == {"id", "userRoleId", "orgId", "clearanceLevel", "timestamp"}
    && v.fields["id"] == Str(did) && v.fields["userRoleId"] == Str(a.userRoleId) && v.fields["orgId"] == Str(a.orgId)
    && v.fields["clearanceLevel"] == Int(a.clearanceLevel) && v.fields["timestamp"] == Int(a.timestamp)
  }

  /** The proof, field by field. */
  predicate IsProof(v: Value, issuer: string, issued: string) {
    && v.Obj?
    && v.fields.Keys == {"type", "cryptosuite", "created", "proofPurpose", "verificationMethod", "proofValue"}
    && v.fields["type"] == Str("DataIntegrityProof") && v.fields["cryptosuite"] == Str("eddsa-jcs-2022")
    && v.fields["created"] == Str(issued) && v.fields["proofPurpose"] == Str("assertionMethod")
    && v.fields["verificationMethod"] == Str(issuer + "#key-1") && v.fields["proofValue"].Str?
  }

  /** The issued document, field by field. */
  predicate IsCredential(v: Value, issuer: string, issued: string, expires: string, did: string, a: Attributes) {
    && v.Obj?
    && v.fields.Keys == {"@context", "type", "issuer", "issuanceDate", "expirationDate", "credentialSubject", "proof"}
    && v.fields["@context"] == Arr([Str("https://www.w3.org/2018/credentials/v1"),
                                    Str("https://www.w3.org/2018/credentials/examples/v1")])
    && v.fields["type"] == Arr([Str("VerifiableCredential")])
    && v.fields["issuer"] == Str(issuer)
    && v.fields["issuanceDate"] == Str(issued) && v.fields["expirationDate"] == Str(expires)
    && IsSubject(v.fields["credentialSubject"], did, a) && IsProof(v.fields["proof"], issuer, issued)
  }

  /** The proof value is the signature of everything else in the document. */
  predicate Signed(v: Value, sign: Value -> Option<string>) {
    && v.Obj? && "proof" in v.fields && v.fields["proof"].Obj?
    && var proof := v.fields["proof"].fields;
    && "proofValue" in proof && proof["proofValue"].Str?
    && sign(Obj(map["credential" := Obj(v.fields - {"proof"}), "proof" := Obj(proof - {"proofValue"})]))
       == Some(proof["proofValue"].s)
  }

  lemma SubjectFields(did: string, a: Attributes)
    ensures IsSubject(SubjectDocument(did, a), did, a)
  {
  }

  lemma ProofFields(issuer: string, issued: string, signature: string)
    ensures var proof := ProofDocument(issuer, issued, signature);
            && IsProof(proof, issuer, issued) && proof.fields["proofValue"] == Str(signature)
            && Obj(proof.fields - {"proofValue"}) == ProofOptions(issuer, issued)
  {
    var options := ProofOptions(issuer, issued).fields;
    assert "proofValue" !in options;
    assert options["proofValue" := Str(signature)] - {"proofValue"} == options;
  }

  lemma DocumentFields(issuer: string, issued: string, expires: string, subject: Value, proof: Value)
    ensures var unsigned := CredentialDocument(issuer, issued, expires, subject);
            var fields := unsigned.fields["proof" := proof];
            && fields["proof"] == proof && fields["credentialSubject"] == subject
            && Obj(fields - {"proof"}) == unsigned
  {
    var unsigned := CredentialDocument(issuer, issued, expires, subject).fields;
    assert "proof" !in unsigned;
    assert unsigned["proof" := proof] - {"proof"} == unsigned;
  }

  lemma SignedDocument(issuer: string, issued: string, expires: string, did: string, a: Attributes, signature: string,
                       sign: Value -> Option<string>)
    requires sign(SigningInput(CredentialDocument(issuer, issued, expires, SubjectDocument(did, a)),
                               ProofOptions(issuer, issued))) == Some(signature)
    ensures var unsigned := CredentialDocument(issuer, issued, expires, SubjectDocument(did, a));
            var v := Obj(unsigned.fields["proof" := ProofDocument(issuer, issued, signature)]);
            IsCredential(v, issuer, issued, expires, did, a) && Signed(v, sign) && Carries(v, did, a)
  {
    var subject, proof := SubjectDocument(did, a), ProofDocument(issuer, issued, signature);
    SubjectFields(did, a);
    ProofFields(issuer, issued, signature);
    DocumentFields(issuer, issued, expires, subject, proof);
    SignedFrom(issuer, issued, expires, did, a, subject, proof, sign);
  }

  lemma SignedFrom(issuer: string, issued: string, expires: string, did: string, a: Attributes, subject: Value,
                   proof: Value, sign: Value -> Option<string>)
    requires IsSubject(subject, did, a) && IsProof(proof, issuer, issued)
    requires Obj(proof.fields - {"proofValue"}) == ProofOptions(issuer, issued)
    requires sign(SigningInput(CredentialDocument(issuer, issued, expires, subject), ProofOptions(issuer, issued)))
          == Some(proof.fields["proofValue"].s)
    ensures var v := Obj(CredentialDocument(issuer, issued, expires, subject).fields["proof" := proof]);
            IsCredential(v, issuer, issued, expires, did, a) && Signed(v, sign)
  {
    DocumentFields(issuer, issued, expires, subject, proof);
  }

  /** What the clock, the id generator, the ledger and the signer supply to one call. */
  datatype Context = Context(
    now: int, id: string, schema: Option<seq<SchemaAttribute>>, issued: string, expires: Option<string>,
    sign: Value -> Option<string>, ledgerUp: bool, txTime: Option<int>)

  datatype Issued = Issued(id: string, schemaId: string, document: Value)

  /** Issues a credential and anchors it. On success every field of the document is the one given, the proof signs the
      rest of it, the subject fits the schema, and the ledger has recorded the new id; on failure the ledger is
      unchanged. */
  method CreateCredential(x: Context, contract: Ledger.DztaContract, schemaId: string, issuer: string, did: string,
                          a: Attributes, expiresAt: int, isRfc3339: string -> bool)
    returns (res: Result<Issued, IssueError>)
    modifies contract
    ensures res.Ok? <==>
            && !Blank(issuer) && !Blank(did) && expiresAt > x.now && x.schema.Some?
            && ValidateFields(x.schema.value, SubjectDocument(did, a), isRfc3339).Ok?
            && x.expires.Some? && x.ledgerUp
            && x.sign(SigningInput(CredentialDocument(issuer, x.issued, x.expires.value, SubjectDocument(did, a)),
                                   ProofOptions(issuer, x.issued))).Some?
    ensures res.Ok? ==>
            && res.value.id == x.id && res.value.schemaId == schemaId
            && IsCredential(res.value.document, issuer, x.issued, x.expires.value, did, a)
            && Signed(res.value.document, x.sign)
            && Carries(res.value.document, did, a)
    ensures contract.Current() ==
            if res.Ok? then
              Ledger.Apply(old(contract.Current()), Ledger.Record(x.id, schemaId, issuer, did, expiresAt, x.txTime))
            else old(contract.Current())
  {
    if Blank(issuer) || Blank(did) { return Err(BlankDid); }
    if expiresAt <= x.now { return Err(PastExpiry); }
    if x.schema.None? { return Err(NoSchema); }
    var subject := SubjectDocument(did, a);
    var valid := ValidateFields(x.schema.value, subject, isRfc3339);
    if valid.Err? { return Err(valid.error); }
    if x.expires.None? { return Err(BadExpiry); }
    var document := CredentialDocument(issuer, x.issued, x.expires.value, subject);
    var signature := x.sign(SigningInput(document, ProofOptions(issuer, x.issued)));
    if signature.None? { return Err(SigningFailed); }
    SignedDocument(issuer, x.issued, x.expires.value, did, a, signature.value, x.sign);
    document := Obj(document.fields["proof" := ProofDocument(issuer, x.issued, signature.value)]);
    if !x.ledgerUp { return Err(LedgerFailed); }
    contract.RecordCredentialMetadata(x.id, schemaId, issuer, did, expiresAt, x.txTime);
    return Ok(Issued(x.id, schemaId, document));
  }

  // ---- Storing and reading back.

  /** The wallet's reading of a stored credential. */
  function ProofableFields(credential: Value): (a: Option<Attributes>) {
    match Get(credential, "credentialSubject")
    case None => None
    case Some(s) =>
      match (AsStr(Get(s, "userRoleId")), AsStr(Get(s, "orgId")), AsU64(Get(s, "clearanceLevel")),
             AsI64(Get(s, "timestamp")))
      case (Some(role), Some(org), Some(c), Some(t)) => Some(Attributes(role, org, c, t))
      case _ => None
  }

  /** A document that carries an issued subject and none of the fields of the bare struct. */
  predicate Carries(document: Value, did: string, a: Attributes) {
    && document.Obj? && "user_clearance_level" !in document.fields
    && Get(document, "credentialSubject") == Some(SubjectDocument(did, a))
  }

  /** An issued document is read as a credential, never as the bare struct. */
  lemma IssuedReads(codec: Codec, document: Value, did: string, a: Attributes, id: string)
    requires Faithful(codec) && a.Valid() && Carries(document, did, a)
    ensures ToSubject(document) == None && ProofableFields(document) == Some(a)
    ensures ParseSubject(codec, codec.write(document), Some(id))
         == Ok(ZkpCore.Subject(a.clearanceLevel, Utf8(a.userRoleId), Utf8(did), Utf8(id)))
  {
    assert codec.parse(codec.write(document)) == Some(document);
    var s := SubjectDocument(did, a);
    assert Get(s, "id") == Some(Str(did)) && Get(s, "userRoleId") == Some(Str(a.userRoleId));
    assert Get(s, "orgId") == Some(Str(a.orgId)) && Get(s, "timestamp") == Some(Int(a.timestamp));
    assert Get(s, "clearanceLevel") == Some(Int(a.clearanceLevel));
  }

  /** Store and unseal: the sealed document decrypts to itself, the wallet reads the attributes back, and the enclave
      reads clearance, role, subject and the given id. */
  lemma StoredCredentialRoundTrip(y: Crypto, codec: Codec, document: Value, did: string, a: Attributes,
                                  passphrase: Bytes, nonce: Bytes, id: string)
    requires Ideal(y.aead) && Faithful(codec) && |nonce| == NONCE && a.Valid() && Carries(document, did, a)
    ensures
      var raw := Encrypt(y, codec.write(document), passphrase, nonce);
      && Decrypt(y, raw, passphrase) == Some(codec.write(document))
      && codec.parse(codec.write(document)) == Some(document)
      && ProofableFields(document) == Some(a)
      && Unseal(y, codec, raw, passphrase, Some(id))
         == Ok(ZkpCore.Subject(a.clearanceLevel, Utf8(a.userRoleId), Utf8(did), Utf8(id)))
  {
    EnvelopeRoundTrip(y, codec.write(document), passphrase, nonce);
    IssuedReads(codec, document, did, a, id);
    FormsAgree(y, codec, document, passphrase, nonce, Some(id));
  }

  /** An issued document is never the bare struct, so its XORed form is read only through a clear reading that happens
      to name the same subject; when the clear reading is rejected the document is lost. */
  lemma XoredCredentialLost(y: Crypto, codec: Codec, document: Value, did: string, a: Attributes, key: Bytes,
                            nonce: Bytes, id: string)
    requires Ideal(y.aead) && Faithful(codec) && |nonce| == NONCE && a.Valid() && Carries(document, did, a) && key != []
    ensures
      var x := XorCycle(codec.write(document), key);
      var clear := ParseSubject(codec, Clear(y, x, key), Some(id));
      var subject := Ok(ZkpCore.Subject(a.clearanceLevel, Utf8(a.userRoleId), Utf8(did), Utf8(id)));
      && (Unseal(y, codec, x, key, Some(id)) == subject <==> clear == subject)
      && (clear.Err? ==> Unseal(y, codec, x, key, Some(id)) == Err(Unparseable))
  {
    IssuedReads(codec, document, did, a, id);
    FormsAgree(y, codec, document, key, nonce, Some(id));
  }

  /** Issuer to circuit: the instance the prover builds from the stored record of an issued credential satisfies the
      clearance circuit exactly when the issued clearance covers the requirement by at most 255. */
  lemma IssuedCredentialProves(y: Crypto, codec: Codec, document: Value, did: string, a: Attributes, passphrase: Bytes,
                               nonce: Bytes, id: string, seed: Bytes, required: nat, r: int, n: nat)
    requires Ideal(y.aead) && Faithful(codec) && |nonce| == NONCE && a.Valid() && Carries(document, did, a)
    requires Prime(r) && ZkpCore.ScalarField(r) && RoleCircuit.FieldShape(r, n) && required < U64
    ensures
      var subject := Unseal(y, codec, Encrypt(y, codec.write(document), passphrase, nonce), passphrase, Some(id));
      && subject.Ok?
      && var x := ZkpCore.GramineInstance(ZkpCore.DeriveWitness(subject.value, seed, y.h, r), required, r);
         x.Some? && (RoleCircuit.Satisfiable(x.value, r, n) <==> required <= a.clearanceLevel <= required + 255)
  {
    StoredCredentialRoundTrip(y, codec, document, did, a, passphrase, nonce, id);
    var subject := ZkpCore.Subject(a.clearanceLevel, Utf8(a.userRoleId), Utf8(did), Utf8(id));
    ZkpCore.DerivedInstanceIff(subject, seed, required, y.h, r);
    var x := ZkpCore.GramineInstance(ZkpCore.DeriveWitness(subject, seed, y.h, r), required, r);
    RoleCircuit.SatisfiableIff(x.value, r, n);
  }
}
