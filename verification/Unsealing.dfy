/** Reading a credential subject out of a stored record in any of its three forms. */
module Unsealing {
  import opened Wrappers
  import opened Arithmetic
  import opened ByteStrings
  import opened Envelope
  import opened Json
  import ZkpCore

  datatype UnsealError = NotJson | NoSubject | NoField(name: string) | NoCredentialId | Unparseable

  type Parsed = Result<ZkpCore.Subject, UnsealError>

  /** The struct reading of a value: an object with the four fields, or the four of them in order. */
  function ToSubject(v: Value): (s: Option<ZkpCore.Subject>) {
    var parts :=
      if v.Arr? then
        if |v.items| == 4 then (Some(v.items[0]), Some(v.items[1]), Some(v.items[2]), Some(v.items[3]))
        else (None, None, None, None)
      else (Get(v, "user_clearance_level"), Get(v, "user_role_scalar"), Get(v, "subject_did"), Get(v, "credential_id"));
    match (AsU64(parts.0), AsStr(parts.1), AsStr(parts.2), AsStr(parts.3))
    case (Some(c), Some(role), Some(did), Some(id)) => Some(ZkpCore.Subject(c, Utf8(role), Utf8(did), Utf8(id)))
    case _ => None
  }

  function ParseSubject(codec: Codec, raw: Bytes, credentialId: Option<string>): (res: Parsed) {
    match codec.parse(raw)
    case None => Err(NotJson)
    case Some(v) => if ToSubject(v).Some? then Ok(ToSubject(v).value) else FromCredential(v, credentialId)
  }

  /** The reading of a W3C credential document, which needs the id from outside. */
  function FromCredential(v: Value, credentialId: Option<string>): (res: Parsed) {
    match Get(v, "credentialSubject")
    case None => Err(NoSubject)
    case subject =>
      var did, role := AsStr(Get(subject.value, "id")), AsStr(Get(subject.value, "userRoleId"));
      var clearance := AsU64(Get(subject.value, "clearanceLevel"));
      if did.None? then Err(NoField("id"))
      else if role.None? then Err(NoField("userRoleId"))
      else if clearance.None? then Err(NoField("clearanceLevel"))
      else if credentialId.None? then Err(NoCredentialId)
      else Ok(ZkpCore.Subject(clearance.value, Utf8(role.value), Utf8(did.value), Utf8(credentialId.value)))
  }

  /** Which field of a document becomes which part of the subject, in the two object readings. */
  lemma FieldsRead(v: Value, credentialId: Option<string>, s: ZkpCore.Subject)
    requires v.Obj?
    ensures ToSubject(v) == Some(s) <==>
            && AsU64(Get(v, "user_clearance_level")) == Some(s.clearance)
            && (exists role :: AsStr(Get(v, "user_role_scalar")) == Some(role) && s.role == Utf8(role))
            && (exists did :: AsStr(Get(v, "subject_did")) == Some(did) && s.did == Utf8(did))
            && (exists id :: AsStr(Get(v, "credential_id")) == Some(id) && s.credentialId == Utf8(id))
    ensures FromCredential(v, credentialId) == Ok(s) <==>
            && Get(v, "credentialSubject").Some?
            && var subject := Get(v, "credentialSubject").value;
            && AsU64(Get(subject, "clearanceLevel")) == Some(s.clearance)
            && (exists role :: AsStr(Get(subject, "userRoleId")) == Some(role) && s.role == Utf8(role))
            && (exists did :: AsStr(Get(subject, "id")) == Some(did) && s.did == Utf8(did))
            && credentialId.Some? && s.credentialId == Utf8(credentialId.value)
  {
  }

  /** The struct may also be written as its four values in order. */
  lemma TupleReads(c: nat, role: string, did: string, id: string)
    requires c < U64
    ensures ToSubject(Arr([Int(c), Str(role), Str(did), Str(id)]))
         == Some(ZkpCore.Subject(c, Utf8(role), Utf8(did), Utf8(id)))
  {
  }

  /** The decrypted bytes, or the bytes as they are when they do not decrypt. */
  function Clear(y: Crypto, raw: Bytes, key: Bytes): (p: Bytes) {
    match Decrypt(y, raw, key) case Some(p) => p case None => raw
  }

  /** Envelope first, then the bytes as they are; if neither parses, the bytes XORed with the key. */
  function Unseal(y: Crypto, codec: Codec, raw: Bytes, key: Bytes, credentialId: Option<string>): (res: Parsed) {
    match ParseSubject(codec, Clear(y, raw, key), credentialId)
    case Ok(s) => Ok(s)
    case Err(_) =>
      match codec.parse(XorCycle(raw, key))
      case None => Err(Unparseable)
      case Some(v) => match ToSubject(v) case Some(s) => Ok(s) case None => Err(Unparseable)
  }

  /** One document, three forms: sealed and plain always give one subject. The XORed form (under a nonempty key) gives
      it exactly when the clear reading of the bytes, decrypted or as they are, names the same subject, or is rejected
      and the document is the bare struct: the last reading knows no other, and any other document is then lost. */
  lemma FormsAgree(y: Crypto, codec: Codec, v: Value, key: Bytes, nonce: Bytes, credentialId: Option<string>)
    requires Ideal(y.aead) && Faithful(codec) && |nonce| == NONCE
    requires ParseSubject(codec, codec.write(v), credentialId).Ok?
    ensures Unseal(y, codec, Encrypt(y, codec.write(v), key, nonce), key, credentialId)
         == Unseal(y, codec, codec.write(v), key, credentialId)
         == ParseSubject(codec, codec.write(v), credentialId)
    ensures
      var x := XorCycle(codec.write(v), key);
      var clear := ParseSubject(codec, Clear(y, x, key), credentialId);
      var p := ParseSubject(codec, codec.write(v), credentialId);
      key != [] ==>
      && (Unseal(y, codec, x, key, credentialId) == p <==> clear == p || (clear.Err? && ToSubject(v).Some?))
      && (clear.Err? && ToSubject(v).None? ==> Unseal(y, codec, x, key, credentialId) == Err(Unparseable))
  {
    EnvelopeRoundTrip(y, codec.write(v), key, nonce);
    assert codec.parse(codec.write(v)) == Some(v);
    assert !(MAGIC <= codec.write(v));
    if key != [] {
      XorTwice(codec.write(v), key);
    }
  }
}
