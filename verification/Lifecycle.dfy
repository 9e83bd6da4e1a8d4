/** One credential through issuer, ledger, wallet, enclave and circuit. */
module Lifecycle {
  import opened Wrappers
  import opened Arithmetic
  import opened ByteStrings
  import opened Envelope
  import opened Json
  import Issuance
  import Unsealing
  import WalletStore
  import ZkpCore
  import RoleCircuit
  import Ledger

  /** Stores a document, reads it back through the wallet, and unseals the raw record with its id. */
  method StoreAndUnseal(wallet: WalletStore.Wallet, id: string, document: Value, ghost did: string,
                        ghost a: Issuance.Attributes, nonce: Bytes)
    returns (stored: Value, fields: Option<Issuance.Attributes>, subject: Unsealing.Parsed)
    requires Ideal(wallet.y.aead) && Faithful(wallet.codec) && |nonce| == NONCE
    requires wallet.passphrase.Some? && id !in wallet.credentials
    requires a.Valid() && Issuance.Carries(document, did, a)
    modifies wallet`credentials
    ensures stored == document && fields == Some(a)
    ensures subject == Ok(ZkpCore.Subject(a.clearanceLevel, Utf8(a.userRoleId), Utf8(did), Utf8(id)))
  {
    var passphrase := wallet.passphrase.value;
    Issuance.StoredCredentialRoundTrip(wallet.y, wallet.codec, document, did, a, passphrase, nonce, id);
    var inserted := wallet.StoreCredential(id, document, nonce);
    var credential := wallet.GetCredential(id);
    stored := credential.value;
    fields := Issuance.ProofableFields(stored);
    var raw := wallet.FetchRawEncryptedRecord(id);
    subject := Unsealing.Unseal(wallet.y, wallet.codec, raw.value, passphrase, Some(id));
  }

  /** Issues a credential, stores it and proves with it. Whenever issuing succeeds, the later stages see the issued
      values, and the circuit accepts exactly the requirements that the clearance covers by at most 255. */
  method IssueStoreProve(
    x: Issuance.Context, contract: Ledger.DztaContract, wallet: WalletStore.Wallet,
    schemaId: string, issuer: string, did: string, a: Issuance.Attributes, expiresAt: int, isRfc3339: string -> bool,
    nonce: Bytes, seed: Bytes, required: nat, r: int, n: nat)
    returns (issued: bool, stored: Value, fields: Option<Issuance.Attributes>, accepted: bool)
    requires Ideal(wallet.y.aead) && Faithful(wallet.codec) && |nonce| == NONCE && a.Valid()
    requires wallet.passphrase.Some? && x.id !in wallet.credentials
    requires Prime(r) && ZkpCore.ScalarField(r) && RoleCircuit.FieldShape(r, n) && required < U64
    modifies contract, wallet
    ensures issued ==> fields == Some(a)
    ensures issued ==>
            && x.expires.Some? && Issuance.IsCredential(stored, issuer, x.issued, x.expires.value, did, a)
            && Issuance.Signed(stored, x.sign)
    ensures issued ==> (accepted <==> required <= a.clearanceLevel <= required + 255)
    ensures issued ==> x.schema.Some? && forall i :: 0 <= i < |x.schema.value| ==>
              var attr := x.schema.value[i];
              Issuance.WellTyped(attr, Get(Issuance.SubjectDocument(did, a), attr.name), isRfc3339)
    ensures contract.Current() ==
            if issued then
              Ledger.Apply(old(contract.Current()), Ledger.Record(x.id, schemaId, issuer, did, expiresAt, x.txTime))
            else old(contract.Current())
  {
    stored, fields, accepted := Null, None, false;
    var res := Issuance.CreateCredential(x, contract, schemaId, issuer, did, a, expiresAt, isRfc3339);
    issued := res.Ok?;
    if issued {
      Issuance.ValidateIff(x.schema.value, Issuance.SubjectDocument(did, a), isRfc3339);
      var subject;
      stored, fields, subject := StoreAndUnseal(wallet, x.id, res.value.document, did, a, nonce);
      accepted := ZkpCore.ProverCheck(subject.value, seed, required, wallet.y.h, r, n);
    }
  }
}
