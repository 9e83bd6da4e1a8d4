/** From a credential subject to circuit values: nullifier, commitment and the provers' field elements. */
module ZkpCore {
  import opened Arithmetic
  import opened ByteStrings
  import opened Wrappers
  import RoleCircuit

  /** The scalar field order of BLS12-381. */
  const BLS12_381_ORDER: int :=
    52435875175126190479447740508185965837690552500527637822603658699938581184513

  const NULLIFIER_TAG: Bytes :=  // "dZTA_NULLIFIER_DOMAIN_v1"
    [100, 90, 84, 65, 95, 78, 85, 76, 76, 73, 70, 73, 69, 82, 95, 68, 79, 77, 65, 73, 78, 95, 118, 49]

  datatype Subject = Subject(clearance: nat, role: Bytes, did: Bytes, credentialId: Bytes) {
    predicate Valid() { clearance < U64 }
  }

  datatype Witness = Witness(clearance: nat, roleScalar: Bytes, nullifier: Bytes, commitment: Bytes)

  /** A field order that keeps 64-bit levels and their differences apart and fits 32 bytes. */
  predicate ScalarField(r: int) { U64 + 255 < r <= Pow256(32) }

  function FromLeBytes(bs: Bytes, r: int): (x: int)
    requires r > 0
    ensures 0 <= x < r
  {
    LeValue(bs) % r
  }

  function StringToScalar(s: Bytes, h: Hash, r: int): (t: Bytes)
    requires r > 0
  {
    if s == [] then [ZERO]
    else if ParseDecimal(s).Some? then s
    else PrintDecimal(BeValue(h(s)) % r)
  }

  function NullifierPreimage(did: Bytes, id: Bytes, seed: Bytes): (m: Bytes) {
    NULLIFIER_TAG + did + id + seed
  }

  /** The message that a nullifier hashes: a 24-byte domain tag, then did, id and seed. */
  predicate NullifierMessage(m: Bytes, did: Bytes, id: Bytes, seed: Bytes) {
    && |m| == 24 + |did| + |id| + |seed|
    && Spells(m[..24], "dZTA_NULLIFIER_DOMAIN_v1")
    && m[24..24 + |did|] == did
    && m[24 + |did|..24 + |did| + |id|] == id
    && m[24 + |did| + |id|..] == seed
  }

  lemma TagText(bs: Bytes)
    ensures Spells(bs, "dZTA_NULLIFIER_DOMAIN_v1") <==> bs == NULLIFIER_TAG
  {
    assert Spells(NULLIFIER_TAG, "dZTA_NULLIFIER_DOMAIN_v1");
  }

  /** The pre-image is that message and no other. */
  lemma PreimageLayout(did: Bytes, id: Bytes, seed: Bytes, m: Bytes)
    ensures NullifierMessage(m, did, id, seed) <==> m == NullifierPreimage(did, id, seed)
  {
    Slices(NULLIFIER_TAG, did, id, seed, m);
    if |m| >= 24 { TagText(m[..24]); }
  }

  method DeriveNullifier(did: Bytes, id: Bytes, seed: Bytes, h: Hash) returns (nullifier: Bytes)
    ensures nullifier == h(NullifierPreimage(did, id, seed))
    ensures exists m :: NullifierMessage(m, did, id, seed) && nullifier == h(m)
  {
    PreimageLayout(did, id, seed, NullifierPreimage(did, id, seed));
    var hasher := new Hasher();
    hasher.Update(NULLIFIER_TAG);
    hasher.Update(did);
    hasher.Update(id);
    hasher.Update(seed);
    assert hasher.absorbed == NullifierPreimage(did, id, seed);
    nullifier := h(hasher.absorbed);
  }

  /** The role's field element; an unparseable scalar would silently become zero. */
  function RoleElement(role: Bytes, h: Hash, r: int): (x: int)
    requires r > 0
    ensures 0 <= x < r
  {
    match ParseDecimal(StringToScalar(role, h, r))
    case Some(v) => FromLeBytes(ToLe(v), r)
    case None => FromLeBytes(ToLe(0), r)
  }

  function Commit(nullifier: int, clearance: int, role: int, r: int): (x: int)
    requires r > 0
    ensures 0 <= x < r
  {
    (nullifier * clearance % r * role) % r
  }

  function ComputeCommitment(nullifier: Bytes, clearance: nat, role: Bytes, h: Hash, r: int): (bs: Bytes)
    requires r > 0
    ensures |bs| == 32
  {
    ToLeFixed(Commit(FromLeBytes(nullifier, r), clearance % r, RoleElement(role, h, r), r), 32)
  }

  function DeriveWitness(s: Subject, seed: Bytes, h: Hash, r: int): (w: Witness)
    requires r > 0
  {
    var nullifier := h(NullifierPreimage(s.did, s.credentialId, seed));
    Witness(s.clearance, StringToScalar(s.role, h, r), nullifier,
            ComputeCommitment(nullifier, s.clearance, s.role, h, r))
  }

  /** The direct route to field elements. */
  function ProcessUnsealedWitness(s: Subject, seed: Bytes, required: nat, h: Hash, r: int)
    : (x: Option<RoleCircuit.Instance>)
    requires r > 0
  {
    match ParseDecimal(StringToScalar(s.role, h, r))
    case None => None
    case Some(v) =>
      var nullifier := FromLeBytes(h(NullifierPreimage(s.did, s.credentialId, seed)), r);
      var role := FromLeBytes(ToLe(v), r);
      Some(RoleCircuit.Instance(s.clearance % r, role, nullifier, required % r,
                                Commit(nullifier, s.clearance % r, role, r)))
  }

  // ---- The three provers' mappings of their inputs to an instance.

  function GramineInstance(w: Witness, required: nat, r: int): (x: Option<RoleCircuit.Instance>)
    requires r > 0
  {
    match ParseDecimal(w.roleScalar)
    case None => None
    case Some(v) =>
      Some(RoleCircuit.Instance(w.clearance % r, FromLeBytes(ToLe(v), r), FromLeBytes(w.nullifier, r),
                                required % r, FromLeBytes(w.commitment, r)))
  }

  /** Levels are bytes, and the nullifier must be 32 bytes because it also seeds the generator. */
  function ProtectedInstance(clearance: Byte, role: Bytes, nullifier: Bytes, required: Byte, commitment: Bytes, r: int)
    : (x: Option<RoleCircuit.Instance>)
    requires r > 0
  {
    match ParseDecimal(role)
    case None => None
    case Some(v) =>
      if |nullifier| != 32 then None else
      Some(RoleCircuit.Instance(clearance % r, FromLeBytes(ToLe(v), r), FromLeBytes(nullifier, r),
                                required % r, FromLeBytes(commitment, r)))
  }

  function TeeInstance(clearance: nat, role: Bytes, nullifier: Bytes, required: nat, commitment: Bytes, r: int)
    : (x: RoleCircuit.Instance)
    requires r > 0
  {
    RoleCircuit.Instance(clearance % r, FromLeBytes(role, r), FromLeBytes(nullifier, r),
                         required % r, FromLeBytes(commitment, r))
  }

  // ---- Properties.

  lemma OrderIsScalarField()
    ensures ScalarField(BLS12_381_ORDER)
    ensures Pow2(254) < BLS12_381_ORDER < Pow2(255)
  {
    assert Pow256(8) == U64;
    assert Pow256(16) == U64 * U64;
    assert Pow256(24) == U64 * U64 * U64;
    assert Pow256(32) == U64 * U64 * U64 * U64;
    Pow2Is64();
    Pow2Sum(64, 64);
    Pow2Sum(128, 64);
    Pow2Sum(192, 62);
    assert Pow2(64) == 4 * Pow2(62);
  }

  /** Every scalar string parses, so the zero default of the commitment is never taken. */
  lemma ScalarParses(s: Bytes, h: Hash, r: int)
    requires r > 0
    ensures ParseDecimal(StringToScalar(s, h, r)).Some?
    ensures StringToScalar(StringToScalar(s, h, r), h, r) == StringToScalar(s, h, r)
  {
    if s == [] {
      DecimalRoundTrip(0);
      assert PrintDecimal(0) == [ZERO];
    } else if ParseDecimal(s).None? {
      DecimalRoundTrip(BeValue(h(s)) % r);
    }
  }

  /** What a role means in the field: nothing is 0, decimal text its number, any other text its digest read as a
      big-endian number, each modulo r; the scalar text of the last kind is the shortest decimal form. */
  lemma RoleMeans(role: Bytes, h: Hash, r: int)
    requires r > 0
    ensures role == [] ==> RoleElement(role, h, r) == 0
    ensures ParseDecimal(role).Some? ==>
              StringToScalar(role, h, r) == role && RoleElement(role, h, r) == ParseDecimal(role).value % r
    ensures role != [] && ParseDecimal(role).None? ==>
              var scalar, v := StringToScalar(role, h, r), RoleElement(role, h, r);
              && ParseDecimal(scalar) == Some(v) && (v - BeValue(h(role))) % r == 0
              && (forall i :: 0 <= i < |scalar| ==> IsDigit(scalar[i])) && (v > 0 ==> scalar[0] != ZERO)
  {
    ScalarParses(role, h, r);
    LeRoundTrip(ParseDecimal(StringToScalar(role, h, r)).value);
    if role == [] {
      DecimalRoundTrip(0);
      assert PrintDecimal(0) == [ZERO];
    } else if ParseDecimal(role).None? {
      var d := BeValue(h(role));
      DecimalRoundTrip(d % r);
      RemainderUnique(d % r, r, 0, d % r);
      Congruent(d % r, d, r);
    }
  }

  /** Two roles that are not decimal text are one field element exactly when their digests agree modulo r. */
  lemma HashedRolesIff(role1: Bytes, role2: Bytes, h: Hash, r: int)
    requires r > 0 && role1 != [] && role2 != [] && ParseDecimal(role1).None? && ParseDecimal(role2).None?
    ensures RoleElement(role1, h, r) == RoleElement(role2, h, r)
       <==> BeValue(h(role1)) % r == BeValue(h(role2)) % r
  {
    RoleMeans(role1, h, r);
    RoleMeans(role2, h, r);
    Congruent(RoleElement(role1, h, r), BeValue(h(role1)), r);
    Congruent(RoleElement(role2, h, r), BeValue(h(role2)), r);
    RemainderUnique(RoleElement(role1, h, r), r, 0, RoleElement(role1, h, r));
    RemainderUnique(RoleElement(role2, h, r), r, 0, RoleElement(role2, h, r));
  }

  /** Commitment bytes written and read back, with the role printed and parsed again, give the same field
      elements as the direct route. */
  lemma RoutesAgree(s: Subject, seed: Bytes, required: nat, h: Hash, r: int)
    requires ScalarField(r)
    ensures GramineInstance(DeriveWitness(s, seed, h, r), required, r).Some?
    ensures GramineInstance(DeriveWitness(s, seed, h, r), required, r)
         == ProcessUnsealedWitness(s, seed, required, h, r)
  {
    ScalarParses(s.role, h, r);
    var w := DeriveWitness(s, seed, h, r);
    var c := Commit(FromLeBytes(w.nullifier, r), s.clearance % r, RoleElement(s.role, h, r), r);
    LeFixedRoundTrip(c, 32);
    RemainderUnique(c, r, 0, c);
  }

  lemma CommitIsProduct(nullifier: int, clearance: int, role: int, r: int)
    requires r > 0
    ensures Commit(nullifier, clearance, role, r) == (nullifier * clearance * role) % r
  {
    ModProduct(nullifier * clearance, role, r);
  }

  /** The derived instance always meets the commitment constraint, so it is in the circuit's relation
      exactly when the clearance covers the requirement by at most 255. */
  lemma DerivedInstanceIff(s: Subject, seed: Bytes, required: nat, h: Hash, r: int)
    requires ScalarField(r) && s.Valid() && required < U64
    ensures
      var x := GramineInstance(DeriveWitness(s, seed, h, r), required, r);
      && x.Some? && x.value.Canonical(r)
      && x.value.clearance == s.clearance && x.value.required == required
      && x.value.role == RoleElement(s.role, h, r)
      && x.value.nullifier == LeValue(h(NullifierPreimage(s.did, s.credentialId, seed))) % r
      && x.value.commitment == (x.value.nullifier * x.value.clearance * x.value.role) % r
      && (RoleCircuit.Relation(x.value, r) <==> required <= s.clearance <= required + 255)
  {
    RoutesAgree(s, seed, required, h, r);
    var x := ProcessUnsealedWitness(s, seed, required, h, r).value;
    CommitIsProduct(x.nullifier, x.clearance, x.role, r);
    Pow2Is64();
    RemainderUnique(s.clearance, r, 0, s.clearance);
    RemainderUnique(required, r, 0, required);
    RoleCircuit.RangeOnU64(s.clearance, required, r);
  }

  /** The prover's own check, from unsealed subject to constraint satisfaction. */
  method ProverCheck(s: Subject, seed: Bytes, required: nat, h: Hash, r: int, n: nat) returns (ok: bool)
    requires Prime(r) && ScalarField(r) && RoleCircuit.FieldShape(r, n) && s.Valid() && required < U64
    ensures ok <==> required <= s.clearance <= required + 255
  {
    var nullifier := DeriveNullifier(s.did, s.credentialId, seed, h);
    var w := Witness(s.clearance, StringToScalar(s.role, h, r), nullifier,
                     ComputeCommitment(nullifier, s.clearance, s.role, h, r));
    DerivedInstanceIff(s, seed, required, h, r);
    var x := GramineInstance(w, required, r);
    ok := RoleCircuit.CheckInstance(x.value, r, n);
  }

  /** The three provers build one instance from encodings of the same values: any decimal text of the role on
      two of them, any little-endian bytes of it on the third. Two of them take every 64-bit level and nullifiers of
      any length; the third joins them for levels of one byte exactly when the nullifier has 32 bytes. */
  lemma ProversAgree(clearance: nat, roleText: Bytes, roleBytes: Bytes, nullifier: Bytes, required: nat,
                     commitment: Bytes, r: int)
    requires r > 0 && clearance < U64 && required < U64
    requires ParseDecimal(roleText) == Some(LeValue(roleBytes))
    ensures GramineInstance(Witness(clearance, roleText, nullifier, commitment), required, r)
         == Some(TeeInstance(clearance, roleBytes, nullifier, required, commitment, r))
    ensures clearance < 256 && required < 256 ==>
            var x := Some(TeeInstance(clearance, roleBytes, nullifier, required, commitment, r));
            ProtectedInstance(clearance, roleText, nullifier, required, commitment, r) == x <==> |nullifier| == 32
  {
    LeRoundTrip(LeValue(roleBytes));
  }

  /** Multiplication by a nonzero residue can be undone. */
  lemma CancelFactor(a: int, b: int, k: int, r: int)
    requires Prime(r)
    ensures (a * k) % r == (b * k) % r <==> a % r == b % r || k % r == 0
  {
    Congruent(a * k, b * k, r);
    Congruent(a, b, r);
    assert a * k - b * k == (a - b) * k;
    ProductZero(a - b, k, r);
  }

  /** Two commitments of one clearance and role agree exactly when the nullifiers agree modulo r, or one of
      the other factors vanishes. */
  lemma CommitmentInNullifier(n1: Bytes, n2: Bytes, clearance: nat, role: Bytes, h: Hash, r: int)
    requires Prime(r) && ScalarField(r) && clearance < U64
    ensures ComputeCommitment(n1, clearance, role, h, r) == ComputeCommitment(n2, clearance, role, h, r)
       <==> FromLeBytes(n1, r) == FromLeBytes(n2, r) || clearance == 0 || RoleElement(role, h, r) == 0
  {
    var x, y, k := FromLeBytes(n1, r), FromLeBytes(n2, r), RoleElement(role, h, r);
    RemainderUnique(clearance, r, 0, clearance);
    CommitmentBytes(n1, clearance, role, h, r);
    CommitmentBytes(n2, clearance, role, h, r);
    CancelFactor(x * clearance % r, y * clearance % r, k, r);
    CancelFactor(x, y, clearance, r);
    RemainderUnique(k, r, 0, k);
    RemainderUnique(x, r, 0, x);
    RemainderUnique(y, r, 0, y);
    RemainderUnique(x * clearance % r, r, 0, x * clearance % r);
    RemainderUnique(y * clearance % r, r, 0, y * clearance % r);
  }

  /** The empty role is the scalar 0, and then all nullifiers share one commitment. */
  lemma EmptyRole(n1: Bytes, n2: Bytes, clearance: nat, h: Hash, r: int)
    requires r > 0
    ensures RoleElement([], h, r) == 0
    ensures ComputeCommitment(n1, clearance, [], h, r) == ComputeCommitment(n2, clearance, [], h, r)
  {
    DecimalRoundTrip(0);
    assert PrintDecimal(0) == [ZERO];
    LeRoundTrip(0);
  }

  /** Any two residues belong to 32-byte nullifiers that share a commitment under the empty role. */
  lemma EmptyRoleCollides(v1: nat, v2: nat, clearance: nat, h: Hash, r: int) returns (n1: Bytes, n2: Bytes)
    requires ScalarField(r) && v1 < r && v2 < r
    ensures |n1| == |n2| == 32 && FromLeBytes(n1, r) == v1 && FromLeBytes(n2, r) == v2
    ensures ComputeCommitment(n1, clearance, [], h, r) == ComputeCommitment(n2, clearance, [], h, r)
  {
    n1, n2 := ToLeFixed(v1, 32), ToLeFixed(v2, 32);
    LeFixedRoundTrip(v1, 32);
    LeFixedRoundTrip(v2, 32);
    RemainderUnique(v1, r, 0, v1);
    RemainderUnique(v2, r, 0, v2);
    EmptyRole(n1, n2, clearance, h, r);
  }

  lemma CommitmentBytes(nullifier: Bytes, clearance: nat, role: Bytes, h: Hash, r: int)
    requires ScalarField(r)
    ensures LeValue(ComputeCommitment(nullifier, clearance, role, h, r))
         == Commit(FromLeBytes(nullifier, r), clearance % r, RoleElement(role, h, r), r)
  {
    LeFixedRoundTrip(Commit(FromLeBytes(nullifier, r), clearance % r, RoleElement(role, h, r), r), 32);
  }

  /** The same for two clearances of one nullifier and role. */
  lemma CommitmentInClearance(nullifier: Bytes, c1: nat, c2: nat, role: Bytes, h: Hash, r: int)
    requires Prime(r) && ScalarField(r) && c1 < U64 && c2 < U64
    ensures ComputeCommitment(nullifier, c1, role, h, r) == ComputeCommitment(nullifier, c2, role, h, r)
       <==> c1 == c2 || FromLeBytes(nullifier, r) == 0 || RoleElement(role, h, r) == 0
  {
    var x, k := FromLeBytes(nullifier, r), RoleElement(role, h, r);
    RemainderUnique(c1, r, 0, c1);
    RemainderUnique(c2, r, 0, c2);
    RemainderUnique(k, r, 0, k);
    RemainderUnique(x, r, 0, x);
    CommitmentBytes(nullifier, c1, role, h, r);
    CommitmentBytes(nullifier, c2, role, h, r);
    CancelFactor(x * c1 % r, x * c2 % r, k, r);
    CancelFactor(c1, c2, x, r);
    RemainderUnique(x * c1 % r, r, 0, x * c1 % r);
    RemainderUnique(x * c2 % r, r, 0, x * c2 % r);
  }

  /** And for two roles of one nullifier and clearance. */
  lemma CommitmentInRole(nullifier: Bytes, clearance: nat, role1: Bytes, role2: Bytes, h: Hash, r: int)
    requires Prime(r) && ScalarField(r) && clearance < U64
    ensures ComputeCommitment(nullifier, clearance, role1, h, r) == ComputeCommitment(nullifier, clearance, role2, h, r)
       <==> RoleElement(role1, h, r) == RoleElement(role2, h, r) || FromLeBytes(nullifier, r) == 0 || clearance == 0
  {
    var x, k1, k2 := FromLeBytes(nullifier, r), RoleElement(role1, h, r), RoleElement(role2, h, r);
    RemainderUnique(clearance, r, 0, clearance);
    RemainderUnique(x, r, 0, x);
    RemainderUnique(k1, r, 0, k1);
    RemainderUnique(k2, r, 0, k2);
    CommitmentBytes(nullifier, clearance, role1, h, r);
    CommitmentBytes(nullifier, clearance, role2, h, r);
    var q := x * clearance % r;
    RemainderUnique(q, r, 0, q);
    CancelFactor(k1, k2, q, r);
    ProductZero(x, clearance, r);
  }

  /** Nullifier pre-images agree exactly when the seeds agree and the did-id concatenations do, which for ids of
      one length means that all three parts agree. */
  lemma PreimagesIff(did1: Bytes, id1: Bytes, seed1: Bytes, did2: Bytes, id2: Bytes, seed2: Bytes)
    requires |seed1| == |seed2| == 32
    ensures NullifierPreimage(did1, id1, seed1) == NullifierPreimage(did2, id2, seed2)
       <==> did1 + id1 == did2 + id2 && seed1 == seed2
    ensures |id1| == |id2| ==> (did1 + id1 == did2 + id2 <==> did1 == did2 && id1 == id2)
  {
    var m1, m2 := NullifierPreimage(did1, id1, seed1), NullifierPreimage(did2, id2, seed2);
    var t := |NULLIFIER_TAG|;
    assert m1[t..|m1| - 32] == did1 + id1 && m1[|m1| - 32..] == seed1;
    assert m2[t..|m2| - 32] == did2 + id2 && m2[|m2| - 32..] == seed2;
    assert m1 == NULLIFIER_TAG + (did1 + id1) + seed1 && m2 == NULLIFIER_TAG + (did2 + id2) + seed2;
    if |id1| == |id2| && did1 + id1 == did2 + id2 {
      assert |did1| == |did2|;
      assert (did1 + id1)[..|did1|] == did1 && (did2 + id2)[..|did2|] == did2;
      assert (did1 + id1)[|did1|..] == id1 && (did2 + id2)[|did2|..] == id2;
    }
  }

  /** Distinct (did, id, seed) triples with ids of one length have distinct nullifiers, unless their two
      pre-images collide. */
  lemma NullifiersDistinct(did1: Bytes, id1: Bytes, seed1: Bytes, did2: Bytes, id2: Bytes, seed2: Bytes, h: Hash)
    requires |seed1| == |seed2| == 32 && |id1| == |id2|
    requires CollisionFree(h, {NullifierPreimage(did1, id1, seed1), NullifierPreimage(did2, id2, seed2)})
    ensures h(NullifierPreimage(did1, id1, seed1)) == h(NullifierPreimage(did2, id2, seed2))
       <==> did1 == did2 && id1 == id2 && seed1 == seed2
  {
    PreimagesIff(did1, id1, seed1, did2, id2, seed2);
  }

  /** Without the length condition a byte can move from the id to the did and leave the nullifier as it was. */
  lemma NullifierShift(did: Bytes, b: Byte, id: Bytes, seed: Bytes)
    ensures NullifierPreimage(did + [b], id, seed) == NullifierPreimage(did, [b] + id, seed)
    ensures did + [b] != did
  {
    assert did + [b] + id == did + ([b] + id);
    assert NULLIFIER_TAG + (did + [b]) + id + seed == NULLIFIER_TAG + (did + [b] + id) + seed;
    assert NULLIFIER_TAG + did + ([b] + id) + seed == NULLIFIER_TAG + (did + ([b] + id)) + seed;
  }
}
