/** Rank-1 constraint systems over the integers modulo r. */
module R1cs {
  datatype Variable = One | Input(i: nat) | Witness(w: nat)

  datatype Term = Term(coeff: int, v: Variable)

  type LinComb = seq<Term>

  /** The constraint <a,z> * <b,z> = <c,z>. */
  datatype Constraint = Constraint(a: LinComb, b: LinComb, c: LinComb)

  datatype Assignment = Assignment(inputs: seq<int>, witnesses: seq<int>) {
    function Value(v: Variable): (x: int) {
      match v
      case One => 1
      case Input(i) => if i < |inputs| then inputs[i] else 0
      case Witness(i) => if i < |witnesses| then witnesses[i] else 0
    }

    function Eval(lc: LinComb): (x: int) {
      if lc == [] then 0 else Eval(lc[..|lc| - 1]) + lc[|lc| - 1].coeff * Value(lc[|lc| - 1].v)
    }

    predicate Canonical(r: int) {
      InRange(inputs, r) && InRange(witnesses, r)
    }
  }

  predicate InRange(s: seq<int>, r: int) {
    forall i :: 0 <= i < |s| ==> 0 <= s[i] < r
  }

  predicate Holds(c: Constraint, z: Assignment, r: int)
    requires r > 0
  {
    (z.Eval(c.a) * z.Eval(c.b) - z.Eval(c.c)) % r == 0
  }

  predicate AllHold(cs: seq<Constraint>, z: Assignment, r: int)
    requires r > 0
  {
    forall i :: 0 <= i < |cs| ==> Holds(cs[i], z, r)
  }

  lemma AllHoldConcat(a: seq<Constraint>, b: seq<Constraint>, z: Assignment, r: int)
    requires r > 0
    ensures AllHold(a + b, z, r) <==> AllHold(a, z, r) && AllHold(b, z, r)
  {
    if AllHold(a + b, z, r) {
      assert forall i :: 0 <= i < |a| ==> a[i] == (a + b)[i];
      assert forall i :: 0 <= i < |b| ==> b[i] == (a + b)[|a| + i];
    }
  }

  lemma AllHoldOne(c: Constraint, z: Assignment, r: int)
    requires r > 0
    ensures AllHold([c], z, r) <==> Holds(c, z, r)
  {
    assert [c][0] == c;
  }

  function Single(v: Variable): (lc: LinComb) { [Term(1, v)] }

  lemma EvalSingle(z: Assignment, v: Variable)
    ensures z.Eval(Single(v)) == z.Value(v)
  {
    assert Single(v)[..0] == [];
  }

  /** A new constraint system holds the values allocated so far and the constraints enforced so far. */
  class ConstraintSystem {
    const modulus: int
    var inputs: seq<int>
    var witnesses: seq<int>
    var constraints: seq<Constraint>

    constructor (r: int)
      ensures modulus == r && inputs == [] && witnesses == [] && constraints == []
    {
      modulus, inputs, witnesses, constraints := r, [], [], [];
    }

    function Assigned(): (z: Assignment)
      reads this
    {
      Assignment(inputs, witnesses)
    }

    method NewInput(x: int) returns (v: Variable)
      modifies this`inputs
      ensures v == Input(|old(inputs)|) && inputs == old(inputs) + [x]
    {
      v := Input(|inputs|);
      inputs := inputs + [x];
    }

    method NewWitness(x: int) returns (v: Variable)
      modifies this`witnesses
      ensures v == Witness(|old(witnesses)|) && witnesses == old(witnesses) + [x]
    {
      v := Witness(|witnesses|);
      witnesses := witnesses + [x];
    }

    method Enforce(c: Constraint)
      modifies this`constraints
      ensures constraints == old(constraints) + [c]
    {
      constraints := constraints + [c];
    }

    method IsSatisfied() returns (ok: bool)
      requires modulus > 0
      ensures ok == AllHold(constraints, Assigned(), modulus)
    {
      for i := 0 to |constraints|
        invariant forall k :: 0 <= k < i ==> Holds(constraints[k], Assigned(), modulus)
      {
        if !Holds(constraints[i], Assigned(), modulus) {
          return false;
        }
      }
      return true;
    }
  }
}

/** The clearance circuit, the relation it is meant to decide, and the proof that it decides it. */
module RoleCircuit {
  import opened Arithmetic
  import opened R1cs
  import opened Wrappers

  /** The five values of an instance: three private ones, then the two public inputs. */
  datatype Instance = Instance(clearance: int, role: int, nullifier: int, required: int, commitment: int) {
    predicate Canonical(r: int) {
      && 0 <= clearance < r && 0 <= role < r && 0 <= nullifier < r
      && 0 <= required < r && 0 <= commitment < r
    }
  }

  datatype Circuit = Circuit(
    userClearanceLevel: Option<int>,
    userRoleScalar: Option<int>,
    secretNullifier: Option<int>,
    requiredClearanceLevel: Option<int>,
    publicCommitment: Option<int>)
  {
    predicate Assigned() {
      && userClearanceLevel.Some? && userRoleScalar.Some? && secretNullifier.Some?
      && requiredClearanceLevel.Some? && publicCommitment.Some?
    }

    function Values(): (x: Instance)
      requires Assigned()
    {
      Instance(userClearanceLevel.value, userRoleScalar.value, secretNullifier.value,
               requiredClearanceLevel.value, publicCommitment.value)
    }
  }

  datatype Synthesis = Synthesized | AssignmentMissing

  /** What a proof is meant to say about its two public inputs. */
  predicate Relation(x: Instance, r: int)
    requires r > 0
  {
    (x.clearance - x.required) % r <= 255
    && x.commitment == (x.nullifier * x.clearance * x.role) % r
  }

  /** n is the bit length of the modulus, and the low byte exists. */
  predicate FieldShape(r: int, n: nat) {
    8 <= n && 1 < r <= Pow2(n)
  }

  // ---- Layout: witnesses are clearance, role, nullifier, the n bits, the run flags, two products.

  const FIRST_BIT: nat := 3

  function Difference(): (lc: LinComb) { [Term(1, Witness(0)), Term(-1, Input(0))] }

  function BitConstraint(i: nat): (c: Constraint) {
    Constraint([Term(1, One), Term(-1, Witness(i))], Single(Witness(i)), [])
  }

  function BitConstraints(n: nat): (cs: seq<Constraint>) {
    seq(n, i requires 0 <= i => BitConstraint(FIRST_BIT + i))
  }

  function Pack(m: nat): (lc: LinComb) {
    seq(m, i requires 0 <= i => Term(Pow2(i), Witness(FIRST_BIT + i)))
  }

  function Minus(lc: LinComb): (neg: LinComb) {
    seq(|lc|, i requires 0 <= i < |lc| => Term(-lc[i].coeff, lc[i].v))
  }

  /** lc1 = lc2, enforced as (lc1 - lc2) * 1 = 0. */
  function Equal(lc1: LinComb, lc2: LinComb): (c: Constraint) {
    Constraint(lc1 + Minus(lc2), Single(One), [])
  }

  /** Bits k-1..0 compared from the top against those of a constant: `last` is the flag "equal so far". */
  function InField(bound: seq<int>, k: nat, last: Variable, next: nat): (cs: seq<Constraint>)
    requires k <= |bound|
  {
    if k == 0 then []
    else if bound[k - 1] == 1 then
      [Constraint(Single(last), Single(Witness(FIRST_BIT + k - 1)), Single(Witness(next)))]
      + InField(bound, k - 1, Witness(next), next + 1)
    else
      [Constraint(Single(last), Single(Witness(FIRST_BIT + k - 1)), [])]
      + InField(bound, k - 1, last, next)
  }

  function And(a: int, b: int): (c: int) { if a == 1 && b == 1 then 1 else 0 }

  /** The run flags an honest prover assigns. */
  function Flags(bits: seq<int>, bound: seq<int>, k: nat, last: int): (fs: seq<int>)
    requires k <= |bits| == |bound|
    ensures |fs| == Ones(bound, k)
  {
    if k == 0 then []
    else if bound[k - 1] == 1 then [And(last, bits[k - 1])] + Flags(bits, bound, k - 1, And(last, bits[k - 1]))
    else Flags(bits, bound, k - 1, last)
  }

  function Ones(bound: seq<int>, k: nat): (m: nat)
    requires k <= |bound|
  {
    if k == 0 then 0 else Ones(bound, k - 1) + if bound[k - 1] == 1 then 1 else 0
  }

  function Bound(r: int, n: nat): (s: seq<int>)
    requires r > 0
    ensures |s| == n && Bits(s)
  {
    ToBits(r - 1, n)
  }

  function FirstFlag(n: nat): (w: nat) { FIRST_BIT + n }

  function FirstProduct(r: int, n: nat): (w: nat)
    requires r > 0
  {
    FirstFlag(n) + Ones(Bound(r, n), n)
  }

  function Products(p: nat): (cs: seq<Constraint>) {
    [Constraint(Single(Witness(2)), Single(Witness(0)), Single(Witness(p))),
     Constraint(Single(Witness(p)), Single(Witness(1)), Single(Witness(p + 1))),
     Equal(Single(Witness(p + 1)), Single(Input(1)))]
  }

  function RangeConstraints(r: int, n: nat): (cs: seq<Constraint>)
    requires FieldShape(r, n)
  {
    BitConstraints(n) + [Equal(Pack(n), Difference())]
    + InField(Bound(r, n), n, One, FirstFlag(n))
    + [Equal(Difference(), Pack(8))]
  }

  function Compile(r: int, n: nat): (cs: seq<Constraint>)
    requires FieldShape(r, n)
  {
    RangeConstraints(r, n) + Products(FirstProduct(r, n))
  }

  function DifferenceBits(x: Instance, r: int, n: nat): (s: seq<int>)
    requires r > 0
    ensures |s| == n && Bits(s)
  {
    ToBits((x.clearance - x.required) % r, n)
  }

  function ProductValues(x: Instance, r: int): (s: seq<int>)
    requires r > 0
    ensures |s| == 2 && InRange(s, r)
  {
    var p := (x.nullifier * x.clearance) % r;
    [p, (p * x.role) % r]
  }

  /** The assignment `generate_constraints` computes from the five values. */
  function Honest(x: Instance, r: int, n: nat): (z: Assignment)
    requires FieldShape(r, n)
  {
    var bits := DifferenceBits(x, r, n);
    Assignment(
      [x.required, x.commitment],
      [x.clearance, x.role, x.nullifier] + bits + Flags(bits, Bound(r, n), n, 1) + ProductValues(x, r))
  }

  /** The five values read back out of an assignment. */
  function InstanceOf(z: Assignment): (x: Instance)
    requires |z.inputs| == 2 && |z.witnesses| >= 3
  {
    Instance(z.witnesses[0], z.witnesses[1], z.witnesses[2], z.inputs[0], z.inputs[1])
  }

  predicate Shaped(z: Assignment, r: int, n: nat)
    requires r > 0
  {
    |z.inputs| == 2 && |z.witnesses| == FirstProduct(r, n) + 2 && z.Canonical(r)
  }

  // ---- Linear combinations.

  lemma {:induction false} EvalConcat(z: Assignment, a: LinComb, b: LinComb)
    ensures z.Eval(a + b) == z.Eval(a) + z.Eval(b)
  {
    if b == [] {
      assert a + b == a;
    } else {
      assert (a + b)[..|a + b| - 1] == a + b[..|b| - 1];
      EvalConcat(z, a, b[..|b| - 1]);
    }
  }

  lemma {:induction false} EvalMinus(z: Assignment, lc: LinComb)
    ensures z.Eval(Minus(lc)) == -z.Eval(lc)
  {
    if lc != [] {
      assert Minus(lc)[..|lc| - 1] == Minus(lc[..|lc| - 1]);
      EvalMinus(z, lc[..|lc| - 1]);
    }
  }

  lemma EvalDifference(z: Assignment)
    requires |z.inputs| == 2 && |z.witnesses| >= 3
    ensures z.Eval(Difference()) == z.witnesses[0] - z.inputs[0]
  {
    assert Difference() == [Term(1, Witness(0))] + [Term(-1, Input(0))];
    EvalConcat(z, [Term(1, Witness(0))], [Term(-1, Input(0))]);
    assert [Term(1, Witness(0))][..0] == [] && [Term(-1, Input(0))][..0] == [];
  }

  lemma EqualMeans(z: Assignment, a: LinComb, b: LinComb, r: int)
    requires r > 0
    ensures Holds(Equal(a, b), z, r) <==> z.Eval(a) % r == z.Eval(b) % r
  {
    EvalConcat(z, a, Minus(b));
    EvalMinus(z, b);
    EvalSingle(z, One);
    assert z.Eval(Equal(a, b).a) * z.Eval(Equal(a, b).b) == z.Eval(a) - z.Eval(b);
    Congruent(z.Eval(a), z.Eval(b), r);
  }

  /** A packed prefix of m bits plus the rest shifted by m gives the whole number. */
  lemma {:induction false} PackPrefix(z: Assignment, bits: seq<int>, m: nat)
    requires |z.witnesses| >= FIRST_BIT + |bits| && z.witnesses[FIRST_BIT..FIRST_BIT + |bits|] == bits
    requires m <= |bits|
    ensures z.Eval(Pack(m)) + Pow2(m) * High(bits, m) == BitsToNat(bits)
  {
    if m > 0 {
      PackPrefix(z, bits, m - 1);
      assert Pack(m)[..m - 1] == Pack(m - 1);
      assert z.Value(Witness(FIRST_BIT + m - 1)) == bits[m - 1];
      Shift(Pow2(m - 1), bits[m - 1], High(bits, m));
    }
  }

  lemma Shift(p: int, b: int, h: int)
    ensures p * (b + 2 * h) == p * b + (2 * p) * h
  {
    assert p * (2 * h) == (2 * p) * h;
  }

  // ---- Booleanity and the in-field comparison.

  lemma BitConstraintMeans(z: Assignment, i: nat, r: int)
    requires Prime(r) && z.Canonical(r) && i < |z.witnesses|
    ensures Holds(BitConstraint(i), z, r) <==> z.witnesses[i] == 0 || z.witnesses[i] == 1
  {
    var b := z.witnesses[i];
    EvalConcat(z, [Term(1, One)], [Term(-1, Witness(i))]);
    assert [Term(1, One)][..0] == [] && [Term(-1, Witness(i))][..0] == [];
    assert [Term(1, One), Term(-1, Witness(i))] == [Term(1, One)] + [Term(-1, Witness(i))];
    EvalSingle(z, Witness(i));
    BooleanRoots(b, r);
  }

  lemma BitsMean(z: Assignment, n: nat, r: int)
    requires Prime(r) && z.Canonical(r) && |z.witnesses| >= FIRST_BIT + n
    ensures AllHold(BitConstraints(n), z, r) <==> Bits(z.witnesses[FIRST_BIT..FIRST_BIT + n])
  {
    var bits := z.witnesses[FIRST_BIT..FIRST_BIT + n];
    forall i | 0 <= i < n
      ensures Holds(BitConstraints(n)[i], z, r) <==> bits[i] == 0 || bits[i] == 1
    {
      BitConstraintMeans(z, FIRST_BIT + i, r);
    }
  }

  lemma ProductMeans(z: Assignment, a: Variable, b: Variable, c: Variable, r: int)
    requires r > 0 && 0 <= z.Value(c) < r
    ensures Holds(Constraint(Single(a), Single(b), Single(c)), z, r) <==> z.Value(c) == (z.Value(a) * z.Value(b)) % r
  {
    EvalSingle(z, a);
    EvalSingle(z, b);
    EvalSingle(z, c);
    Congruent(z.Value(a) * z.Value(b), z.Value(c), r);
    RemainderUnique(z.Value(c), r, 0, z.Value(c));
  }

  /** "Equal so far" and "already smaller" are the only two states of the comparison. */
  predicate Comparing(bits: seq<int>, bound: seq<int>, k: nat, last: int)
    requires k <= |bits| == |bound|
  {
    || (last == 1 && High(bits, k) == High(bound, k))
    || (last == 0 && High(bits, k) < High(bound, k))
  }

  /** One comparison step: a one in the bound takes the flag to last AND bit; a zero forbids last AND bit. */
  lemma CompareStep(bits: seq<int>, bound: seq<int>, k: nat, last: int)
    requires Bits(bits) && Bits(bound) && 0 < k <= |bits| == |bound| && Comparing(bits, bound, k, last)
    ensures bound[k - 1] == 1 ==> Comparing(bits, bound, k - 1, And(last, bits[k - 1]))
    ensures bound[k - 1] == 0 && And(last, bits[k - 1]) == 0 ==> Comparing(bits, bound, k - 1, last)
    ensures bound[k - 1] == 0 && And(last, bits[k - 1]) == 1 ==> BitsToNat(bits) > BitsToNat(bound)
  {
    if bound[k - 1] == 0 && And(last, bits[k - 1]) == 1 {
      HighOrder(bits, bound, k - 1);
    }
  }

  /** On boolean values a product constraint is a conjunction, and one with an empty right side forbids it. */
  lemma AndMeans(z: Assignment, a: Variable, b: Variable, c: Variable, r: int)
    requires r > 1 && Bits([z.Value(a), z.Value(b)]) && 0 <= z.Value(c) < r
    ensures Holds(Constraint(Single(a), Single(b), Single(c)), z, r) <==> z.Value(c) == And(z.Value(a), z.Value(b))
    ensures Holds(Constraint(Single(a), Single(b), []), z, r) <==> And(z.Value(a), z.Value(b)) == 0
  {
    var s := [z.Value(a), z.Value(b)];
    assert Bits(s) && s[0] == z.Value(a) && s[1] == z.Value(b);
    var v := And(s[0], s[1]);
    assert s[0] * s[1] == v;
    RemainderUnique(v, r, 0, v);
    ProductMeans(z, a, b, c, r);
    EvalSingle(z, a);
    EvalSingle(z, b);
  }

  /** The values the chain reads: canonical, with the bits in their slots and room for the flags. */
  predicate ChainReady(z: Assignment, r: int, bits: seq<int>, next: nat, flags: nat) {
    && r > 1 && z.Canonical(r) && Bits(bits)
    && |z.witnesses| >= FIRST_BIT + |bits| && z.witnesses[FIRST_BIT..FIRST_BIT + |bits|] == bits
    && |z.witnesses| >= next + flags
  }

  /** The chain from position k holds exactly when the bits are at most the bound and its flags are honest. */
  predicate Decides(z: Assignment, r: int, bits: seq<int>, bound: seq<int>, k: nat, last: Variable, next: nat)
    requires k <= |bits| == |bound| && ChainReady(z, r, bits, next, Ones(bound, k))
  {
    AllHold(InField(bound, k, last, next), z, r) <==>
    BitsToNat(bits) <= BitsToNat(bound)
    && z.witnesses[next..next + Ones(bound, k)] == Flags(bits, bound, k, z.Value(last))
  }

  lemma {:induction false} InFieldMeans(z: Assignment, r: int, bits: seq<int>, bound: seq<int>, k: nat,
                                        last: Variable, next: nat)
    requires k <= |bits| == |bound| && Bits(bound) && ChainReady(z, r, bits, next, Ones(bound, k))
    requires Comparing(bits, bound, k, z.Value(last))
    ensures Decides(z, r, bits, bound, k, last, next)
  {
    if k > 0 {
      CompareStep(bits, bound, k, z.Value(last));
      if bound[k - 1] == 1 {
        if z.witnesses[next] == And(z.Value(last), bits[k - 1]) {
          InFieldMeans(z, r, bits, bound, k - 1, Witness(next), next + 1);
        }
        FlagStep(z, r, bits, bound, k, last, next);
      } else {
        if And(z.Value(last), bits[k - 1]) == 0 {
          InFieldMeans(z, r, bits, bound, k - 1, last, next);
        }
        NandStep(z, r, bits, bound, k, last, next);
      }
    }
  }

  /** At a zero of the bound, the bit must be clear while the flag is still up. */
  lemma NandStep(z: Assignment, r: int, bits: seq<int>, bound: seq<int>, k: nat, last: Variable, next: nat)
    requires 0 < k <= |bits| == |bound| && bound[k - 1] == 0 && ChainReady(z, r, bits, next, Ones(bound, k))
    requires Bits([z.Value(last)])
    requires if And(z.Value(last), bits[k - 1]) == 0 then Decides(z, r, bits, bound, k - 1, last, next)
             else BitsToNat(bits) > BitsToNat(bound)
    ensures Decides(z, r, bits, bound, k, last, next)
  {
    var bit := Witness(FIRST_BIT + k - 1);
    assert z.Value(bit) == bits[k - 1] && [z.Value(last)][0] == z.Value(last);
    AndMeans(z, last, bit, bit, r);
    var c := Constraint(Single(last), Single(bit), []);
    AllHoldOne(c, z, r);
    AllHoldConcat([c], InField(bound, k - 1, last, next), z, r);
  }

  /** At a one of the bound, the next flag is forced and the rest of the chain goes on from it. */
  lemma FlagStep(z: Assignment, r: int, bits: seq<int>, bound: seq<int>, k: nat, last: Variable, next: nat)
    requires 0 < k <= |bits| == |bound| && bound[k - 1] == 1 && ChainReady(z, r, bits, next, Ones(bound, k))
    requires Bits([z.Value(last)])
    requires z.witnesses[next] == And(z.Value(last), bits[k - 1]) ==>
             Decides(z, r, bits, bound, k - 1, Witness(next), next + 1)
    ensures Decides(z, r, bits, bound, k, last, next)
  {
    FlagForced(z, r, bits, bound, k, last, next);
    FlagSlice(z.witnesses, bits, bound, k, z.Value(last), next);
  }

  lemma FlagForced(z: Assignment, r: int, bits: seq<int>, bound: seq<int>, k: nat, last: Variable, next: nat)
    requires 0 < k <= |bits| == |bound| && bound[k - 1] == 1 && ChainReady(z, r, bits, next, Ones(bound, k))
    requires Bits([z.Value(last)])
    ensures AllHold(InField(bound, k, last, next), z, r) <==>
            z.witnesses[next] == And(z.Value(last), bits[k - 1])
            && AllHold(InField(bound, k - 1, Witness(next), next + 1), z, r)
  {
    var bit := Witness(FIRST_BIT + k - 1);
    assert z.Value(bit) == bits[k - 1] && [z.Value(last)][0] == z.Value(last);
    AndMeans(z, last, bit, Witness(next), r);
    var c := Constraint(Single(last), Single(bit), Single(Witness(next)));
    AllHoldOne(c, z, r);
    AllHoldConcat([c], InField(bound, k - 1, Witness(next), next + 1), z, r);
  }

  lemma FlagSlice(w: seq<int>, bits: seq<int>, bound: seq<int>, k: nat, last: int, next: nat)
    requires 0 < k <= |bits| == |bound| && bound[k - 1] == 1 && next + Ones(bound, k) <= |w|
    ensures
      var flag := And(last, bits[k - 1]);
      w[next..next + Ones(bound, k)] == Flags(bits, bound, k, last) <==>
      w[next] == flag && w[next + 1..next + 1 + Ones(bound, k - 1)] == Flags(bits, bound, k - 1, flag)
  {
    var s, fs := w[next..next + Ones(bound, k)], Flags(bits, bound, k, last);
    assert s[0] == w[next] && s[1..] == w[next + 1..next + 1 + Ones(bound, k - 1)];
    assert s == [s[0]] + s[1..] && fs == [fs[0]] + fs[1..];
    assert fs[1..] == Flags(bits, bound, k - 1, And(last, bits[k - 1]));
  }

  // ---- The theorem.

  /** The four groups of range constraints, taken one by one. */
  predicate RangeParts(z: Assignment, r: int, n: nat)
    requires FieldShape(r, n)
  {
    && AllHold(BitConstraints(n), z, r)
    && Holds(Equal(Pack(n), Difference()), z, r)
    && AllHold(InField(Bound(r, n), n, One, FirstFlag(n)), z, r)
    && Holds(Equal(Difference(), Pack(8)), z, r)
  }

  lemma RangeSplit(z: Assignment, r: int, n: nat)
    requires FieldShape(r, n)
    ensures AllHold(RangeConstraints(r, n), z, r) <==> RangeParts(z, r, n)
  {
    var a, b := BitConstraints(n), Equal(Pack(n), Difference());
    var c, d := InField(Bound(r, n), n, One, FirstFlag(n)), Equal(Difference(), Pack(8));
    AllHoldConcat(a + [b] + c, [d], z, r);
    AllHoldConcat(a + [b], c, z, r);
    AllHoldConcat(a, [b], z, r);
    AllHoldOne(b, z, r);
    AllHoldOne(d, z, r);
  }

  /** The two packing equations on boolean bits below the modulus say that they are the bits of d and fit a byte. */
  lemma PackingMeans(z: Assignment, bits: seq<int>, r: int)
    requires r > 1 && |bits| >= 8 && Bits(bits) && BitsToNat(bits) < r
    requires |z.inputs| == 2 && |z.witnesses| >= FIRST_BIT + |bits|
    requires z.witnesses[FIRST_BIT..FIRST_BIT + |bits|] == bits
    ensures
      var d := (z.witnesses[0] - z.inputs[0]) % r;
      (Holds(Equal(Pack(|bits|), Difference()), z, r) && Holds(Equal(Difference(), Pack(8)), z, r))
      <==> BitsToNat(bits) == d && d <= 255
  {
    EvalDifference(z);
    EqualMeans(z, Pack(|bits|), Difference(), r);
    EqualMeans(z, Difference(), Pack(8), r);
    PackPrefix(z, bits, |bits|);
    PackPrefix(z, bits, 8);
    BitsBound(bits);
    RemainderUnique(BitsToNat(bits), r, 0, BitsToNat(bits));
    LowByte(bits, z.Eval(Pack(8)), r);
  }

  /** What the constraints up to the products say: the bits are those of the difference, and fit a byte. */
  lemma RangeMeans(z: Assignment, r: int, n: nat)
    requires Prime(r) && FieldShape(r, n) && Shaped(z, r, n)
    ensures
      var x, bits := InstanceOf(z), DifferenceBits(InstanceOf(z), r, n);
      RangeParts(z, r, n)
      <==> (x.clearance - x.required) % r <= 255
           && z.witnesses[FIRST_BIT..FirstFlag(n)] == bits
           && z.witnesses[FirstFlag(n)..FirstProduct(r, n)] == Flags(bits, Bound(r, n), n, 1)
  {
    var d := (z.witnesses[0] - z.inputs[0]) % r;
    var bits := z.witnesses[FIRST_BIT..FirstFlag(n)];
    BitsMean(z, n, r);
    if Bits(bits) {
      ChainMeans(z, bits, r, n);
      if BitsToNat(bits) < r {
        PackingMeans(z, bits, r);
      }
    }
    RangeLogic(bits, z.witnesses[FirstFlag(n)..FirstProduct(r, n)], d, r, n,
               AllHold(BitConstraints(n), z, r),
               Holds(Equal(Pack(n), Difference()), z, r) && Holds(Equal(Difference(), Pack(8)), z, r),
               AllHold(InField(Bound(r, n), n, One, FirstFlag(n)), z, r));
  }

  /** Booleanity, packing and comparison together pin the bits and the flags down. */
  lemma RangeLogic(bits: seq<int>, flags: seq<int>, d: nat, r: int, n: nat, boolean: bool, packed: bool, inField: bool)
    requires FieldShape(r, n) && |bits| == n && d < r
    requires boolean <==> Bits(bits)
    requires boolean ==> (inField <==> BitsToNat(bits) < r && flags == Flags(bits, Bound(r, n), n, 1))
    requires boolean && BitsToNat(bits) < r ==> (packed <==> BitsToNat(bits) == d && d <= 255)
    ensures boolean && packed && inField <==>
            d <= 255 && bits == ToBits(d, n) && flags == Flags(ToBits(d, n), Bound(r, n), n, 1)
  {
    if boolean {
      BitsAre(bits, d, n);
    }
  }

  /** The whole comparison chain says that the bits are below the modulus and the flags are honest. */
  lemma ChainMeans(z: Assignment, bits: seq<int>, r: int, n: nat)
    requires FieldShape(r, n) && Shaped(z, r, n) && Bits(bits) && z.witnesses[FIRST_BIT..FirstFlag(n)] == bits
    ensures AllHold(InField(Bound(r, n), n, One, FirstFlag(n)), z, r) <==>
            BitsToNat(bits) < r
            && z.witnesses[FirstFlag(n)..FirstProduct(r, n)] == Flags(bits, Bound(r, n), n, 1)
  {
    ToBitsValue(r - 1, n);
    InFieldMeans(z, r, bits, Bound(r, n), n, One, FirstFlag(n));
  }

  lemma BitsAre(bits: seq<int>, d: nat, n: nat)
    requires Bits(bits) && |bits| == n && d < Pow2(n)
    ensures BitsToNat(bits) == d <==> bits == ToBits(d, n)
  {
    ToBitsValue(d, n);
    BitsUnique(bits, n);
  }

  /** The low eight bits equal the whole number modulo r exactly when the number fits a byte. */
  lemma LowByte(bits: seq<int>, low: int, r: int)
    requires Bits(bits) && |bits| >= 8 && r > 1
    requires low + Pow2(8) * High(bits, 8) == BitsToNat(bits)
    ensures 0 <= BitsToNat(bits) < r ==> (BitsToNat(bits) % r == low % r <==> BitsToNat(bits) <= 255)
  {
    var v := BitsToNat(bits);
    assert Pow2(8) == 256;
    HighSlice(bits, 8);
    BitsBound(bits[8..]);
    LowBound(bits, 8, low);
    if 0 <= v < r {
      RemainderUnique(v, r, 0, v);
      RemainderUnique(low, r, 0, low);
    }
  }

  lemma {:induction false} HighSlice(s: seq<int>, k: nat)
    requires k <= |s|
    ensures High(s, k) == BitsToNat(s[k..])
    decreases |s| - k
  {
    if k < |s| {
      HighSlice(s, k + 1);
      HighTail(s[k..], 0);
      assert s[k..][1..] == s[k + 1..];
    }
  }

  lemma {:induction false} LowBound(s: seq<int>, m: nat, low: int)
    requires Bits(s) && m <= |s| && low + Pow2(m) * High(s, m) == BitsToNat(s)
    ensures 0 <= low < Pow2(m)
  {
    if m > 0 {
      var p := Pow2(m - 1);
      Shift(p, s[m - 1], High(s, m));
      LowBound(s, m - 1, low - p * s[m - 1]);
    }
  }

  lemma ProductsMean(z: Assignment, r: int, n: nat)
    requires r > 1 && Shaped(z, r, n)
    ensures
      var x, p := InstanceOf(z), FirstProduct(r, n);
      AllHold(Products(p), z, r)
      <==> x.commitment == (x.nullifier * x.clearance * x.role) % r
           && z.witnesses[p..] == ProductValues(x, r)
  {
    var x, p := InstanceOf(z), FirstProduct(r, n);
    ProductMeans(z, Witness(2), Witness(0), Witness(p), r);
    ProductMeans(z, Witness(p), Witness(1), Witness(p + 1), r);
    EqualMeans(z, Single(Witness(p + 1)), Single(Input(1)), r);
    EvalSingle(z, Witness(p + 1));
    EvalSingle(z, Input(1));
    RemainderUnique(z.witnesses[p + 1], r, 0, z.witnesses[p + 1]);
    RemainderUnique(x.commitment, r, 0, x.commitment);
    ModProduct(x.nullifier * x.clearance, x.role, r);
    assert z.witnesses[p..] == [z.witnesses[p], z.witnesses[p + 1]];
    var cs := Products(p);
    assert AllHold(cs, z, r) <==> Holds(cs[0], z, r) && Holds(cs[1], z, r) && Holds(cs[2], z, r);
  }

  /** The circuit is sound, complete and has one witness: an assignment satisfies the compiled constraints
      exactly when its five values are in the relation and everything else is the honest assignment. */
  lemma CircuitExact(z: Assignment, r: int, n: nat)
    requires Prime(r) && FieldShape(r, n) && Shaped(z, r, n)
    ensures AllHold(Compile(r, n), z, r) <==> Relation(InstanceOf(z), r) && z == Honest(InstanceOf(z), r, n)
  {
    var x, p, w := InstanceOf(z), FirstProduct(r, n), z.witnesses;
    var bits := DifferenceBits(x, r, n);
    RangeSplit(z, r, n);
    RangeMeans(z, r, n);
    ProductsMean(z, r, n);
    AllHoldConcat(RangeConstraints(r, n), Products(p), z, r);
    HonestSlices(z, bits, Flags(bits, Bound(r, n), n, 1), ProductValues(x, r), n, p);
  }

  /** Comparing an assignment with an honest one slice by slice. */
  lemma HonestSlices(z: Assignment, bits: seq<int>, flags: seq<int>, products: seq<int>, n: nat, p: nat)
    requires |z.inputs| == 2 && |bits| == n && p == FirstFlag(n) + |flags| && |z.witnesses| == p + 2
    ensures
      var x, w := InstanceOf(z), z.witnesses;
      z == Assignment([x.required, x.commitment], [x.clearance, x.role, x.nullifier] + bits + flags + products)
      <==> w[FIRST_BIT..FirstFlag(n)] == bits && w[FirstFlag(n)..p] == flags && w[p..] == products
  {
    var x, w := InstanceOf(z), z.witnesses;
    var h := [x.clearance, x.role, x.nullifier] + bits + flags + products;
    assert w == w[..3] + w[3..FirstFlag(n)] + w[FirstFlag(n)..p] + w[p..];
    assert w[..3] == [x.clearance, x.role, x.nullifier];
    assert z.inputs == [x.required, x.commitment];
    assert h[FIRST_BIT..FirstFlag(n)] == bits && h[FirstFlag(n)..p] == flags && h[p..] == products;
  }

  /** Honest assignments are well-shaped field elements. */
  lemma HonestShaped(x: Instance, r: int, n: nat)
    requires FieldShape(r, n) && x.Canonical(r)
    ensures Shaped(Honest(x, r, n), r, n) && InstanceOf(Honest(x, r, n)) == x
  {
    var bits := DifferenceBits(x, r, n);
    var flags := Flags(bits, Bound(r, n), n, 1);
    FlagsBits(bits, Bound(r, n), n, 1);
    RangeConcat([x.clearance, x.role, x.nullifier], bits, r);
    RangeConcat([x.clearance, x.role, x.nullifier] + bits, flags, r);
    RangeConcat([x.clearance, x.role, x.nullifier] + bits + flags, ProductValues(x, r), r);
  }

  lemma RangeConcat(a: seq<int>, b: seq<int>, r: int)
    requires InRange(a, r) && InRange(b, r)
    ensures InRange(a + b, r)
  {
  }

  lemma {:induction false} FlagsBits(bits: seq<int>, bound: seq<int>, k: nat, last: int)
    requires k <= |bits| == |bound| && Bits(bits) && (last == 0 || last == 1)
    ensures Bits(Flags(bits, bound, k, last))
  {
    if k > 0 {
      FlagsBits(bits, bound, k - 1, if bound[k - 1] == 1 then And(last, bits[k - 1]) else last);
    }
  }

  ghost predicate Satisfiable(x: Instance, r: int, n: nat)
    requires FieldShape(r, n)
  {
    exists z :: Shaped(z, r, n) && InstanceOf(z) == x && AllHold(Compile(r, n), z, r)
  }

  /** Some choice of bits, flags and products satisfies the constraints exactly when the relation holds. */
  lemma SatisfiableIff(x: Instance, r: int, n: nat)
    requires Prime(r) && FieldShape(r, n) && x.Canonical(r)
    ensures Satisfiable(x, r, n) <==> Relation(x, r)
  {
    HonestShaped(x, r, n);
    CircuitExact(Honest(x, r, n), r, n);
    if Satisfiable(x, r, n) {
      var z :| Shaped(z, r, n) && InstanceOf(z) == x && AllHold(Compile(r, n), z, r);
      CircuitExact(z, r, n);
    }
  }

  /** For 64-bit levels the range check is required <= clearance <= required + 255, with no wrap-around. */
  lemma RangeOnU64(clearance: int, required: int, r: int)
    requires 0 <= clearance < Pow2(64) && 0 <= required < Pow2(64) && r > Pow2(64) + 255
    ensures (clearance - required) % r <= 255 <==> required <= clearance <= required + 255
  {
    var d := clearance - required;
    if d >= 0 {
      RemainderUnique(d, r, 0, d);
    } else {
      RemainderUnique(d, r, -1, d + r);
    }
  }

  // ---- Synthesis, step by step on a shared constraint system.

  /** Allocates the n little-endian bits of v, each with its booleanity constraint. */
  method AllocateBits(cs: ConstraintSystem, v: nat, n: nat)
    requires |cs.witnesses| == FIRST_BIT && cs.constraints == []
    modifies cs`witnesses, cs`constraints
    ensures cs.witnesses == old(cs.witnesses) + ToBits(v, n)
    ensures cs.constraints == BitConstraints(n)
  {
    var rest := v;
    for i := 0 to n
      invariant rest >= 0 && |cs.witnesses| == FIRST_BIT + i
      invariant cs.witnesses + ToBits(rest, n - i) == old(cs.witnesses) + ToBits(v, n)
      invariant cs.constraints == BitConstraints(i)
    {
      var b := rest % 2;
      assert ToBits(rest, n - i) == [b] + ToBits(rest / 2, n - i - 1);
      var bit := cs.NewWitness(b);
      cs.Enforce(BitConstraint(FIRST_BIT + i));
      rest := rest / 2;
    }
  }

  /** Appends the comparison of the bits with the bound, allocating one flag at each one of the bound. */
  method EnforceInField(cs: ConstraintSystem, bits: seq<int>, bound: seq<int>)
    requires |bits| == |bound| && Bits(bits) && |cs.witnesses| == FirstFlag(|bits|)
    modifies cs`witnesses, cs`constraints
    ensures cs.witnesses == old(cs.witnesses) + Flags(bits, bound, |bits|, 1)
    ensures cs.constraints == old(cs.constraints) + InField(bound, |bits|, One, FirstFlag(|bits|))
  {
    var k: nat, last, flag := |bits|, One, 1;
    while k > 0
      invariant k <= |bits|
      invariant cs.witnesses + Flags(bits, bound, k, flag) == old(cs.witnesses) + Flags(bits, bound, |bits|, 1)
      invariant cs.constraints + InField(bound, k, last, |cs.witnesses|)
             == old(cs.constraints) + InField(bound, |bits|, One, FirstFlag(|bits|))
    {
      var bit := Witness(FIRST_BIT + k - 1);
      ghost var ws, es := cs.witnesses, cs.constraints;
      if bound[k - 1] == 1 {
        var next := cs.NewWitness(And(flag, bits[k - 1]));
        cs.Enforce(Constraint(Single(last), Single(bit), Single(next)));
        last, flag := next, And(flag, bits[k - 1]);
        assert cs.witnesses + Flags(bits, bound, k - 1, flag) == ws + ([flag] + Flags(bits, bound, k - 1, flag));
      } else {
        cs.Enforce(Constraint(Single(last), Single(bit), []));
      }
      ghost var c := cs.constraints[|es|];
      assert cs.constraints == es + [c];
      assert cs.constraints + InField(bound, k - 1, last, |cs.witnesses|)
          == es + ([c] + InField(bound, k - 1, last, |cs.witnesses|));
      k := k - 1;
    }
  }

  /** Allocates the two products of the commitment and enforces them and the public commitment. */
  method EnforceProducts(cs: ConstraintSystem, x: Instance)
    requires cs.modulus > 0
    modifies cs`witnesses, cs`constraints
    ensures cs.witnesses == old(cs.witnesses) + ProductValues(x, cs.modulus)
    ensures cs.constraints == old(cs.constraints) + Products(|old(cs.witnesses)|)
  {
    var values := ProductValues(x, cs.modulus);
    var first := cs.NewWitness(values[0]);
    cs.Enforce(Constraint(Single(Witness(2)), Single(Witness(0)), Single(first)));
    var second := cs.NewWitness(values[1]);
    cs.Enforce(Constraint(Single(first), Single(Witness(1)), Single(second)));
    cs.Enforce(Equal(Single(second), Single(Input(1))));
  }

  /** Decomposes the difference into canonical bits and enforces that its low byte is all of it. */
  method EnforceRange(cs: ConstraintSystem, x: Instance, n: nat)
    requires FieldShape(cs.modulus, n) && |cs.witnesses| == FIRST_BIT && cs.constraints == []
    modifies cs`witnesses, cs`constraints
    ensures cs.constraints == RangeConstraints(cs.modulus, n)
    ensures cs.witnesses == old(cs.witnesses) + DifferenceBits(x, cs.modulus, n)
                            + Flags(DifferenceBits(x, cs.modulus, n), Bound(cs.modulus, n), n, 1)
  {
    var bits := DifferenceBits(x, cs.modulus, n);
    AllocateBits(cs, (x.clearance - x.required) % cs.modulus, n);
    cs.Enforce(Equal(Pack(n), Difference()));
    EnforceInField(cs, bits, Bound(cs.modulus, n));
    cs.Enforce(Equal(Difference(), Pack(8)));
  }

  /** Allocates the private values, then the public ones, stopping at the first that is missing. */
  method AllocateValues(circuit: Circuit, cs: ConstraintSystem) returns (res: Synthesis)
    requires cs.inputs == [] && cs.witnesses == []
    modifies cs`inputs, cs`witnesses
    ensures res.Synthesized? <==> circuit.Assigned()
    ensures res.Synthesized? ==>
            var x := circuit.Values();
            cs.witnesses == [x.clearance, x.role, x.nullifier] && cs.inputs == [x.required, x.commitment]
  {
    if circuit.userClearanceLevel.None? { return AssignmentMissing; }
    var v := cs.NewWitness(circuit.userClearanceLevel.value);
    if circuit.userRoleScalar.None? { return AssignmentMissing; }
    v := cs.NewWitness(circuit.userRoleScalar.value);
    if circuit.secretNullifier.None? { return AssignmentMissing; }
    v := cs.NewWitness(circuit.secretNullifier.value);
    if circuit.requiredClearanceLevel.None? { return AssignmentMissing; }
    v := cs.NewInput(circuit.requiredClearanceLevel.value);
    if circuit.publicCommitment.None? { return AssignmentMissing; }
    v := cs.NewInput(circuit.publicCommitment.value);

    return Synthesized;
  }

  /** Builds the circuit on a new system: a missing value is the only error, and otherwise the system holds
      exactly the compiled constraints and the honest assignment. */
  method GenerateConstraints(circuit: Circuit, cs: ConstraintSystem, n: nat) returns (res: Synthesis)
    requires FieldShape(cs.modulus, n)
    requires cs.inputs == [] && cs.witnesses == [] && cs.constraints == []
    modifies cs
    ensures res.Synthesized? <==> circuit.Assigned()
    ensures res.Synthesized? ==> cs.constraints == Compile(cs.modulus, n)
    ensures res.Synthesized? ==> cs.Assigned() == Honest(circuit.Values(), cs.modulus, n)
  {
    res := AllocateValues(circuit, cs);
    if res.AssignmentMissing? { return; }
    EnforceRange(cs, circuit.Values(), n);
    EnforceProducts(cs, circuit.Values());
  }

  /** The prover's self-check: synthesis followed by `is_satisfied` decides the relation. */
  method CheckInstance(x: Instance, r: int, n: nat) returns (ok: bool)
    requires Prime(r) && FieldShape(r, n) && x.Canonical(r)
    ensures ok <==> Relation(x, r)
  {
    var cs := new ConstraintSystem(r);
    var circuit := Circuit(Some(x.clearance), Some(x.role), Some(x.nullifier), Some(x.required), Some(x.commitment));
    var res := GenerateConstraints(circuit, cs, n);
    ok := cs.IsSatisfied();
    HonestShaped(x, r, n);
    CircuitExact(Honest(x, r, n), r, n);
  }
}
