/** JSON values, the accessors that issuer and prover use on them, and an abstract text codec. */
module Json {
  import opened Wrappers
  import opened Arithmetic
  import opened ByteStrings
  import Envelope

  datatype Value =
    | Null
    | Bool(b: bool)
    | Int(n: int)
    | Float
    | Str(s: string)
    | Arr(items: seq<Value>)
    | Obj(fields: map<string, Value>)

  function Get(v: Value, name: string): (f: Option<Value>) {
    if v.Obj? && name in v.fields then Some(v.fields[name]) else None
  }

  function AsStr(v: Option<Value>): (s: Option<string>) {
    if v.Some? && v.value.Str? then Some(v.value.s) else None
  }

  function AsU64(v: Option<Value>): (n: Option<nat>) {
    if v.Some? && v.value.Int? && 0 <= v.value.n < 0x1_0000_0000_0000_0000 then Some(v.value.n) else None
  }

  predicate IsI64(n: int) { -0x8000_0000_0000_0000 <= n < 0x8000_0000_0000_0000 }

  function AsI64(v: Option<Value>): (n: Option<int>) {
    if v.Some? && v.value.Int? && IsI64(v.value.n) then Some(v.value.n) else None
  }

  /** The numbers that fit 64 bits, without and with a sign. */
  lemma NumberRanges(v: Value, n: int)
    ensures (exists m :: AsU64(Some(v)) == Some(m) && m == n) <==> v == Int(n) && 0 <= n < Pow2(64)
    ensures AsI64(Some(v)) == Some(n) <==> v == Int(n) && 0 <= n + Pow2(63) < Pow2(64)
  {
    Pow2Is64();
    assert Pow2(64) == 2 * Pow2(63);
  }

  /** Printing and parsing of text; JSON text never starts like an envelope. */
  datatype Codec = Codec(write: Value -> Bytes, parse: Bytes -> Option<Value>)

  ghost predicate Faithful(c: Codec) {
    && (forall v :: c.parse(c.write(v)) == Some(v))
    && (forall b :: c.parse(b).Some? ==> !(Envelope.MAGIC <= b))
  }
}
