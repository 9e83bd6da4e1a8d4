/** Byte strings, their little-endian, big-endian and decimal readings, blank text, and the ideal hash. */
module ByteStrings {
  import opened Wrappers

  type Byte = x: int | 0 <= x < 256
  type Bytes = seq<Byte>

  function Pow256(n: nat): (v: nat)
    ensures v > 0
  {
    if n == 0 then 1 else 256 * Pow256(n - 1)
  }

  // ---- Little-endian.

  function LeValue(bs: Bytes): (v: nat) {
    if bs == [] then 0 else bs[0] + 256 * LeValue(bs[1..])
  }

  /** The shortest little-endian form; zero is one zero byte. */
  function ToLe(v: nat): (bs: Bytes) {
    if v < 256 then [v] else [v % 256] + ToLe(v / 256)
  }

  /** The k-byte little-endian form. */
  function ToLeFixed(v: nat, k: nat): (bs: Bytes)
    ensures |bs| == k
    decreases k
  {
    if k == 0 then [] else [v % 256] + ToLeFixed(v / 256, k - 1)
  }

  lemma {:induction false} LeRoundTrip(v: nat)
    ensures LeValue(ToLe(v)) == v
  {
    if v < 256 {
      assert [v][1..] == [];
    } else {
      LeRoundTrip(v / 256);
      assert ToLe(v)[1..] == ToLe(v / 256);
    }
  }

  lemma {:induction false} LeFixedRoundTrip(v: nat, k: nat)
    requires v < Pow256(k)
    ensures LeValue(ToLeFixed(v, k)) == v
  {
    if k > 0 {
      LeFixedRoundTrip(v / 256, k - 1);
      assert ToLeFixed(v, k)[1..] == ToLeFixed(v / 256, k - 1);
    }
  }

  /** Each further byte weighs 256 times the one before it. */
  lemma {:induction false} LeLast(bs: Bytes, b: Byte)
    ensures LeValue([]) == 0 && LeValue(bs + [b]) == LeValue(bs) + b * Pow256(|bs|)
  {
    if bs == [] {
      assert bs + [b] == [b] && [b][1..] == [];
    } else {
      LeLast(bs[1..], b);
      assert (bs + [b])[1..] == bs[1..] + [b];
      assert 256 * (b * Pow256(|bs| - 1)) == b * Pow256(|bs|);
    }
  }

  // ---- Big-endian.

  function BeValue(bs: Bytes): (v: nat) {
    if bs == [] then 0 else 256 * BeValue(bs[..|bs| - 1]) + bs[|bs| - 1]
  }

  function ToBeFixed(v: nat, k: nat): (bs: Bytes)
    ensures |bs| == k
    decreases k
  {
    if k == 0 then [] else ToBeFixed(v / 256, k - 1) + [v % 256]
  }

  lemma {:induction false} BeFixedRoundTrip(v: nat, k: nat)
    requires v < Pow256(k)
    ensures BeValue(ToBeFixed(v, k)) == v
  {
    if k > 0 {
      BeFixedRoundTrip(v / 256, k - 1);
      assert ToBeFixed(v, k)[..k - 1] == ToBeFixed(v / 256, k - 1);
    }
  }

  /** The first byte is the most significant one. */
  lemma {:induction false} BeFirst(b: Byte, bs: Bytes)
    ensures BeValue([]) == 0 && BeValue([b] + bs) == b * Pow256(|bs|) + BeValue(bs)
    decreases bs
  {
    if bs == [] {
      assert [b] + bs == [b] && [b][..0] == [];
    } else {
      var n := |bs| - 1;
      BeFirst(b, bs[..n]);
      assert ([b] + bs)[..n + 1] == [b] + bs[..n];
      assert 256 * (b * Pow256(n)) == b * Pow256(n + 1);
    }
  }

  /** A concatenation of four parts, by its slices. */
  lemma Slices(a: Bytes, b: Bytes, c: Bytes, d: Bytes, m: Bytes)
    ensures var i, j := |a| + |b|, |a| + |b| + |c|;
            m == a + b + c + d <==>
            |m| == j + |d| && m[..|a|] == a && m[|a|..i] == b && m[i..j] == c && m[j..] == d
  {
    var p, i, j := a + b + c + d, |a| + |b|, |a| + |b| + |c|;
    assert p[..|a|] == a && p[|a|..i] == b && p[i..j] == c && p[j..] == d;
    if |m| == |p| {
      assert m == m[..|a|] + m[|a|..i] + m[i..j] + m[j..];
    }
  }

  // ---- Decimal text, as `BigUint::from_str_radix` and `to_str_radix` read and write it.

  const ZERO: Byte := 48
  const PLUS: Byte := 43
  const UNDERSCORE: Byte := 95

  predicate IsDigit(c: Byte) { ZERO <= c <= ZERO + 9 }

  function PrintDecimal(v: nat): (s: Bytes)
    ensures s != [] && (forall i :: 0 <= i < |s| ==> IsDigit(s[i])) && (v > 0 ==> s[0] != ZERO) && (v < 10 ==> |s| == 1)
  {
    if v < 10 then [ZERO + v] else PrintDecimal(v / 10) + [ZERO + v % 10]
  }

  /** Digits are accumulated, underscores skipped, anything else rejects the text. */
  function ParseDigits(s: Bytes): (v: Option<nat>) {
    if s == [] then Some(0)
    else
      var c := s[|s| - 1];
      match ParseDigits(s[..|s| - 1])
      case None => None
      case Some(v) =>
        if IsDigit(c) then Some(10 * v + (c - ZERO))
        else if c == UNDERSCORE then Some(v)
        else None
  }

  /** One leading plus sign is dropped unless another follows; the rest must start with a digit. */
  function ParseDecimal(s: Bytes): (v: Option<nat>) {
    var body := if |s| > 0 && s[0] == PLUS && !(|s| > 1 && s[1] == PLUS) then s[1..] else s;
    if body == [] || body[0] == UNDERSCORE then None else ParseDigits(body)
  }

  lemma {:induction false} DigitsRoundTrip(v: nat)
    ensures ParseDigits(PrintDecimal(v)) == Some(v)
  {
    var s := PrintDecimal(v);
    if v < 10 {
      assert s[..0] == [];
    } else {
      DigitsRoundTrip(v / 10);
      assert s[..|s| - 1] == PrintDecimal(v / 10);
    }
  }

  lemma DecimalRoundTrip(v: nat)
    ensures ParseDecimal(PrintDecimal(v)) == Some(v)
  {
    DigitsRoundTrip(v);
    assert IsDigit(PrintDecimal(v)[0]);
  }

  lemma {:induction false} DigitsIff(s: Bytes)
    ensures ParseDigits(s).Some? <==> forall i :: 0 <= i < |s| ==> IsDigit(s[i]) || s[i] == UNDERSCORE
  {
    if s != [] {
      var n := |s| - 1;
      DigitsIff(s[..n]);
      assert forall i :: 0 <= i < n ==> s[i] == s[..n][i];
    }
  }

  lemma OneDigit(c: Byte)
    ensures IsDigit(c) ==> ParseDecimal([c]) == Some(c - ZERO) && ParseDecimal([PLUS, c]) == Some(c - ZERO)
  {
    var one, signed := [c], [PLUS, c];
    assert one[..0] == [] && ParseDigits(one[..0]) == Some(0);
    if IsDigit(c) {
      assert ParseDigits(one) == Some(c - ZERO);
      assert signed[1..] == one;
    }
  }

  /** Accepted text: at most one plus sign, a digit, then digits and underscores. A further digit appends itself to
      the number, a further underscore changes nothing. */
  lemma DecimalIff(s: Bytes, c: Byte)
    ensures ParseDecimal(s).Some? <==>
            || (s != [] && IsDigit(s[0]) && forall i :: 0 < i < |s| ==> IsDigit(s[i]) || s[i] == UNDERSCORE)
            || (|s| > 1 && s[0] == PLUS && IsDigit(s[1])
                && forall i :: 1 < i < |s| ==> IsDigit(s[i]) || s[i] == UNDERSCORE)
    ensures ParseDecimal(s).Some? && IsDigit(c) ==>
            ParseDecimal(s + [c]) == Some(10 * ParseDecimal(s).value + (c - ZERO))
    ensures ParseDecimal(s).Some? && c == UNDERSCORE ==> ParseDecimal(s + [c]) == ParseDecimal(s)
    ensures IsDigit(c) ==> ParseDecimal([c]) == Some(c - ZERO) && ParseDecimal([PLUS, c]) == Some(c - ZERO)
  {
    DigitsIff(s);
    if s != [] { DigitsIff(s[1..]); }
    if ParseDecimal(s).Some? {
      if s[0] == PLUS {
        assert (s + [c])[1..] == s[1..] + [c];
        assert (s[1..] + [c])[..|s| - 1] == s[1..];
      } else {
        assert (s + [c])[..|s|] == s;
      }
    }
    OneDigit(c);
  }

  // ---- Text.

  predicate WhiteSpace(c: int) { c == 32 || 9 <= c <= 13 }

  /** Text that trims to nothing. */
  predicate Blank(s: string) {
    forall i :: 0 <= i < |s| ==> WhiteSpace(s[i] as int)
  }

  predicate BlankBytes(s: Bytes) {
    forall i :: 0 <= i < |s| ==> WhiteSpace(s[i])
  }

  function Trim(s: string): (t: string) {
    if s == "" then ""
    else if WhiteSpace(s[0] as int) then Trim(s[1..])
    else if WhiteSpace(s[|s| - 1] as int) then Trim(s[..|s| - 1])
    else s
  }

  lemma {:induction false} BlankTrims(s: string)
    ensures Blank(s) <==> Trim(s) == ""
  {
    if s != "" {
      if WhiteSpace(s[0] as int) {
        BlankTrims(s[1..]);
        assert forall i :: 1 <= i < |s| ==> s[i] == s[1..][i - 1];
      } else if WhiteSpace(s[|s| - 1] as int) {
        BlankTrims(s[..|s| - 1]);
        assert s[..|s| - 1][0] == s[0];
      }
    }
  }

  function Utf8Char(c: char): (bs: Bytes) {
    var v := c as int;
    if v < 0x80 then [v]
    else if v < 0x800 then [0xC0 + v / 64, 0x80 + v % 64]
    else if v < 0x1_0000 then [0xE0 + v / 4096, 0x80 + v / 64 % 64, 0x80 + v % 64]
    else [0xF0 + v / 262144, 0x80 + v / 4096 % 64, 0x80 + v / 64 % 64, 0x80 + v % 64]
  }

  function Utf8(s: string): (bs: Bytes) {
    if s == "" then [] else Utf8Char(s[0]) + Utf8(s[1..])
  }

  lemma Sextets(v: nat)
    ensures v == v / 64 * 64 + v % 64 && v / 4096 == v / 64 / 64 && v / 262144 == v / 4096 / 64
    ensures v / 64 == v / 4096 * 64 + v / 64 % 64 && v / 4096 == v / 262144 * 64 + v / 4096 % 64
  {
  }

  /** The number in a UTF-8 sequence: the low bits of its bytes, six from each continuation byte. */
  lemma Utf8CharReads(c: char)
    ensures var b: seq<int>, v := Utf8Char(c), c as int;
      && (v < 0x80 ==> b == [v])
      && (0x80 <= v < 0x800 ==> |b| == 2 && 0xC0 <= b[0] < 0xE0 && v == (b[0] - 0xC0) * 64 + (b[1] - 0x80))
      && (0x800 <= v < 0x1_0000 ==>
          |b| == 3 && 0xE0 <= b[0] < 0xF0 && v == ((b[0] - 0xE0) * 64 + (b[1] - 0x80)) * 64 + (b[2] - 0x80))
      && (0x1_0000 <= v ==>
          && |b| == 4 && 0xF0 <= b[0] < 0xF8
          && v == (((b[0] - 0xF0) * 64 + (b[1] - 0x80)) * 64 + (b[2] - 0x80)) * 64 + (b[3] - 0x80))
      && (forall i :: 0 < i < |b| ==> 0x80 <= b[i] < 0xC0)
  {
    Sextets(c as int);
  }

  /** The bytes are the characters of the text. */
  predicate Spells(bs: Bytes, text: string) {
    |bs| == |text| && forall i :: 0 <= i < |text| ==> bs[i] == text[i] as int
  }

  lemma BlankBytesTrim(bs: Bytes, s: string)
    requires Spells(bs, s)
    ensures BlankBytes(bs) <==> Trim(s) == ""
  {
    BlankTrims(s);
  }

  /** ASCII text is its own UTF-8. */
  lemma {:induction false} Utf8Ascii(s: string)
    requires forall i :: 0 <= i < |s| ==> s[i] as int < 0x80
    ensures Spells(Utf8(s), s)
  {
    if s != "" {
      Utf8Ascii(s[1..]);
    }
  }

  // ---- SHA-256 as an ideal function with 32-byte results.

  type Hash = Bytes -> Bytes

  ghost predicate IsDigest(h: Hash) {
    forall m :: |h(m)| == 32
  }

  /** No two different messages of a finite set share a digest. */
  predicate CollisionFree(h: Hash, messages: set<Bytes>) {
    forall m, m' :: m in messages && m' in messages && h(m) == h(m') ==> m == m'
  }

  /** A running digest: `update` absorbs bytes, `finalize` hashes everything absorbed. */
  class Hasher {
    var absorbed: Bytes

    constructor ()
      ensures absorbed == []
    {
      absorbed := [];
    }

    method Update(data: Bytes)
      modifies this
      ensures absorbed == old(absorbed) + data
    {
      absorbed := absorbed + data;
    }
  }
}
