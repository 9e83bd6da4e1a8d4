/** Wallet record envelopes over an ideal AEAD, and the older XOR form. */
module Envelope {
  import opened Wrappers
  import opened Arithmetic
  import opened ByteStrings

  const MAGIC: Bytes := [68, 90, 84, 65, 49]  // "DZTA1"
  const NONCE: nat := 12
  const TAG: nat := 16

  /** AES-256-GCM: seal(key, nonce, plaintext) = (ciphertext, tag); open checks the tag. */
  datatype Aead = Aead(
    seal: (Bytes, Bytes, Bytes) -> (Bytes, Bytes),
    open: (Bytes, Bytes, Bytes, Bytes) -> Option<Bytes>)

  ghost predicate Ideal(a: Aead) {
    forall k, n, p ::
      var c := a.seal(k, n, p);
      |c.0| == |p| && |c.1| == TAG && a.open(k, n, c.0, c.1) == Some(p)
  }

  datatype Crypto = Crypto(aead: Aead, h: Hash)

  function Encrypt(y: Crypto, plaintext: Bytes, passphrase: Bytes, nonce: Bytes): (envelope: Bytes) {
    var c := y.aead.seal(y.h(passphrase), nonce, plaintext);
    MAGIC + nonce + c.0 + c.1
  }

  /** None is a rejected envelope: too short, without the magic, or not authentic. */
  function Decrypt(y: Crypto, envelope: Bytes, passphrase: Bytes): (plaintext: Option<Bytes>) {
    if |envelope| < |MAGIC| + NONCE + TAG || !(MAGIC <= envelope) then None
    else
      var nonceEnd, tagStart := |MAGIC| + NONCE, |envelope| - TAG;
      y.aead.open(y.h(passphrase), envelope[|MAGIC|..nonceEnd], envelope[nonceEnd..tagStart], envelope[tagStart..])
  }

  method EncryptWalletRecord(y: Crypto, plaintext: Bytes, passphrase: Bytes, nonce: Bytes) returns (envelope: Bytes)
    ensures envelope == Encrypt(y, plaintext, passphrase, nonce)
  {
    var key := y.h(passphrase);
    var sealed := y.aead.seal(key, nonce, plaintext);
    envelope := MAGIC;
    envelope := envelope + nonce;
    envelope := envelope + sealed.0;
    envelope := envelope + sealed.1;
  }

  /** The envelope byte by byte: the magic text, the nonce, and what sealing under the digest of the passphrase gives.
      Opening takes the same places and the same key, and exactly the envelopes that are long enough, start with the
      magic text and pass the tag check. */
  lemma EnvelopeLayout(y: Crypto, plaintext: Bytes, passphrase: Bytes, nonce: Bytes, envelope: Bytes)
    requires |nonce| == 12
    ensures
      var e, c := Encrypt(y, plaintext, passphrase, nonce), y.aead.seal(y.h(passphrase), nonce, plaintext);
      && |e| == 17 + |c.0| + |c.1| && Spells(e[..5], "DZTA1") && e[5..17] == nonce
      && e[17..17 + |c.0|] == c.0 && e[17 + |c.0|..] == c.1
    ensures Decrypt(y, envelope, passphrase) ==
      if |envelope| >= 33 && Spells(envelope[..5], "DZTA1") then
        y.aead.open(y.h(passphrase), envelope[5..17], envelope[17..|envelope| - 16], envelope[|envelope| - 16..])
      else None
  {
    assert Spells(MAGIC, "DZTA1");
    var c := y.aead.seal(y.h(passphrase), nonce, plaintext);
    var e := MAGIC + nonce + c.0 + c.1;
    assert e[..5] == MAGIC && e[5..17] == nonce && e[17..17 + |c.0|] == c.0 && e[17 + |c.0|..] == c.1;
  }

  /** Every plaintext comes back under its own passphrase, from an envelope 33 bytes longer. */
  lemma EnvelopeRoundTrip(y: Crypto, plaintext: Bytes, passphrase: Bytes, nonce: Bytes)
    requires Ideal(y.aead) && |nonce| == NONCE
    ensures |Encrypt(y, plaintext, passphrase, nonce)| == |plaintext| + 33
    ensures Decrypt(y, Encrypt(y, plaintext, passphrase, nonce), passphrase) == Some(plaintext)
  {
    var c := y.aead.seal(y.h(passphrase), nonce, plaintext);
    var e := Encrypt(y, plaintext, passphrase, nonce);
    var tagStart := |e| - TAG;
    assert e[..5] == MAGIC && e[5..17] == nonce && e[17..tagStart] == c.0 && e[tagStart..] == c.1;
  }

  // ---- The legacy form: each byte XORed with the repeated key.

  /** Exclusive or of the low n bits, digit by digit. */
  function XorBits(a: nat, b: nat, n: nat): (c: nat)
    ensures c < Pow2(n)
    decreases n
  {
    if n == 0 then 0 else (if a % 2 == b % 2 then 0 else 1) + 2 * XorBits(a / 2, b / 2, n - 1)
  }

  function Xor(a: Byte, b: Byte): (c: Byte) {
    assert Pow2(8) == 256;
    XorBits(a, b, 8)
  }

  lemma {:induction false} XorBitsTwice(a: nat, b: nat, n: nat)
    requires a < Pow2(n)
    ensures XorBits(XorBits(a, b, n), b, n) == a
    decreases n
  {
    if n > 0 {
      var d, rest := if a % 2 == b % 2 then 0 else 1, XorBits(a / 2, b / 2, n - 1);
      XorBitsTwice(a / 2, b / 2, n - 1);
      Halves(d, rest);
      assert a == a % 2 + 2 * (a / 2);
    }
  }

  lemma Halves(d: nat, rest: nat)
    requires d < 2
    ensures (d + 2 * rest) / 2 == rest && (d + 2 * rest) % 2 == d
  {
  }

  /** Bit k of a number. */
  function Bit(a: nat, k: nat): (b: nat) { a / Pow2(k) % 2 }

  lemma HalfThenShift(a: nat, p: nat)
    requires p > 0
    ensures a / (2 * p) == a / 2 / p
  {
    var q, r := a / 2 / p, a / 2 % p;
    var d := a % 2;
    assert a == 2 * (q * p + r) + d;
    assert a == q * (2 * p) + (2 * r + d);
    assert 2 * r + d < 2 * p;
    var t := a / (2 * p) - q;
    assert a == (2 * p) * (a / (2 * p)) + a % (2 * p);
    assert t * (2 * p) == (2 * r + d) - a % (2 * p);
    MultipleInRange(t, 2 * p);
  }

  lemma BitShift(a: nat, k: nat)
    ensures Bit(a, k + 1) == Bit(a / 2, k)
  {
    HalfThenShift(a, Pow2(k));
  }

  /** Each bit of the exclusive or is set exactly when the two bits differ. */
  lemma {:induction false} XorBitsMeans(a: nat, b: nat, n: nat, k: nat)
    requires k < n
    ensures Bit(XorBits(a, b, n), k) == if Bit(a, k) == Bit(b, k) then 0 else 1
    decreases k
  {
    var d, rest := if a % 2 == b % 2 then 0 else 1, XorBits(a / 2, b / 2, n - 1);
    Halves(d, rest);
    if k > 0 {
      XorBitsMeans(a / 2, b / 2, n - 1, k - 1);
      BitShift(XorBits(a, b, n), k - 1);
      BitShift(a, k - 1);
      BitShift(b, k - 1);
    }
  }

  /** Under a nonempty key, bit k of byte i is the exclusive or of those of the data and of the repeated key. */
  lemma XorCycleMeans(data: Bytes, key: Bytes, i: nat, k: nat)
    requires key != [] && i < |data| && k < 8
    ensures |XorCycle(data, key)| == |data|
    ensures Bit(XorCycle(data, key)[i], k) == if Bit(data[i], k) == Bit(key[i % |key|], k) then 0 else 1
  {
    XorBitsMeans(data[i], key[i % |key|], 8, k);
  }

  /** An empty key pairs with nothing, so the result is empty. */
  function XorCycle(data: Bytes, key: Bytes): (out: Bytes) {
    if key == [] then [] else seq(|data|, i requires 0 <= i < |data| => Xor(data[i], key[i % |key|]))
  }

  /** Cyclic XOR with a nonempty key undoes itself; with an empty key it loses everything. */
  lemma XorTwice(data: Bytes, key: Bytes)
    ensures XorCycle(XorCycle(data, key), key) == data <==> key != [] || data == []
  {
    if key != [] {
      forall i | 0 <= i < |data| ensures XorCycle(XorCycle(data, key), key)[i] == data[i] {
        assert Pow2(8) == 256;
        XorBitsTwice(data[i], key[i % |key|], 8);
      }
    }
  }
}
