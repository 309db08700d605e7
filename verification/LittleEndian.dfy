/** Powers of two, 64-bit words and their little-endian bytes. */
module LittleEndian {
  import opened Arithmetic

  const TWO64: nat := 0x1_0000_0000_0000_0000

  type Byte = b: nat | b < 256
  type Word = w: nat | w < TWO64

  function Pow2(k: nat): (p: nat)
    ensures p > 0
  {
    if k == 0 then 1 else 2 * Pow2(k - 1)
  }

  /** The `k` low bytes of `w`, least significant first. */
  function ToBytes(w: nat, k: nat): (bs: seq<Byte>)
    ensures |bs| == k
  {
    if k == 0 then [] else [w % 256] + ToBytes(w / 256, k - 1)
  }

  function FromBytes(bs: seq<Byte>): nat {
    if bs == [] then 0 else bs[0] + 256 * FromBytes(bs[1..])
  }

  lemma {:induction false} Pow2Add(j: nat, k: nat)
    ensures Pow2(j + k) == Pow2(j) * Pow2(k)
  {
    if j > 0 {
      Pow2Add(j - 1, k);
    }
  }

  lemma Pow2At64()
    ensures Pow2(8) == 256
    ensures Pow2(64) == TWO64
  {
    assert Pow2(8) == 256;
    Pow2Add(8, 8);
    assert Pow2(16) == 65536;
    Pow2Add(16, 16);
    assert Pow2(32) == 0x1_0000_0000;
    Pow2Add(32, 32);
  }

  /** Reading the bytes back gives the low `8 * k` bits of the word. */
  lemma {:induction false} BytesRoundTrip(w: nat, k: nat)
    requires w < Pow2(8 * k)
    ensures FromBytes(ToBytes(w, k)) == w
  {
    if k > 0 {
      Pow2Add(8, 8 * (k - 1));
      Pow2At64();
      assert ToBytes(w, k)[1..] == ToBytes(w / 256, k - 1);
      BytesRoundTrip(w / 256, k - 1);
    }
  }

  /** Every byte string is the encoding of the number it spells. */
  lemma {:induction false} ValueRoundTrip(bs: seq<Byte>)
    ensures FromBytes(bs) < Pow2(8 * |bs|)
    ensures ToBytes(FromBytes(bs), |bs|) == bs
  {
    if bs != [] {
      ValueRoundTrip(bs[1..]);
      Pow2Add(8, 8 * (|bs| - 1));
      Pow2At64();
      assert FromBytes(bs) % 256 == bs[0];
      assert FromBytes(bs) / 256 == FromBytes(bs[1..]);
    }
  }

  /** Byte `i` of a word, counted from the low end. */
  lemma {:induction false} ByteAt(w: nat, k: nat, i: nat)
    requires i < k
    ensures ToBytes(w, k)[i] == w / Pow2(8 * i) % 256
  {
    if i > 0 {
      ByteAt(w / 256, k - 1, i - 1);
      Pow2Add(8, 8 * (i - 1));
      Pow2At64();
      DivideTwice(w, 256, Pow2(8 * (i - 1)));
    }
  }

  lemma DivideTwice(w: nat, c: nat, d: nat)
    requires c > 0 && d > 0
    ensures c * d > 0 && w / c / d == w / (c * d)
  {
    var q := w / c;
    DivMod(w, c);
    DivMod(q, d);
    assert c * (d * (q / d) + q % d) == (c * d) * (q / d) + c * (q % d);
    MulStep(c, q % d, d);
    MulMono(c, 0, q % d);
    DivUnique(w, c * d, q / d, c * (q % d) + w % c);
  }
}
