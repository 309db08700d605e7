/** The SplitMix64 generator behind corpus generation and the bootstrap.
    Words are naturals below 2^64, so every wrap-around is written out. */
module SplitMix64 {
  import opened Arithmetic
  import opened LittleEndian

  const GAMMA: nat := 0x9E37_79B9_7F4A_7C15
  const MUL1: nat := 0xBF58_476D_1CE4_E5B9
  const MUL2: nat := 0x94D0_49BB_1331_11EB

  /** Bitwise exclusive or. */
  function Xor(a: nat, b: nat): nat
    decreases a + b
  {
    if a == 0 && b == 0 then 0 else (a % 2 + b % 2) % 2 + 2 * Xor(a / 2, b / 2)
  }

  /** The logical right shift. */
  function Shr(x: nat, k: nat): (r: nat)
    ensures r <= x
    ensures k > 0 && x > 0 ==> r < x
  {
    if k == 0 then x else Shr(x / 2, k - 1)
  }

  function XorShift(z: nat, k: nat): nat {
    Xor(z, Shr(z, k))
  }

  /** One xor-shift-multiply round. */
  function Round(z: Word, k: nat, c: nat): (r: Word) {
    XorShift(z, k) * c % TWO64
  }

  /** The finalizer: two rounds and a last xor-shift. */
  function Mix(state: Word): (z: Word) {
    var z2 := Round(Round(state, 30, MUL1), 27, MUL2);
    XorShiftIsWord(z2, 31);
    XorShift(z2, 31)
  }

  /** The state after `k` draws from `seed`, in closed form. */
  function StateAt(seed: Word, k: nat): Word {
    (seed + k * GAMMA) % TWO64
  }

  /** The `k`-th word of the stream, counting from zero. */
  function Output(seed: Word, k: nat): Word {
    Mix(StateAt(seed, k + 1))
  }

  /** Lemire's multiply-shift reduction of one word. */
  function Reduce(w: Word, n: Word): (r: Word)
    requires n > 0
    ensures r < n
  {
    ReduceBound(w, n);
    w * n / TWO64
  }

  lemma ReduceBound(w: Word, n: Word)
    requires n > 0
    ensures 0 <= w * n / TWO64 < n
  {
    MulStep(n, w, TWO64);
    MulMono(n, 0, w);
    DivMod(w * n, TWO64);
    assert TWO64 * (w * n / TWO64) < TWO64 * n;
  }

  // ---- the xor-shift is a bijection ----

  lemma {:induction false} XorBound(a: nat, b: nat, n: nat)
    requires a < Pow2(n) && b < Pow2(n)
    ensures Xor(a, b) < Pow2(n)
  {
    if n > 0 && (a > 0 || b > 0) {
      XorBound(a / 2, b / 2, n - 1);
    }
  }

  lemma XorShiftIsWord(z: Word, k: nat)
    ensures XorShift(z, k) < TWO64
  {
    Pow2At64();
    XorBound(z, Shr(z, k), 64);
  }

  lemma {:induction false} XorCancel(a: nat, b: nat, c: nat)
    requires Xor(a, c) == Xor(b, c)
    ensures a == b
    decreases a + b + c
  {
    if a + b + c > 0 {
      XorLowBit(a, c);
      XorLowBit(b, c);
      XorCancel(a / 2, b / 2, c / 2);
    }
  }

  lemma XorLowBit(a: nat, b: nat)
    ensures Xor(a, b) % 2 == (a % 2 + b % 2) % 2
    ensures Xor(a, b) / 2 == Xor(a / 2, b / 2)
  {
  }

  lemma {:induction false} ShrXor(a: nat, b: nat, k: nat)
    ensures Shr(Xor(a, b), k) == Xor(Shr(a, k), Shr(b, k))
  {
    if k > 0 {
      XorLowBit(a, b);
      ShrXor(a / 2, b / 2, k - 1);
    }
  }

  /** A shifted xor-shift is the xor-shift of the shifted word, so the high
      bits recover the low ones step by step. */
  lemma {:induction false} XorShiftInjective(y: nat, z: nat, k: nat)
    requires k > 0
    requires XorShift(y, k) == XorShift(z, k)
    ensures y == z
    decreases y + z
  {
    if y + z > 0 {
      ShrXor(y, Shr(y, k), k);
      ShrXor(z, Shr(z, k), k);
      XorShiftInjective(Shr(y, k), Shr(z, k), k);
      XorCancel(y, z, Shr(y, k));
    }
  }

  // ---- multiplication by an odd constant is a bijection ----

  /** `c` has inverse `i` modulo 2^64, so equal products come from words that
      differ by a multiple of 2^64. */
  lemma OddFactorCancels(x: int, c: nat, i: nat, m: nat, q: int)
    requires c * i == 1 + m * TWO64
    requires x * c == q * TWO64
    ensures x == (q * i - m * x) * TWO64
  {
    calc {
      x;
      x * (c * i) - x * (m * TWO64);
      { assert x * (c * i) == (x * c) * i; }
      (x * c) * i - x * (m * TWO64);
      (q * TWO64) * i - x * (m * TWO64);
      { assert (q * TWO64) * i == (q * i) * TWO64; assert x * (m * TWO64) == (m * x) * TWO64; }
      (q * i) * TWO64 - (m * x) * TWO64;
      (q * i - m * x) * TWO64;
    }
  }

  /** A multiple of `c` is a multiple of 2^64 only when the other factor is. */
  lemma OddFactorIsUnit(x: int, c: nat, i: nat, m: nat)
    requires c * i == 1 + m * TWO64
    ensures x * c % TWO64 == 0 <==> x % TWO64 == 0
  {
    if x * c % TWO64 == 0 {
      var q := x * c / TWO64;
      OddFactorCancels(x, c, i, m, q);
      DivUnique(x, TWO64, q * i - m * x, 0);
    }
    if x % TWO64 == 0 {
      var p := x / TWO64;
      assert x * c == TWO64 * (p * c);
      DivUnique(x * c, TWO64, p * c, 0);
    }
  }

  lemma RoundInjective(y: Word, z: Word, k: nat, c: nat, i: nat, m: nat)
    requires k > 0 && c * i == 1 + m * TWO64
    requires Round(y, k, c) == Round(z, k, c)
    ensures y == z
  {
    XorShiftIsWord(y, k);
    XorShiftIsWord(z, k);
    var a, b := XorShift(y, k), XorShift(z, k);
    ModEqual(a * c, b * c, TWO64);
    assert a * c - b * c == (a - b) * c;
    OddFactorIsUnit(a - b, c, i, m);
    ModEqual(a, b, TWO64);
    XorShiftInjective(y, z, k);
  }

  const MUL1_INV: nat := 0x96DE_1B17_3F11_9089
  const MUL2_INV: nat := 0x3196_42B2_D24D_8EC3
  const GAMMA_INV: nat := 0xF1DE_83E1_9937_733D
  const MUL1_CARRY: nat := 0x70c3bca78f27f46c
  const MUL2_CARRY: nat := 0x1cd336eda85f1453
  const GAMMA_CARRY: nat := 0x957bbf35006ed677

  lemma MixInjective(y: Word, z: Word)
    requires Mix(y) == Mix(z)
    ensures y == z
  {
    var y1, z1 := Round(y, 30, MUL1), Round(z, 30, MUL1);
    XorShiftInjective(Round(y1, 27, MUL2), Round(z1, 27, MUL2), 31);
    RoundInjective(y1, z1, 27, MUL2, MUL2_INV, MUL2_CARRY);
    RoundInjective(y, z, 30, MUL1, MUL1_INV, MUL1_CARRY);
  }

  // ---- the stream ----

  lemma StateAdvance(seed: Word, j: nat, k: nat)
    ensures StateAt(seed, 0) == seed
    ensures StateAt(StateAt(seed, j), k) == StateAt(seed, j + k)
  {
    ModAdd(seed + j * GAMMA, k * GAMMA, TWO64);
    assert seed + j * GAMMA + k * GAMMA == seed + (j + k) * GAMMA;
  }

  /** Drawing from a generator already advanced by `j` words continues its
      stream. */
  lemma DrawsContinue(seed: Word, j: nat)
    ensures Output(StateAt(seed, j), 0) == Output(seed, j)
    ensures StateAt(StateAt(seed, j), 1) == StateAt(seed, j + 1)
  {
    StateAdvance(seed, j, 1);
  }

  lemma StatesMeet(seed: Word, i: nat, j: nat)
    ensures StateAt(seed, i) == StateAt(seed, j) <==> (i - j) % TWO64 == 0
  {
    var x, y := seed + i * GAMMA, seed + j * GAMMA;
    assert x - y == (i - j) * GAMMA;
    ModEqual(x, y, TWO64);
    OddFactorIsUnit(i - j, GAMMA, GAMMA_INV, GAMMA_CARRY);
  }

  /** Two draws of one seed agree exactly when they are a multiple of 2^64
      apart: the period is 2^64 and no word repeats inside it. */
  lemma OutputsRepeatExactlyAtThePeriod(seed: Word, i: nat, j: nat)
    ensures Output(seed, i) == Output(seed, j) <==> (i - j) % TWO64 == 0
  {
    StatesMeet(seed, i + 1, j + 1);
    if Output(seed, i) == Output(seed, j) {
      MixInjective(StateAt(seed, i + 1), StateAt(seed, j + 1));
    }
  }

  lemma FirstOutputsAreDistinct(seed: Word, i: nat, j: nat)
    requires i < j < TWO64
    ensures Output(seed, i) != Output(seed, j)
  {
    OutputsRepeatExactlyAtThePeriod(seed, i, j);
    ModEqual(i, j, TWO64);
    DivUnique(i, TWO64, 0, i);
    DivUnique(j, TWO64, 0, j);
  }

  // ---- the bounded draw ----

  function CeilDiv(x: nat, n: nat): (c: nat)
    requires n > 0
    ensures n * c >= x > n * c - n
  {
    DivMod(x + n - 1, n);
    DivShrinks(x + n - 1, n);
    (x + n - 1) / n
  }

  /** The words a bounded draw sends to `v` are one interval. */
  lemma DrawPreimageIsAnInterval(w: Word, n: Word, v: nat)
    requires v < n
    ensures Reduce(w, n) == v <==> CeilDiv(v * TWO64, n) <= w < CeilDiv((v + 1) * TWO64, n)
  {
    var lo, hi := CeilDiv(v * TWO64, n), CeilDiv((v + 1) * TWO64, n);
    DivMod(w * n, TWO64);
    assert Reduce(w, n) == v <==> v * TWO64 <= n * w < (v + 1) * TWO64;
    AtLeastCeil(w, n, v * TWO64);
    AtLeastCeil(w, n, (v + 1) * TWO64);
  }

  lemma AtLeastCeil(w: nat, n: nat, x: nat)
    requires n > 0
    ensures n * w >= x <==> w >= CeilDiv(x, n)
  {
    var c := CeilDiv(x, n);
    if w >= c {
      MulMono(n, c, w);
    } else {
      MulStep(n, w, c);
    }
  }

  function Interval(lo: nat, hi: nat): (s: set<nat>)
    requires lo <= hi
    ensures forall w: nat :: w in s <==> lo <= w < hi
    ensures |s| == hi - lo
    decreases hi - lo
  {
    if lo == hi then {} else Interval(lo, hi - 1) + {hi - 1}
  }

  /** A bounded draw is biased by at most one word: each value below `n` is the
      image of floor or ceiling of 2^64 / n words. */
  lemma DrawIsUniformToOneWord(n: Word, v: nat, pre: set<nat>)
    requires v < n
    requires pre == set w: nat | w < TWO64 && w * n / TWO64 == v
    ensures |pre| == TWO64 / n || |pre| == CeilDiv(TWO64, n)
  {
    var lo, hi := CeilDiv(v * TWO64, n), CeilDiv((v + 1) * TWO64, n);
    AtLeastCeil(TWO64, n, (v + 1) * TWO64);
    MulMono(TWO64, v + 1, n);
    AtLeastCeil(hi, n, v * TWO64);
    forall w: nat
      ensures w in pre <==> lo <= w < hi
    {
      if w < TWO64 {
        DrawPreimageIsAnInterval(w, n, v);
      }
    }
    assert pre == Interval(lo, hi);
    GapIsFloorOrCeil(n, v * TWO64, lo, hi);
  }

  lemma GapIsFloorOrCeil(n: nat, x: nat, lo: nat, hi: nat)
    requires n > 0
    requires n * lo >= x > n * lo - n
    requires n * hi >= x + TWO64 > n * hi - n
    ensures hi - lo == TWO64 / n || hi - lo == CeilDiv(TWO64, n)
  {
    var g := hi - lo;
    assert n * g == n * hi - n * lo;
    if n * g <= TWO64 {
      DivUnique(TWO64, n, g, TWO64 - n * g);
    } else {
      AtLeastCeil(g, n, TWO64);
      if CeilDiv(TWO64, n) < g {
        MulStep(n, CeilDiv(TWO64, n), g);
      }
    }
  }

  // ---- the generator object ----

  const ALPHABET: string := "abcdefghijklmnopqrstuvwxyzABCDEFGHIJKLMNOPQRSTUVWXYZ0123456789 ."

  /** Byte `i` of the byte stream a state yields: byte `i % 8` of word `i / 8`. */
  function StreamByte(state: Word, i: nat): Byte {
    ToBytes(Output(state, i / 8), 8)[i % 8]
  }

  /** Character `i` of the text stream: six bits of word `i / 8`. */
  function StreamChar(state: Word, i: nat): char {
    ALPHABET[Shr(Output(state, i / 8), 6 * (i % 8)) % 64]
  }

  /** The first `n` bytes of the byte stream. */
  ghost function Bytes(state: Word, n: nat): (s: seq<Byte>)
    ensures |s| == n
  {
    seq(n, i requires 0 <= i < n => StreamByte(state, i))
  }

  /** The first `n` characters of the text stream. */
  ghost function Text(state: Word, n: nat): (s: string)
    ensures |s| == n
  {
    seq(n, i requires 0 <= i < n => StreamChar(state, i))
  }

  lemma StreamByteAt(state: Word, words: nat, k: nat)
    requires k < 8
    ensures StreamByte(state, 8 * words + k) == ToBytes(Output(state, words), 8)[k]
  {
    PlaceInWord(words, k);
  }

  lemma BytesOneMoreWord(state: Word, words: nat, len: nat)
    requires len <= 8
    ensures Bytes(state, 8 * words) + ToBytes(Output(state, words), 8)[..len] == Bytes(state, 8 * words + len)
  {
    var start, word := 8 * words, ToBytes(Output(state, words), 8);
    forall k | 0 <= k < len
      ensures StreamByte(state, start + k) == word[k]
    {
      StreamByteAt(state, words, k);
    }
    assert |word| == 8;
    WordAppended(state, start, word[..len]);
  }

  lemma WordAppended(state: Word, start: nat, bytes: seq<Byte>)
    requires forall k | 0 <= k < |bytes| :: StreamByte(state, start + k) == bytes[k]
    ensures Bytes(state, start) + bytes == Bytes(state, start + |bytes|)
  {
  }

  lemma TextOneMore(state: Word, words: nat, k: nat)
    requires k < 8
    ensures Text(state, 8 * words + k) + [ALPHABET[Shr(Output(state, words), 6 * k) % 64]]
         == Text(state, 8 * words + k + 1)
  {
    PlaceInWord(words, k);
  }

  method CopyFrom(buf: array<Byte>, at: nat, bytes: seq<Byte>)
    requires at + |bytes| <= buf.Length
    modifies buf
    ensures buf[..at + |bytes|] == old(buf[..at]) + bytes
  {
    for k := 0 to |bytes|
      invariant buf[..at + k] == old(buf[..at]) + bytes[..k]
    {
      buf[at + k] := bytes[k];
    }
  }

  class Generator {
    var state: Word

    constructor (seed: Word)
      ensures state == seed
    {
      state := seed;
    }

    method NextU64() returns (w: Word)
      modifies this
      ensures w == Output(old(state), 0)
      ensures state == StateAt(old(state), 1)
    {
      state := (state + GAMMA) % TWO64;
      w := Mix(state);
    }

    /** A bound of zero answers zero and draws nothing; any other bound draws
        exactly one word. */
    method Below(n: Word) returns (r: Word)
      modifies this
      ensures n == 0 ==> r == 0 && state == old(state)
      ensures n > 0 ==> r == Reduce(Output(old(state), 0), n)
      ensures state == StateAt(old(state), 1) <==> n > 0
    {
      if n == 0 {
        return 0;
      }
      var w := NextU64();
      r := Reduce(w, n);
    }

    method FillBytes(buf: array<Byte>)
      modifies this, buf
      ensures buf[..] == Bytes(old(state), buf.Length)
      ensures state == StateAt(old(state), (buf.Length + 7) / 8)
    {
      StateAdvance(state, 0, 0);
      ghost var words := 0;
      var at := 0;
      while at < buf.Length
        invariant at == if 8 * words <= buf.Length then 8 * words else buf.Length
        invariant 8 * words < buf.Length + 8
        invariant state == StateAt(old(state), words)
        invariant buf[..at] == Bytes(old(state), at)
      {
        var len := if buf.Length - at < 8 then buf.Length - at else 8;
        StateAdvance(old(state), words, 1);
        BytesOneMoreWord(old(state), words, len);
        var w := NextU64();
        CopyFrom(buf, at, ToBytes(w, 8)[..len]);
        at := at + len;
        words := words + 1;
      }
      assert buf[..at] == buf[..];
    }

    method Ascii(len: nat) returns (out: string)
      modifies this
      ensures out == Text(old(state), len)
      ensures state == StateAt(old(state), (len + 7) / 8)
    {
      StateAdvance(state, 0, 0);
      ghost var words := 0;
      out := [];
      while |out| < len
        invariant |out| == if 8 * words <= len then 8 * words else len
        invariant 8 * words < len + 8
        invariant state == StateAt(old(state), words)
        invariant out == Text(old(state), |out|)
      {
        StateAdvance(old(state), words, 1);
        ghost var start := Output(old(state), words);
        var word: nat := NextU64();
        var k := 0;
        while k < 8 && |out| < len
          invariant 0 <= k <= 8
          invariant |out| == 8 * words + k <= len
          invariant word == Shr(start, 6 * k)
          invariant state == StateAt(old(state), words + 1)
          invariant out == Text(old(state), 8 * words + k)
        {
          TextOneMore(old(state), words, k);
          out := out + [ALPHABET[word % 64]];
          NextSixBits(start, k);
          word := Shr(word, 6);
          k := k + 1;
        }
        words := words + 1;
      }
    }
  }

  lemma PlaceInWord(words: nat, k: nat)
    requires k < 8
    ensures (8 * words + k) / 8 == words && (8 * words + k) % 8 == k
  {
  }

  lemma NextSixBits(word: Word, k: nat)
    ensures Shr(Shr(word, 6 * k), 6) == Shr(word, 6 * (k + 1))
  {
    ShrShr(word, 6 * k, 6);
  }

  lemma {:induction false} ShrShr(x: nat, j: nat, k: nat)
    ensures Shr(Shr(x, j), k) == Shr(x, j + k)
  {
    if j > 0 {
      ShrShr(x / 2, j - 1, k);
    }
  }

  // ---- the two streams, by arithmetic ----

  /** Shifting right is dividing by a power of two. */
  lemma {:induction false} ShrIsDivision(x: nat, k: nat)
    ensures Shr(x, k) == x / Pow2(k)
  {
    if k > 0 {
      ShrIsDivision(x / 2, k - 1);
      DivideTwice(x, 2, Pow2(k - 1));
    }
  }

  /** Byte `i` of what fills a buffer is byte `i % 8`, counted from the low end, of
      word `i / 8`. */
  lemma BytesAreLittleEndian(state: Word, n: nat, i: nat)
    requires i < n
    ensures Bytes(state, n)[i] == Output(state, i / 8) / Pow2(8 * (i % 8)) % 256
  {
    ByteAt(Output(state, i / 8), 8, i % 8);
  }

  /** Character `i` of a text is picked by six bits of word `i / 8`, counted from
      the low end. */
  lemma TextIsSixBitsACharacter(state: Word, n: nat, i: nat)
    requires i < n
    ensures Text(state, n)[i]
         == "abcdefghijklmnopqrstuvwxyzABCDEFGHIJKLMNOPQRSTUVWXYZ0123456789 ."
              [Output(state, i / 8) / Pow2(6 * (i % 8)) % 64]
  {
    ShrIsDivision(Output(state, i / 8), 6 * (i % 8));
  }
}
