/** The published answers of the generator, hexadecimal digit by digit. */
module SplitMix64Vectors {
  import opened Arithmetic
  import opened LittleEndian
  import opened SplitMix64

  type Bit = b: nat | b < 2

  function Diff(p: Bit, q: Bit): Bit {
    if p != q then 1 else 0
  }

  lemma XorDouble(a: nat, b: nat, p: Bit, q: Bit, u: nat, v: nat)
    requires u == 2 * a + p && v == 2 * b + q
    ensures Xor(u, v) == 2 * Xor(a, b) + Diff(p, q)
  {
    assert u / 2 == a && v / 2 == b;
  }

  lemma XorTwo(a: nat, b: nat, p: Bit, q: Bit, r: Bit, s: Bit, u: nat, v: nat)
    requires u == 4 * a + 2 * p + r && v == 4 * b + 2 * q + s
    ensures Xor(u, v) == 4 * Xor(a, b) + 2 * Diff(p, q) + Diff(r, s)
  {
    var a1, b1 := 2 * a + p, 2 * b + q;
    assert Xor(a1, b1) == 2 * Xor(a, b) + Diff(p, q) by {
      XorDouble(a, b, p, q, a1, b1);
    }
    assert Xor(u, v) == 2 * Xor(a1, b1) + Diff(r, s) by {
      XorDouble(a1, b1, r, s, u, v);
    }
  }

  datatype Bits4 = Bits4(b3: Bit, b2: Bit, b1: Bit, b0: Bit) {
    function Value(): nat {
      8 * b3 + 4 * b2 + 2 * b1 + b0
    }

    function Plus(q: Bits4): Bits4 {
      Bits4(Diff(b3, q.b3), Diff(b2, q.b2), Diff(b1, q.b1), Diff(b0, q.b0))
    }
  }

  datatype Hex = H0 | H1 | H2 | H3 | H4 | H5 | H6 | H7 | H8 | H9 | HA | HB | HC | HD | HE | HF {
    function Value(): nat {
      match this
      case H0 => 0
      case H1 => 1
      case H2 => 2
      case H3 => 3
      case H4 => 4
      case H5 => 5
      case H6 => 6
      case H7 => 7
      case H8 => 8
      case H9 => 9
      case HA => 10
      case HB => 11
      case HC => 12
      case HD => 13
      case HE => 14
      case HF => 15
    }

    function Bits(): Bits4 {
      match this
      case H0 => Bits4(0, 0, 0, 0)
      case H1 => Bits4(0, 0, 0, 1)
      case H2 => Bits4(0, 0, 1, 0)
      case H3 => Bits4(0, 0, 1, 1)
      case H4 => Bits4(0, 1, 0, 0)
      case H5 => Bits4(0, 1, 0, 1)
      case H6 => Bits4(0, 1, 1, 0)
      case H7 => Bits4(0, 1, 1, 1)
      case H8 => Bits4(1, 0, 0, 0)
      case H9 => Bits4(1, 0, 0, 1)
      case HA => Bits4(1, 0, 1, 0)
      case HB => Bits4(1, 0, 1, 1)
      case HC => Bits4(1, 1, 0, 0)
      case HD => Bits4(1, 1, 0, 1)
      case HE => Bits4(1, 1, 1, 0)
      case HF => Bits4(1, 1, 1, 1)
    }

    /** Exclusive or, digit by digit. */
    function Plus(h: Hex): Hex {
      var p, q := Bits(), h.Bits();
      FromBits(p.b3 != q.b3, p.b2 != q.b2, p.b1 != q.b1, p.b0 != q.b0)
    }
  }

  function FromBits(b3: bool, b2: bool, b1: bool, b0: bool): Hex {
    if b3 then
      if b2 then (if b1 then (if b0 then HF else HE) else if b0 then HD else HC)
      else (if b1 then (if b0 then HB else HA) else if b0 then H9 else H8)
    else
      if b2 then (if b1 then (if b0 then H7 else H6) else if b0 then H5 else H4)
      else (if b1 then (if b0 then H3 else H2) else if b0 then H1 else H0)
  }

  lemma HexBits(h: Hex)
    ensures h.Value() == h.Bits().Value()
  {
  }

  lemma PlusValue(p: Bits4, q: Bits4)
    ensures FromBits(p.b3 != q.b3, p.b2 != q.b2, p.b1 != q.b1, p.b0 != q.b0).Value() == p.Plus(q).Value()
  {
    FromBitsValue(p.b3 != q.b3, p.b2 != q.b2, p.b1 != q.b1, p.b0 != q.b0);
  }

  lemma FromBitsValue(b3: bool, b2: bool, b1: bool, b0: bool)
    ensures FromBits(b3, b2, b1, b0).Value()
         == (if b3 then 8 else 0) + (if b2 then 4 else 0) + (if b1 then 2 else 0) + if b0 then 1 else 0
  {
  }

  lemma XorFour(a: nat, b: nat, p3: Bit, p2: Bit, p1: Bit, p0: Bit, q3: Bit, q2: Bit, q1: Bit, q0: Bit, u: nat, v: nat)
    requires u == 16 * a + 8 * p3 + 4 * p2 + 2 * p1 + p0 && v == 16 * b + 8 * q3 + 4 * q2 + 2 * q1 + q0
    ensures Xor(u, v) == 16 * Xor(a, b)
      + 8 * Diff(p3, q3) + 4 * Diff(p2, q2) + 2 * Diff(p1, q1) + Diff(p0, q0)
  {
    var a1, b1 := 4 * a + 2 * p3 + p2, 4 * b + 2 * q3 + q2;
    XorTwo(a, b, p3, q3, p2, q2, a1, b1);
    XorTwo(a1, b1, p1, q1, p0, q0, u, v);
  }

  lemma XorBits(a: nat, b: nat, p: Bits4, q: Bits4, u: nat, v: nat)
    requires u == 16 * a + p.Value() && v == 16 * b + q.Value()
    ensures Xor(u, v) == 16 * Xor(a, b) + p.Plus(q).Value()
  {
    XorFour(a, b, p.b3, p.b2, p.b1, p.b0, q.b3, q.b2, q.b1, q.b0, u, v);
  }

  lemma XorVia(a: nat, b: nat, g: Hex, h: Hex, p: Bits4, q: Bits4, u: nat, v: nat)
    requires g.Value() == p.Value() && h.Value() == q.Value() && g.Plus(h).Value() == p.Plus(q).Value()
    requires u == 16 * a + g.Value() && v == 16 * b + h.Value()
    ensures Xor(u, v) == 16 * Xor(a, b) + g.Plus(h).Value()
  {
    XorBits(a, b, p, q, u, v);
  }

  lemma PlusOfBits(g: Hex, h: Hex)
    ensures g.Plus(h).Value() == g.Bits().Plus(h.Bits()).Value()
  {
    PlusValue(g.Bits(), h.Bits());
  }

  lemma XorHex(a: nat, b: nat, g: Hex, h: Hex, u: nat, v: nat)
    requires u == 16 * a + g.Value() && v == 16 * b + h.Value()
    ensures Xor(u, v) == 16 * Xor(a, b) + g.Plus(h).Value()
  {
    HexBits(g);
    HexBits(h);
    PlusOfBits(g, h);
    XorVia(a, b, g, h, g.Bits(), h.Bits(), u, v);
  }

  datatype Quad = Quad(h3: Hex, h2: Hex, h1: Hex, h0: Hex) {
    function Value(): nat {
      4096 * h3.Value() + 256 * h2.Value() + 16 * h1.Value() + h0.Value()
    }

    function Plus(q: Quad): Quad {
      Quad(h3.Plus(q.h3), h2.Plus(q.h2), h1.Plus(q.h1), h0.Plus(q.h0))
    }
  }

  lemma XorQuad(a: nat, b: nat, p: Quad, q: Quad, u: nat, v: nat)
    requires u == 65536 * a + p.Value() && v == 65536 * b + q.Value()
    ensures Xor(u, v) == 65536 * Xor(a, b) + p.Plus(q).Value()
  {
    var a3, b3 := 16 * a + p.h3.Value(), 16 * b + q.h3.Value();
    var a2, b2 := 16 * a3 + p.h2.Value(), 16 * b3 + q.h2.Value();
    var a1, b1 := 16 * a2 + p.h1.Value(), 16 * b2 + q.h1.Value();
    XorHex(a, b, p.h3, q.h3, a3, b3);
    XorHex(a3, b3, p.h2, q.h2, a2, b2);
    XorHex(a2, b2, p.h1, q.h1, a1, b1);
    XorHex(a1, b1, p.h0, q.h0, u, v);
  }

  /** A word by its digits, the most significant first. */
  datatype Digits = Digits(q3: Quad, q2: Quad, q1: Quad, q0: Quad) {
    function Value(): nat {
      0x1_0000_0000_0000 * q3.Value() + 0x1_0000_0000 * q2.Value() + 0x1_0000 * q1.Value() + q0.Value()
    }

    function Plus(d: Digits): Digits {
      Digits(q3.Plus(d.q3), q2.Plus(d.q2), q1.Plus(d.q1), q0.Plus(d.q0))
    }
  }

  lemma XorOfDigits(x: Digits, y: Digits)
    ensures Xor(x.Value(), y.Value()) == x.Plus(y).Value()
  {
    var a3, b3 := x.q3.Value(), y.q3.Value();
    var a2, b2 := 65536 * a3 + x.q2.Value(), 65536 * b3 + y.q2.Value();
    var a1, b1 := 65536 * a2 + x.q1.Value(), 65536 * b2 + y.q1.Value();
    XorQuad(0, 0, x.q3, y.q3, a3, b3);
    XorQuad(a3, b3, x.q2, y.q2, a2, b2);
    XorQuad(a2, b2, x.q1, y.q1, a1, b1);
    XorQuad(a1, b1, x.q0, y.q0, x.Value(), y.Value());
  }

  // ---- shifts ----

  lemma ShiftWidths()
    ensures Pow2(27) == 0x800_0000 && Pow2(30) == 0x4000_0000 && Pow2(31) == 0x8000_0000
  {
    assert Pow2(9) == 512 && Pow2(10) == 1024;
    Pow2Add(9, 9);
    Pow2Add(9, 18);
    Pow2Add(10, 10);
    Pow2Add(10, 20);
  }

  lemma ShiftOf(z: nat, k: nat)
    requires k == 27 || k == 30 || k == 31
    ensures Shr(z, k) == z / (if k == 27 then 0x800_0000 else if k == 30 then 0x4000_0000 else 0x8000_0000)
  {
    ShrIsDivision(z, k);
    ShiftWidths();
  }

  /** The xor-shift of a word given by its digits, with the shifted word. */
  lemma XorShiftOfDigits(z: nat, k: nat, x: Digits, y: Digits, w: Digits, a: nat, b: nat, c: nat)
    requires z == a && x.Value() == a && y.Value() == b && w.Value() == c && w == x.Plus(y) && Shr(z, k) == b
    ensures XorShift(z, k) == c
  {
    XorOfDigits(x, y);
  }

  // ---- the first three words of seed 0 ----

  lemma FirstDigits1() returns (x: Digits, y: Digits, w: Digits)
    ensures x.Value() == 0x9E37_79B9_7F4A_7C15 && y.Value() == 0x0000_0002_78DD_E6E5
    ensures w.Value() == 0x9E37_79BB_0797_9AF0 && w == x.Plus(y)
  {
    x := Digits(Quad(H9, HE, H3, H7), Quad(H7, H9, HB, H9), Quad(H7, HF, H4, HA), Quad(H7, HC, H1, H5));
    y := Digits(Quad(H0, H0, H0, H0), Quad(H0, H0, H0, H2), Quad(H7, H8, HD, HD), Quad(HE, H6, HE, H5));
    w := Digits(Quad(H9, HE, H3, H7), Quad(H7, H9, HB, HB), Quad(H0, H7, H9, H7), Quad(H9, HA, HF, H0));
  }

  lemma FirstShift1(z: Word)
    requires z == 0x9E37_79B9_7F4A_7C15
    ensures XorShift(z, 30) == 0x9E37_79BB_0797_9AF0
  {
    ShiftOf(z, 30);
    var x, y, w := FirstDigits1();
    XorShiftOfDigits(z, 30, x, y, w, 0x9E37_79B9_7F4A_7C15, 0x0000_0002_78DD_E6E5, 0x9E37_79BB_0797_9AF0);
  }

  lemma FirstDigits2() returns (x: Digits, y: Digits, w: Digits)
    ensures x.Value() == 0x6F68_261B_57E7_A770 && y.Value() == 0x0000_000D_ED04_C36A
    ensures w.Value() == 0x6F68_2616_BAE3_641A && w == x.Plus(y)
  {
    x := Digits(Quad(H6, HF, H6, H8), Quad(H2, H6, H1, HB), Quad(H5, H7, HE, H7), Quad(HA, H7, H7, H0));
    y := Digits(Quad(H0, H0, H0, H0), Quad(H0, H0, H0, HD), Quad(HE, HD, H0, H4), Quad(HC, H3, H6, HA));
    w := Digits(Quad(H6, HF, H6, H8), Quad(H2, H6, H1, H6), Quad(HB, HA, HE, H3), Quad(H6, H4, H1, HA));
  }

  lemma FirstShift2(z: Word)
    requires z == 0x6F68_261B_57E7_A770
    ensures XorShift(z, 27) == 0x6F68_2616_BAE3_641A
  {
    ShiftOf(z, 27);
    var x, y, w := FirstDigits2();
    XorShiftOfDigits(z, 27, x, y, w, 0x6F68_261B_57E7_A770, 0x0000_000D_ED04_C36A, 0x6F68_2616_BAE3_641A);
  }

  lemma FirstDigits3() returns (x: Digits, y: Digits, w: Digits)
    ensures x.Value() == 0xE220_A838_BF5C_9DDE && y.Value() == 0x0000_0001_C441_5071
    ensures w.Value() == 0xE220_A839_7B1D_CDAF && w == x.Plus(y)
  {
    x := Digits(Quad(HE, H2, H2, H0), Quad(HA, H8, H3, H8), Quad(HB, HF, H5, HC), Quad(H9, HD, HD, HE));
    y := Digits(Quad(H0, H0, H0, H0), Quad(H0, H0, H0, H1), Quad(HC, H4, H4, H1), Quad(H5, H0, H7, H1));
    w := Digits(Quad(HE, H2, H2, H0), Quad(HA, H8, H3, H9), Quad(H7, HB, H1, HD), Quad(HC, HD, HA, HF));
  }

  lemma FirstShift3(z: Word)
    requires z == 0xE220_A838_BF5C_9DDE
    ensures XorShift(z, 31) == 0xE220_A839_7B1D_CDAF
  {
    ShiftOf(z, 31);
    var x, y, w := FirstDigits3();
    XorShiftOfDigits(z, 31, x, y, w, 0xE220_A838_BF5C_9DDE, 0x0000_0001_C441_5071, 0xE220_A839_7B1D_CDAF);
  }

  lemma SecondDigits1() returns (x: Digits, y: Digits, w: Digits)
    ensures x.Value() == 0x3C6E_F372_FE94_F82A && y.Value() == 0x0000_0000_F1BB_CDCB
    ensures w.Value() == 0x3C6E_F372_0F2F_35E1 && w == x.Plus(y)
  {
    x := Digits(Quad(H3, HC, H6, HE), Quad(HF, H3, H7, H2), Quad(HF, HE, H9, H4), Quad(HF, H8, H2, HA));
    y := Digits(Quad(H0, H0, H0, H0), Quad(H0, H0, H0, H0), Quad(HF, H1, HB, HB), Quad(HC, HD, HC, HB));
    w := Digits(Quad(H3, HC, H6, HE), Quad(HF, H3, H7, H2), Quad(H0, HF, H2, HF), Quad(H3, H5, HE, H1));
  }

  lemma SecondShift1(z: Word)
    requires z == 0x3C6E_F372_FE94_F82A
    ensures XorShift(z, 30) == 0x3C6E_F372_0F2F_35E1
  {
    ShiftOf(z, 30);
    var x, y, w := SecondDigits1();
    XorShiftOfDigits(z, 30, x, y, w, 0x3C6E_F372_FE94_F82A, 0x0000_0000_F1BB_CDCB, 0x3C6E_F372_0F2F_35E1);
  }

  lemma SecondDigits2() returns (x: Digits, y: Digits, w: Digits)
    ensures x.Value() == 0x2A94_FCBF_CCB4_3499 && y.Value() == 0x0000_0005_529F_97F9
    ensures w.Value() == 0x2A94_FCBA_9E2B_A360 && w == x.Plus(y)
  {
    x := Digits(Quad(H2, HA, H9, H4), Quad(HF, HC, HB, HF), Quad(HC, HC, HB, H4), Quad(H3, H4, H9, H9));
    y := Digits(Quad(H0, H0, H0, H0), Quad(H0, H0, H0, H5), Quad(H5, H2, H9, HF), Quad(H9, H7, HF, H9));
    w := Digits(Quad(H2, HA, H9, H4), Quad(HF, HC, HB, HA), Quad(H9, HE, H2, HB), Quad(HA, H3, H6, H0));
  }

  lemma SecondShift2(z: Word)
    requires z == 0x2A94_FCBF_CCB4_3499
    ensures XorShift(z, 27) == 0x2A94_FCBA_9E2B_A360
  {
    ShiftOf(z, 27);
    var x, y, w := SecondDigits2();
    XorShiftOfDigits(z, 27, x, y, w, 0x2A94_FCBF_CCB4_3499, 0x0000_0005_529F_97F9, 0x2A94_FCBA_9E2B_A360);
  }

  lemma SecondDigits3() returns (x: Digits, y: Digits, w: Digits)
    ensures x.Value() == 0x6E78_9E6A_7D48_5920 && y.Value() == 0x0000_0000_DCF1_3CD4
    ensures w.Value() == 0x6E78_9E6A_A1B9_65F4 && w == x.Plus(y)
  {
    x := Digits(Quad(H6, HE, H7, H8), Quad(H9, HE, H6, HA), Quad(H7, HD, H4, H8), Quad(H5, H9, H2, H0));
    y := Digits(Quad(H0, H0, H0, H0), Quad(H0, H0, H0, H0), Quad(HD, HC, HF, H1), Quad(H3, HC, HD, H4));
    w := Digits(Quad(H6, HE, H7, H8), Quad(H9, HE, H6, HA), Quad(HA, H1, HB, H9), Quad(H6, H5, HF, H4));
  }

  lemma SecondShift3(z: Word)
    requires z == 0x6E78_9E6A_7D48_5920
    ensures XorShift(z, 31) == 0x6E78_9E6A_A1B9_65F4
  {
    ShiftOf(z, 31);
    var x, y, w := SecondDigits3();
    XorShiftOfDigits(z, 31, x, y, w, 0x6E78_9E6A_7D48_5920, 0x0000_0000_DCF1_3CD4, 0x6E78_9E6A_A1B9_65F4);
  }

  lemma ThirdDigits1() returns (x: Digits, y: Digits, w: Digits)
    ensures x.Value() == 0xDAA6_6D2C_7DDF_743F && y.Value() == 0x0000_0003_6A99_B4B1
    ensures w.Value() == 0xDAA6_6D2F_1746_C08E && w == x.Plus(y)
  {
    x := Digits(Quad(HD, HA, HA, H6), Quad(H6, HD, H2, HC), Quad(H7, HD, HD, HF), Quad(H7, H4, H3, HF));
    y := Digits(Quad(H0, H0, H0, H0), Quad(H0, H0, H0, H3), Quad(H6, HA, H9, H9), Quad(HB, H4, HB, H1));
    w := Digits(Quad(HD, HA, HA, H6), Quad(H6, HD, H2, HF), Quad(H1, H7, H4, H6), Quad(HC, H0, H8, HE));
  }

  lemma ThirdShift1(z: Word)
    requires z == 0xDAA6_6D2C_7DDF_743F
    ensures XorShift(z, 30) == 0xDAA6_6D2F_1746_C08E
  {
    ShiftOf(z, 30);
    var x, y, w := ThirdDigits1();
    XorShiftOfDigits(z, 30, x, y, w, 0xDAA6_6D2C_7DDF_743F, 0x0000_0003_6A99_B4B1, 0xDAA6_6D2F_1746_C08E);
  }

  lemma ThirdDigits2() returns (x: Digits, y: Digits, w: Digits)
    ensures x.Value() == 0xF1C3_DD63_22D8_2C9E && y.Value() == 0x0000_001E_387B_AC64
    ensures w.Value() == 0xF1C3_DD7D_1AA3_80FA && w == x.Plus(y)
  {
    x := Digits(Quad(HF, H1, HC, H3), Quad(HD, HD, H6, H3), Quad(H2, H2, HD, H8), Quad(H2, HC, H9, HE));
    y := Digits(Quad(H0, H0, H0, H0), Quad(H0, H0, H1, HE), Quad(H3, H8, H7, HB), Quad(HA, HC, H6, H4));
    w := Digits(Quad(HF, H1, HC, H3), Quad(HD, HD, H7, HD), Quad(H1, HA, HA, H3), Quad(H8, H0, HF, HA));
  }

  lemma ThirdShift2(z: Word)
    requires z == 0xF1C3_DD63_22D8_2C9E
    ensures XorShift(z, 27) == 0xF1C3_DD7D_1AA3_80FA
  {
    ShiftOf(z, 27);
    var x, y, w := ThirdDigits2();
    XorShiftOfDigits(z, 27, x, y, w, 0xF1C3_DD63_22D8_2C9E, 0x0000_001E_387B_AC64, 0xF1C3_DD7D_1AA3_80FA);
  }

  lemma ThirdDigits3() returns (x: Digits, y: Digits, w: Digits)
    ensures x.Value() == 0x06C4_5D18_8D81_FF7E && y.Value() == 0x0000_0000_0D88_BA31
    ensures w.Value() == 0x06C4_5D18_8009_454F && w == x.Plus(y)
  {
    x := Digits(Quad(H0, H6, HC, H4), Quad(H5, HD, H1, H8), Quad(H8, HD, H8, H1), Quad(HF, HF, H7, HE));
    y := Digits(Quad(H0, H0, H0, H0), Quad(H0, H0, H0, H0), Quad(H0, HD, H8, H8), Quad(HB, HA, H3, H1));
    w := Digits(Quad(H0, H6, HC, H4), Quad(H5, HD, H1, H8), Quad(H8, H0, H0, H9), Quad(H4, H5, H4, HF));
  }

  lemma ThirdShift3(z: Word)
    requires z == 0x06C4_5D18_8D81_FF7E
    ensures XorShift(z, 31) == 0x06C4_5D18_8009_454F
  {
    ShiftOf(z, 31);
    var x, y, w := ThirdDigits3();
    XorShiftOfDigits(z, 31, x, y, w, 0x06C4_5D18_8D81_FF7E, 0x0000_0000_0D88_BA31, 0x06C4_5D18_8009_454F);
  }

  lemma Product(x: nat, c: nat, q: nat, r: nat)
    requires x * c == TWO64 * q + r && r < TWO64
    ensures x * c % TWO64 == r
  {
    DivUnique(x * c, TWO64, q, r);
  }

  lemma MixThrough(s: Word, z1: Word, z2: Word)
    requires XorShift(s, 30) * MUL1 % TWO64 == z1
    requires XorShift(z1, 27) * MUL2 % TWO64 == z2
    ensures Mix(s) == XorShift(z2, 31)
  {
    assert Round(s, 30, MUL1) == z1;
    assert Round(z1, 27, MUL2) == z2;
  }

  lemma FirstAnswer(s: Word, z1: Word, z2: Word)
    requires s == 0x9E37_79B9_7F4A_7C15 && z1 == 0x6F68_261B_57E7_A770 && z2 == 0xE220_A838_BF5C_9DDE
    ensures Mix(s) == 0xE220_A839_7B1D_CDAF
  {
    FirstShift1(s);
    Product(0x9E37_79BB_0797_9AF0, MUL1, 0x7641_F309_3531_F526, 0x6F68_261B_57E7_A770);
    FirstShift2(z1);
    Product(0x6F68_2616_BAE3_641A, MUL2, 0x40C2_DABA_32CD_B214, 0xE220_A838_BF5C_9DDE);
    FirstShift3(z2);
    MixThrough(s, z1, z2);
  }

  lemma SecondAnswer(s: Word, z1: Word, z2: Word)
    requires s == 0x3C6E_F372_FE94_F82A && z1 == 0x2A94_FCBF_CCB4_3499 && z2 == 0x6E78_9E6A_7D48_5920
    ensures Mix(s) == 0x6E78_9E6A_A1B9_65F4
  {
    SecondShift1(s);
    Product(0x3C6E_F372_0F2F_35E1, MUL1, 0x2D2B_9EA2_501D_E6E0, 0x2A94_FCBF_CCB4_3499);
    SecondShift2(z1);
    Product(0x2A94_FCBA_9E2B_A360, MUL2, 0x18C0_C76C_D528_C995, 0x6E78_9E6A_7D48_5920);
    SecondShift3(z2);
    MixThrough(s, z1, z2);
  }

  lemma ThirdAnswer(s: Word, z1: Word, z2: Word)
    requires s == 0xDAA6_6D2C_7DDF_743F && z1 == 0xF1C3_DD63_22D8_2C9E && z2 == 0x06C4_5D18_8D81_FF7E
    ensures Mix(s) == 0x06C4_5D18_8009_454F
  {
    ThirdShift1(s);
    Product(0xDAA6_6D2F_1746_C08E, MUL1, 0xA36D_91AD_0460_0ADC, 0xF1C3_DD63_22D8_2C9E);
    ThirdShift2(z1);
    Product(0xF1C3_DD7D_1AA3_80FA, MUL2, 0x8C89_F0D1_CF67_833E, 0x06C4_5D18_8D81_FF7E);
    ThirdShift3(z2);
    MixThrough(s, z1, z2);
  }

  /** The three published words of seed 0, which fix every constant of the walk
      and of the mix. */
  lemma KnownAnswers(seed: Word)
    requires seed == 0
    ensures Output(seed, 0) == 0xE220_A839_7B1D_CDAF
    ensures Output(seed, 1) == 0x6E78_9E6A_A1B9_65F4
    ensures Output(seed, 2) == 0x06C4_5D18_8009_454F
  {
    Product(1, GAMMA, 0, 0x9E37_79B9_7F4A_7C15);
    FirstAnswer(StateAt(seed, 1), 0x6F68_261B_57E7_A770, 0xE220_A838_BF5C_9DDE);
    Product(2, GAMMA, 1, 0x3C6E_F372_FE94_F82A);
    SecondAnswer(StateAt(seed, 2), 0x2A94_FCBF_CCB4_3499, 0x6E78_9E6A_7D48_5920);
    Product(3, GAMMA, 1, 0xDAA6_6D2C_7DDF_743F);
    ThirdAnswer(StateAt(seed, 3), 0xF1C3_DD63_22D8_2C9E, 0x06C4_5D18_8D81_FF7E);
  }
}
