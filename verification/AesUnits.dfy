/** The AES units of the execute stage: the byte-wise instructions, the key
    schedule unit and the round engine, wired as in the hardware. */
module AesUnits {
  import opened Bits
  import opened AesField
  import opened AesSpec

  /** A 32-bit register; a state column or key word lies in it little-endian. */
  type Word = w: seq<bool> | |w| == 32 witness Fill(32, false)

  function ByteAt(w: Word, i: nat): (b: Byte)
    requires i < 4
  {
    w[8 * i..8 * i + 8]
  }

  function Pack(b0: Byte, b1: Byte, b2: Byte, b3: Byte): (w: Word)
  {
    b0 + b1 + b2 + b3
  }

  /** Rotation left by n bits. */
  function RotateLeft(w: Word, n: nat): (r: Word)
    requires n <= 32
  {
    w[32 - n..] + w[..32 - n]
  }

  function ToColumn(w: Word): (c: Column)
  {
    Column(ByteAt(w, 0), ByteAt(w, 1), ByteAt(w, 2), ByteAt(w, 3))
  }

  function FromColumn(c: Column): (w: Word)
  {
    Pack(c.r0, c.r1, c.r2, c.r3)
  }

  /** Four registers, st_q or krk_q. */
  datatype Quad = Quad(w0: Word, w1: Word, w2: Word, w3: Word)

  function WordOf(q: Quad, i: nat): (w: Word)
  {
    if i == 0 then q.w0 else if i == 1 then q.w1 else if i == 2 then q.w2 else q.w3
  }

  function SetWord(q: Quad, i: nat, w: Word): (q': Quad)
  {
    if i == 0 then q.(w0 := w) else if i == 1 then q.(w1 := w) else if i == 2 then q.(w2 := w) else q.(w3 := w)
  }

  function ToState(q: Quad): (s: State)
  {
    State(ToColumn(q.w0), ToColumn(q.w1), ToColumn(q.w2), ToColumn(q.w3))
  }

  lemma PackBytes(b0: Byte, b1: Byte, b2: Byte, b3: Byte)
    ensures ToColumn(Pack(b0, b1, b2, b3)) == Column(b0, b1, b2, b3)
  {}

  lemma WordRoundTrip(w: Word)
    ensures FromColumn(ToColumn(w)) == w
  {}

  lemma XorBytes(v: Word, w: Word)
    ensures ToColumn(Xor(v, w)) == XorWord(ToColumn(v), ToColumn(w))
  {}

  // The byte-wise instructions.

  /** aes32esmi: S-box on byte bs of rs2, its MixColumns word {3s, s, s, 2s},
      rotated into place and added to rs1. */
  function Esmi(box: SBox, rs1: Word, rs2: Word, bs: nat): (rd: Word)
    requires bs < 4
  {
    var s := box(ByteAt(rs2, bs));
    var x := XTime(s);
    Xor(rs1, RotateLeft(Pack(x, s, s, Xor(x, s)), 8 * bs))
  }

  /** aes32esi: the same without MixColumns. */
  function Esi(box: SBox, rs1: Word, rs2: Word, bs: nat): (rd: Word)
    requires bs < 4
  {
    Xor(rs1, RotateLeft(Pack(box(ByteAt(rs2, bs)), ZERO, ZERO, ZERO), 8 * bs))
  }

  lemma RotatedPack(b0: Byte, b1: Byte, b2: Byte, b3: Byte)
    ensures RotateLeft(Pack(b0, b1, b2, b3), 0) == Pack(b0, b1, b2, b3)
    ensures RotateLeft(Pack(b0, b1, b2, b3), 8) == Pack(b3, b0, b1, b2)
    ensures RotateLeft(Pack(b0, b1, b2, b3), 16) == Pack(b2, b3, b0, b1)
    ensures RotateLeft(Pack(b0, b1, b2, b3), 24) == Pack(b1, b2, b3, b0)
  {
    var w := Pack(b0, b1, b2, b3);
    assert w[24..] == b3 && w[..24] == b0 + b1 + b2;
    assert w[16..] == b2 + b3 && w[..16] == b0 + b1;
    assert w[8..] == b1 + b2 + b3 && w[..8] == b0;
  }

  lemma RotatedBytes(b0: Byte, b1: Byte, b2: Byte, b3: Byte)
    ensures ToColumn(RotateLeft(Pack(b0, b1, b2, b3), 0)) == Column(b0, b1, b2, b3)
    ensures ToColumn(RotateLeft(Pack(b0, b1, b2, b3), 8)) == Column(b3, b0, b1, b2)
    ensures ToColumn(RotateLeft(Pack(b0, b1, b2, b3), 16)) == Column(b2, b3, b0, b1)
    ensures ToColumn(RotateLeft(Pack(b0, b1, b2, b3), 24)) == Column(b1, b2, b3, b0)
  {
    RotatedPack(b0, b1, b2, b3);
    PackBytes(b0, b1, b2, b3);
    PackBytes(b3, b0, b1, b2);
    PackBytes(b2, b3, b0, b1);
    PackBytes(b1, b2, b3, b0);
  }

  /** Four chained instructions for one output column. */
  function EsmiColumn(box: SBox, k: Word, in0: Word, in1: Word, in2: Word, in3: Word): (w: Word)
  {
    Esmi(box, Esmi(box, Esmi(box, Esmi(box, k, in0, 0), in1, 1), in2, 2), in3, 3)
  }

  function EsiColumn(box: SBox, k: Word, in0: Word, in1: Word, in2: Word, in3: Word): (w: Word)
  {
    Esi(box, Esi(box, Esi(box, Esi(box, k, in0, 0), in1, 1), in2, 2), in3, 3)
  }

  /** The column that the four instructions pick their bytes from. */
  function Diagonal(in0: Word, in1: Word, in2: Word, in3: Word): (c: Column)
  {
    Column(ByteAt(in0, 0), ByteAt(in1, 1), ByteAt(in2, 2), ByteAt(in3, 3))
  }

  lemma EsmiBytes(box: SBox, rs1: Word, rs2: Word, bs: nat)
    requires bs < 4
    ensures
      var s := box(ByteAt(rs2, bs));
      var x, t := XTime(s), Xor(XTime(s), s);
      ToColumn(Esmi(box, rs1, rs2, bs)) ==
        XorWord(ToColumn(rs1), if bs == 0 then Column(x, s, s, t) else if bs == 1 then Column(t, x, s, s)
                               else if bs == 2 then Column(s, t, x, s) else Column(s, s, t, x))
  {
    var s := box(ByteAt(rs2, bs));
    var x := XTime(s);
    RotatedBytes(x, s, s, Xor(x, s));
    XorBytes(rs1, RotateLeft(Pack(x, s, s, Xor(x, s)), 8 * bs));
  }

  lemma EsiBytes(box: SBox, rs1: Word, rs2: Word, bs: nat)
    requires bs < 4
    ensures
      var s := box(ByteAt(rs2, bs));
      ToColumn(Esi(box, rs1, rs2, bs)) ==
        XorWord(ToColumn(rs1), if bs == 0 then Column(s, ZERO, ZERO, ZERO) else if bs == 1 then Column(ZERO, s, ZERO, ZERO)
                               else if bs == 2 then Column(ZERO, ZERO, s, ZERO) else Column(ZERO, ZERO, ZERO, s))
  {
    var s := box(ByteAt(rs2, bs));
    RotatedBytes(s, ZERO, ZERO, ZERO);
    XorBytes(rs1, RotateLeft(Pack(s, ZERO, ZERO, ZERO), 8 * bs));
  }

  lemma XorChain(k: Byte, a: Byte, b: Byte, c: Byte, d: Byte)
    ensures Xor(Xor(Xor(Xor(k, a), b), c), d) == Xor(Xor4(a, b, c, d), k)
  {}

  /** One output column of a middle round. */
  lemma EsmiColumnMixes(box: SBox, k: Word, in0: Word, in1: Word, in2: Word, in3: Word)
    ensures ToColumn(EsmiColumn(box, k, in0, in1, in2, in3)) ==
      XorWord(MixColumn(SubWord(box, Diagonal(in0, in1, in2, in3))), ToColumn(k))
  {
    var s := SubWord(box, Diagonal(in0, in1, in2, in3));
    var k1 := Esmi(box, k, in0, 0);
    var k2 := Esmi(box, k1, in1, 1);
    var k3 := Esmi(box, k2, in2, 2);
    EsmiBytes(box, k, in0, 0);
    EsmiBytes(box, k1, in1, 1);
    EsmiBytes(box, k2, in2, 2);
    EsmiBytes(box, k3, in3, 3);
    MixRows(s);
    var x0, x1, x2, x3 := XTime(s.r0), XTime(s.r1), XTime(s.r2), XTime(s.r3);
    var c := ToColumn(k);
    XorChain(c.r0, x0, Xor(x1, s.r1), s.r2, s.r3);
    XorChain(c.r1, s.r0, x1, Xor(x2, s.r2), s.r3);
    XorChain(c.r2, s.r0, s.r1, x2, Xor(x3, s.r3));
    XorChain(c.r3, Xor(x0, s.r0), s.r1, s.r2, x3);
  }

  lemma Xor4Rotates(a: Byte, b: Byte, c: Byte, d: Byte)
    ensures Xor4(a, b, c, d) == Xor4(b, c, d, a) == Xor4(c, d, a, b) == Xor4(d, a, b, c)
  {}

  lemma MixRow(w: Column, r: nat, a: Byte, b: Byte, c: Byte, d: Byte)
    requires r < 4 && a == RowOf(w, r) && b == RowOf(w, (r + 1) % 4)
    requires c == RowOf(w, (r + 2) % 4) && d == RowOf(w, (r + 3) % 4)
    ensures MixCell(TWO, THREE, ONE, ONE, w, r) == Xor4(XTime(a), Xor(XTime(b), b), c, d)
  {
    GfMulConstants(a);
    GfMulConstants(b);
    GfMulOne(c);
    GfMulOne(d);
  }

  lemma MixRow0(w: Column)
    ensures MixCell(TWO, THREE, ONE, ONE, w, 0) == Xor4(XTime(w.r0), Xor(XTime(w.r1), w.r1), w.r2, w.r3)
  {
    MixRow(w, 0, w.r0, w.r1, w.r2, w.r3);
  }

  lemma MixRow1(w: Column)
    ensures MixCell(TWO, THREE, ONE, ONE, w, 1) == Xor4(w.r0, XTime(w.r1), Xor(XTime(w.r2), w.r2), w.r3)
  {
    MixRow(w, 1, w.r1, w.r2, w.r3, w.r0);
    Xor4Rotates(w.r0, XTime(w.r1), Xor(XTime(w.r2), w.r2), w.r3);
  }

  lemma MixRow2(w: Column)
    ensures MixCell(TWO, THREE, ONE, ONE, w, 2) == Xor4(w.r0, w.r1, XTime(w.r2), Xor(XTime(w.r3), w.r3))
  {
    MixRow(w, 2, w.r2, w.r3, w.r0, w.r1);
    Xor4Rotates(w.r0, w.r1, XTime(w.r2), Xor(XTime(w.r3), w.r3));
  }

  lemma MixRow3(w: Column)
    ensures MixCell(TWO, THREE, ONE, ONE, w, 3) == Xor4(Xor(XTime(w.r0), w.r0), w.r1, w.r2, XTime(w.r3))
  {
    MixRow(w, 3, w.r3, w.r0, w.r1, w.r2);
    Xor4Rotates(Xor(XTime(w.r0), w.r0), w.r1, w.r2, XTime(w.r3));
  }

  /** MixColumns on one column, without the field multiplication. */
  lemma MixRows(w: Column)
    ensures
      var x0, x1, x2, x3 := XTime(w.r0), XTime(w.r1), XTime(w.r2), XTime(w.r3);
      MixColumn(w) ==
        Column(Xor4(x0, Xor(x1, w.r1), w.r2, w.r3), Xor4(w.r0, x1, Xor(x2, w.r2), w.r3),
               Xor4(w.r0, w.r1, x2, Xor(x3, w.r3)), Xor4(Xor(x0, w.r0), w.r1, w.r2, x3))
  {
    MixRow0(w);
    MixRow1(w);
    MixRow2(w);
    MixRow3(w);
  }
}
