/** The round engine and the key schedule unit against FIPS-197. */
module AesEngine {
  import opened Bits
  import opened AesField
  import opened AesSpec
  import opened AesUnits

  // The round engine.

  /** The live round key on its 128 wires, column 0 in the low 32 bits. */
  function KrkFull(krk: Quad): (k: seq<bool>)
    ensures |k| == 128
  {
    krk.w0 + krk.w1 + krk.w2 + krk.w3
  }

  /** ShiftRows is wiring: row r of column c comes from column (c + r) mod 4. */
  function Sr(st: Quad, r: nat, c: nat): (b: Byte)
    requires r < 4
  {
    ByteAt(WordOf(st, (c + r) % 4), r)
  }

  /** The bytes of column c after SubBytes. */
  function Substituted(box: SBox, st: Quad, c: nat): (w: Column)
  {
    Column(box(Sr(st, 0, c)), box(Sr(st, 1, c)), box(Sr(st, 2, c)), box(Sr(st, 3, c)))
  }

  /** MixColumns as xtime and exclusive ors. */
  function Mixed(t: Column): (w: Column)
  {
    var x0, x1, x2, x3 := XTime(t.r0), XTime(t.r1), XTime(t.r2), XTime(t.r3);
    Column(Xor(Xor(Xor(Xor(x0, x1), t.r1), t.r2), t.r3),
           Xor(Xor(Xor(Xor(t.r0, x1), x2), t.r2), t.r3),
           Xor(Xor(Xor(Xor(t.r0, t.r1), x2), x3), t.r3),
           Xor(Xor(Xor(Xor(x0, t.r0), t.r1), t.r2), x3))
  }

  /** What feeds AddRoundKey: 1 skips MixColumns, 2 skips everything, and any other
      mode is a middle round. */
  function Post(box: SBox, st: Quad, mode: nat, c: nat): (w: Column)
  {
    if mode == 1 then Substituted(box, st, c)
    else if mode == 2 then ToColumn(WordOf(st, c))
    else Mixed(Substituted(box, st, c))
  }

  function NextColumn(box: SBox, st: Quad, mode: nat, krk: seq<bool>, c: nat): (w: Word)
    requires |krk| == 128 && c < 4
  {
    Xor(FromColumn(Post(box, st, mode, c)), krk[32 * c..32 * c + 32])
  }

  function Round(box: SBox, st: Quad, mode: nat, krk: seq<bool>): (st': Quad)
    requires |krk| == 128
  {
    Quad(NextColumn(box, st, mode, krk, 0), NextColumn(box, st, mode, krk, 1),
         NextColumn(box, st, mode, krk, 2), NextColumn(box, st, mode, krk, 3))
  }

  lemma XorRegroup(a: Byte, b: Byte, c: Byte, d: Byte, e: Byte)
    ensures Xor(Xor(Xor(Xor(a, b), c), d), e) == Xor4(a, Xor(b, c), d, e)
    ensures Xor(Xor(Xor(Xor(a, b), c), d), e) == Xor4(a, b, Xor(c, d), e)
    ensures Xor(Xor(Xor(Xor(a, b), c), d), e) == Xor4(a, b, c, Xor(d, e))
    ensures Xor(Xor(Xor(Xor(a, b), c), d), e) == Xor4(Xor(a, b), c, d, e)
  {}

  lemma MixedMixes(t: Column)
    ensures Mixed(t) == MixColumn(t)
  {
    MixRows(t);
    var x0, x1, x2, x3 := XTime(t.r0), XTime(t.r1), XTime(t.r2), XTime(t.r3);
    XorRegroup(x0, x1, t.r1, t.r2, t.r3);
    XorRegroup(t.r0, x1, x2, t.r2, t.r3);
    XorRegroup(t.r0, t.r1, x2, x3, t.r3);
    XorRegroup(x0, t.r0, t.r1, t.r2, x3);
  }

  lemma KrkSlices(krk: Quad, c: nat)
    requires c < 4
    ensures KrkFull(krk)[32 * c..32 * c + 32] == WordOf(krk, c)
  {
    var k := KrkFull(krk);
    assert k[0..32] == krk.w0;
    assert k[32..64] == krk.w1;
    assert k[64..96] == krk.w2;
    assert k[96..128] == krk.w3;
  }

  lemma NextColumnBytes(box: SBox, st: Quad, mode: nat, krk: Quad, c: nat)
    requires c < 4
    ensures ToColumn(NextColumn(box, st, mode, KrkFull(krk), c)) ==
            XorWord(Post(box, st, mode, c), ToColumn(WordOf(krk, c)))
  {
    var p := Post(box, st, mode, c);
    KrkSlices(krk, c);
    PackBytes(p.r0, p.r1, p.r2, p.r3);
    XorBytes(FromColumn(p), WordOf(krk, c));
  }

  /** SubBytes and ShiftRows together pick each output column along a diagonal. */
  lemma SubstitutedIsSubShift(box: SBox, st: Quad, c: nat)
    requires c < 4
    ensures ShiftedColumn(SubBytes(box, ToState(st)), c) == Substituted(box, st, c)
  {}

  /** The FIPS-197 round that a mode stands for. */
  function FipsRoundOf(box: SBox, mode: nat, s: State, k: State): (s': State)
  {
    if mode == 1 then FinalRound(box, s, k) else if mode == 2 then AddRoundKey(s, k) else MiddleRound(box, s, k)
  }

  lemma MiddleColumn(box: SBox, st: Quad, mode: nat, krk: Quad, c: nat)
    requires c < 4 && mode != 1 && mode != 2
    ensures ToColumn(NextColumn(box, st, mode, KrkFull(krk), c)) ==
            XorWord(MixColumn(ShiftedColumn(SubBytes(box, ToState(st)), c)), ToColumn(WordOf(krk, c)))
  {
    NextColumnBytes(box, st, mode, krk, c);
    SubstitutedIsSubShift(box, st, c);
    MixedMixes(Substituted(box, st, c));
  }

  lemma FinalColumn(box: SBox, st: Quad, krk: Quad, c: nat)
    requires c < 4
    ensures ToColumn(NextColumn(box, st, 1, KrkFull(krk), c)) ==
            XorWord(ShiftedColumn(SubBytes(box, ToState(st)), c), ToColumn(WordOf(krk, c)))
  {
    NextColumnBytes(box, st, 1, krk, c);
    SubstitutedIsSubShift(box, st, c);
  }

  /** One cycle of the round engine is one FIPS-197 round, for all states and keys. */
  lemma RoundIsFips(box: SBox, st: Quad, mode: nat, krk: Quad)
    ensures ToState(Round(box, st, mode, KrkFull(krk))) == FipsRoundOf(box, mode, ToState(st), ToState(krk))
  {
    if mode == 1 {
      FinalColumn(box, st, krk, 0);
      FinalColumn(box, st, krk, 1);
      FinalColumn(box, st, krk, 2);
      FinalColumn(box, st, krk, 3);
    } else if mode == 2 {
      NextColumnBytes(box, st, 2, krk, 0);
      NextColumnBytes(box, st, 2, krk, 1);
      NextColumnBytes(box, st, 2, krk, 2);
      NextColumnBytes(box, st, 2, krk, 3);
    } else {
      MiddleColumn(box, st, mode, krk, 0);
      MiddleColumn(box, st, mode, krk, 1);
      MiddleColumn(box, st, mode, krk, 2);
      MiddleColumn(box, st, mode, krk, 3);
    }
  }

  // The key schedule unit.

  /** The round constants; index 0 is for round 1. */
  function RconLut(idx: nat): (b: Byte)
  {
    match idx
    case 0 => [true, false, false, false, false, false, false, false]
    case 1 => [false, true, false, false, false, false, false, false]
    case 2 => [false, false, true, false, false, false, false, false]
    case 3 => [false, false, false, true, false, false, false, false]
    case 4 => [false, false, false, false, true, false, false, false]
    case 5 => [false, false, false, false, false, true, false, false]
    case 6 => [false, false, false, false, false, false, true, false]
    case 7 => [false, false, false, false, false, false, false, true]
    case 8 => [true, true, false, true, true, false, false, false]
    case 9 => [false, true, true, false, true, true, false, false]
    case _ => ZERO
  }

  /** RotWord as a rotation right by eight bits. */
  function Rot(k3: Word): (w: Word)
  {
    k3[8..] + k3[..8]
  }

  function SubWordBits(box: SBox, w: Word): (w': Word)
  {
    Pack(box(ByteAt(w, 0)), box(ByteAt(w, 1)), box(ByteAt(w, 2)), box(ByteAt(w, 3)))
  }

  /** One expansion step. */
  function Expand(box: SBox, krk: Quad, rcnt: nat): (krk': Quad)
  {
    var g := Xor(SubWordBits(box, Rot(krk.w3)), RconLut(rcnt) + Fill(24, false));
    var n0 := Xor(krk.w0, g);
    var n1 := Xor(krk.w1, n0);
    var n2 := Xor(krk.w2, n1);
    var n3 := Xor(krk.w3, n2);
    Quad(n0, n1, n2, n3)
  }

  lemma RconDoubles(idx: nat)
    requires 1 <= idx < 10
    ensures RconLut(idx) == XTime(RconLut(idx - 1))
  {
    if idx == 8 {
      assert Xor(Shl(RconLut(7)), TAIL) == RconLut(8);
    } else {
      assert Shl(RconLut(idx - 1)) == RconLut(idx);
    }
  }

  /** The table holds the successive powers of x. */
  lemma {:induction false} RconIsPower(idx: nat)
    requires idx < 10
    ensures RconLut(idx) == TimesPower(ONE, idx)
  {
    if idx == 0 {
      PowerNext(ONE, RconLut(0), 0);
    } else {
      RconIsPower(idx - 1);
      RconDoubles(idx);
      PowerNext(RconLut(idx - 1), RconLut(idx), idx);
    }
  }

  lemma PowerNext(a: Byte, b: Byte, i: nat)
    requires if i == 0 then b == ONE else a == TimesPower(ONE, i - 1) && b == XTime(a)
    ensures b == TimesPower(ONE, i)
  {}

  lemma RotIsRotWord(box: SBox, w: Word)
    ensures ToColumn(SubWordBits(box, Rot(w))) == SubWord(box, RotWord(ToColumn(w)))
  {
    var c := ToColumn(w);
    assert Rot(w) == Pack(c.r1, c.r2, c.r3, c.r0);
    PackBytes(c.r1, c.r2, c.r3, c.r0);
    var s := SubWord(box, RotWord(c));
    PackBytes(s.r0, s.r1, s.r2, s.r3);
  }

  lemma RconColumn(idx: nat)
    requires idx < 10
    ensures ToColumn(RconLut(idx) + Fill(24, false)) == Rcon(idx + 1)
  {
    RconIsPower(idx);
    assert RconLut(idx) + Fill(24, false) == Pack(RconLut(idx), ZERO, ZERO, ZERO);
    PackBytes(RconLut(idx), ZERO, ZERO, ZERO);
  }

  lemma Multiples(m: nat)
    ensures (4 * m) % 4 == 0 && (4 * m) / 4 == m
    ensures (4 * m + 1) % 4 == 1 && (4 * m + 2) % 4 == 2 && (4 * m + 3) % 4 == 3
  {}

  /** How a round key comes from the one before it. */
  ghost predicate NextKey(box: SBox, k: State, k': State, n: nat)
  {
    && k'.c0 == XorWord(k.c0, XorWord(SubWord(box, RotWord(k.c3)), Rcon(n + 1)))
    && k'.c1 == XorWord(k.c1, k'.c0)
    && k'.c2 == XorWord(k.c2, k'.c1)
    && k'.c3 == XorWord(k.c3, k'.c2)
  }

  lemma KeyWordCases(box: SBox, key: State, w: nat)
    requires w >= 4
    ensures w % 4 == 0 ==>
      KeyWord(box, key, w) ==
        XorWord(KeyWord(box, key, w - 4), XorWord(SubWord(box, RotWord(KeyWord(box, key, w - 1))), Rcon(w / 4)))
    ensures w % 4 != 0 ==> KeyWord(box, key, w) == XorWord(KeyWord(box, key, w - 4), KeyWord(box, key, w - 1))
  {}

  lemma FirstKeyWord(box: SBox, key: State, m: nat)
    requires m % 4 == 0
    ensures KeyWord(box, key, m + 4) ==
      XorWord(KeyWord(box, key, m), XorWord(SubWord(box, RotWord(KeyWord(box, key, m + 3))), Rcon((m + 4) / 4)))
  {
    KeyWordCases(box, key, m + 4);
  }

  lemma OtherKeyWord(box: SBox, key: State, m: nat)
    requires m % 4 != 0
    ensures KeyWord(box, key, m + 4) == XorWord(KeyWord(box, key, m), KeyWord(box, key, m + 3))
  {
    KeyWordCases(box, key, m + 4);
  }

  /** The schedule of section 5.2, four words at a time. */
  lemma RoundKeyStep(box: SBox, key: State, n: nat)
    ensures NextKey(box, RoundKey(box, key, n), RoundKey(box, key, n + 1), n)
  {
    var m := 4 * n;
    Multiples(n);
    FirstKeyWord(box, key, m);
    OtherKeyWord(box, key, m + 1);
    OtherKeyWord(box, key, m + 2);
    OtherKeyWord(box, key, m + 3);
    RoundKeyWords(box, key, n, m);
    RoundKeyWords(box, key, n + 1, m + 4);
  }

  lemma RoundKeyWords(box: SBox, key: State, n: nat, m: nat)
    requires m == 4 * n
    ensures RoundKey(box, key, n) ==
      State(KeyWord(box, key, m), KeyWord(box, key, m + 1), KeyWord(box, key, m + 2), KeyWord(box, key, m + 3))
  {}

  lemma ExpandColumns(box: SBox, krk: Quad, n: nat)
    requires n < 10
    ensures NextKey(box, ToState(krk), ToState(Expand(box, krk, n)), n)
  {
    var q := Expand(box, krk, n);
    var g := Xor(SubWordBits(box, Rot(krk.w3)), RconLut(n) + Fill(24, false));
    RotIsRotWord(box, krk.w3);
    RconColumn(n);
    XorBytes(SubWordBits(box, Rot(krk.w3)), RconLut(n) + Fill(24, false));
    XorBytes(krk.w0, g);
    XorBytes(krk.w1, q.w0);
    XorBytes(krk.w2, q.w1);
    XorBytes(krk.w3, q.w2);
  }

  lemma NextKeyUnique(box: SBox, k: State, a: State, b: State, n: nat)
    requires NextKey(box, k, a, n) && NextKey(box, k, b, n)
    ensures a == b
  {}

  /** One expansion step is one round of the FIPS-197 key schedule. */
  lemma ExpandIsFips(box: SBox, key: State, krk: Quad, n: nat)
    requires n < 10 && ToState(krk) == RoundKey(box, key, n)
    ensures ToState(Expand(box, krk, n)) == RoundKey(box, key, n + 1)
  {
    ExpandColumns(box, krk, n);
    RoundKeyStep(box, key, n);
    NextKeyUnique(box, RoundKey(box, key, n), ToState(Expand(box, krk, n)), RoundKey(box, key, n + 1), n);
  }
}
