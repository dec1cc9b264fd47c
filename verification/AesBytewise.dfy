/** The byte-wise rounds: sixteen chained instructions in the (c + r) mod 4 pattern
    compute the same round as the engine does in one cycle. */
module AesBytewise {
  import opened Bits
  import opened AesField
  import opened AesSpec
  import opened AesUnits
  import opened AesEngine

  function BytewiseMiddle(box: SBox, st: Quad, k: Quad): (st': Quad)
  {
    Quad(EsmiColumn(box, k.w0, st.w0, st.w1, st.w2, st.w3), EsmiColumn(box, k.w1, st.w1, st.w2, st.w3, st.w0),
         EsmiColumn(box, k.w2, st.w2, st.w3, st.w0, st.w1), EsmiColumn(box, k.w3, st.w3, st.w0, st.w1, st.w2))
  }

  function BytewiseFinal(box: SBox, st: Quad, k: Quad): (st': Quad)
  {
    Quad(EsiColumn(box, k.w0, st.w0, st.w1, st.w2, st.w3), EsiColumn(box, k.w1, st.w1, st.w2, st.w3, st.w0),
         EsiColumn(box, k.w2, st.w2, st.w3, st.w0, st.w1), EsiColumn(box, k.w3, st.w3, st.w0, st.w1, st.w2))
  }

  lemma XorWithZero(k: Byte, s: Byte)
    ensures Xor(k, ZERO) == k && Xor(k, s) == Xor(s, k)
  {}

  /** One output column of a final round. */
  lemma EsiColumnAdds(box: SBox, k: Word, in0: Word, in1: Word, in2: Word, in3: Word)
    ensures ToColumn(EsiColumn(box, k, in0, in1, in2, in3)) ==
            XorWord(SubWord(box, Diagonal(in0, in1, in2, in3)), ToColumn(k))
  {
    var s := SubWord(box, Diagonal(in0, in1, in2, in3));
    var k1 := Esi(box, k, in0, 0);
    var k2 := Esi(box, k1, in1, 1);
    var k3 := Esi(box, k2, in2, 2);
    EsiBytes(box, k, in0, 0);
    EsiBytes(box, k1, in1, 1);
    EsiBytes(box, k2, in2, 2);
    EsiBytes(box, k3, in3, 3);
    var c := ToColumn(k);
    XorWithZero(c.r0, s.r0);
    XorWithZero(c.r1, s.r1);
    XorWithZero(c.r2, s.r2);
    XorWithZero(c.r3, s.r3);
    XorWithZero(Xor(c.r0, s.r0), ZERO);
    XorWithZero(Xor(c.r1, s.r1), ZERO);
    XorWithZero(Xor(c.r2, s.r2), ZERO);
    XorWithZero(Xor(c.r3, s.r3), ZERO);
  }

  /** The diagonal that feeds an output column, after the S-box. */
  lemma DiagonalIsSubShift(box: SBox, st: Quad, c: nat)
    requires c < 4
    ensures SubWord(box, Diagonal(WordOf(st, c), WordOf(st, (c + 1) % 4), WordOf(st, (c + 2) % 4), WordOf(st, (c + 3) % 4)))
         == ShiftedColumn(SubBytes(box, ToState(st)), c)
  {
    SubstitutedIsSubShift(box, st, c);
  }

  lemma SameColumn(v: Word, w: Word)
    requires ToColumn(v) == ToColumn(w)
    ensures v == w
  {
    WordRoundTrip(v);
    WordRoundTrip(w);
  }

  /** One column of a middle round, the chained words being those from column c on. */
  lemma MiddleColumnAgrees(box: SBox, st: Quad, k: Quad, c: nat, in0: Word, in1: Word, in2: Word, in3: Word)
    requires c < 4 && in0 == WordOf(st, c) && in1 == WordOf(st, (c + 1) % 4)
    requires in2 == WordOf(st, (c + 2) % 4) && in3 == WordOf(st, (c + 3) % 4)
    ensures EsmiColumn(box, WordOf(k, c), in0, in1, in2, in3) == NextColumn(box, st, 0, KrkFull(k), c)
  {
    EsmiColumnMixes(box, WordOf(k, c), in0, in1, in2, in3);
    DiagonalIsSubShift(box, st, c);
    MiddleColumn(box, st, 0, k, c);
    SameColumn(EsmiColumn(box, WordOf(k, c), in0, in1, in2, in3), NextColumn(box, st, 0, KrkFull(k), c));
  }

  lemma FinalColumnAgrees(box: SBox, st: Quad, k: Quad, c: nat, in0: Word, in1: Word, in2: Word, in3: Word)
    requires c < 4 && in0 == WordOf(st, c) && in1 == WordOf(st, (c + 1) % 4)
    requires in2 == WordOf(st, (c + 2) % 4) && in3 == WordOf(st, (c + 3) % 4)
    ensures EsiColumn(box, WordOf(k, c), in0, in1, in2, in3) == NextColumn(box, st, 1, KrkFull(k), c)
  {
    EsiColumnAdds(box, WordOf(k, c), in0, in1, in2, in3);
    DiagonalIsSubShift(box, st, c);
    FinalColumn(box, st, k, c);
    SameColumn(EsiColumn(box, WordOf(k, c), in0, in1, in2, in3), NextColumn(box, st, 1, KrkFull(k), c));
  }

  /** Sixteen aes32esmi equal mode 0, bit for bit, on all states and keys. */
  lemma BytewiseMiddleIsEngine(box: SBox, st: Quad, k: Quad)
    ensures BytewiseMiddle(box, st, k) == Round(box, st, 0, KrkFull(k))
  {
    MiddleColumnAgrees(box, st, k, 0, st.w0, st.w1, st.w2, st.w3);
    MiddleColumnAgrees(box, st, k, 1, st.w1, st.w2, st.w3, st.w0);
    MiddleColumnAgrees(box, st, k, 2, st.w2, st.w3, st.w0, st.w1);
    MiddleColumnAgrees(box, st, k, 3, st.w3, st.w0, st.w1, st.w2);
  }

  /** Sixteen aes32esi equal mode 1. */
  lemma BytewiseFinalIsEngine(box: SBox, st: Quad, k: Quad)
    ensures BytewiseFinal(box, st, k) == Round(box, st, 1, KrkFull(k))
  {
    FinalColumnAgrees(box, st, k, 0, st.w0, st.w1, st.w2, st.w3);
    FinalColumnAgrees(box, st, k, 1, st.w1, st.w2, st.w3, st.w0);
    FinalColumnAgrees(box, st, k, 2, st.w2, st.w3, st.w0, st.w1);
    FinalColumnAgrees(box, st, k, 3, st.w3, st.w0, st.w1, st.w2);
  }
}
