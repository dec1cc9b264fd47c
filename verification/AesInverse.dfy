/** Encryption is invertible: the inverse transformations of FIPS-197 section 5.3
    undo the rounds, for every key and every bijective substitution table. */
module AesInverse {
  import opened Bits
  import opened AesField
  import opened AesSpec
  import opened AesUnits
  import opened AesInstructions
  import opened GfRing

  /** inv is the inverse table of box. */
  ghost predicate InverseTables(box: SBox, inv: SBox)
  {
    (forall x: Byte :: inv(box(x)) == x) && (forall x: Byte :: box(inv(x)) == x)
  }

  function InvSubBytes(inv: SBox, s: State): (s': State)
  {
    SubBytes(inv, s)
  }

  /** Column c after row r has been rotated right by r. */
  function InvShiftedColumn(s: State, c: nat): (w: Column)
  {
    Column(Cell(s, 0, c), Cell(s, 1, (c + 3) % 4), Cell(s, 2, (c + 2) % 4), Cell(s, 3, (c + 1) % 4))
  }

  function InvShiftRows(s: State): (s': State)
  {
    State(InvShiftedColumn(s, 0), InvShiftedColumn(s, 1), InvShiftedColumn(s, 2), InvShiftedColumn(s, 3))
  }

  function InvMixColumns(s: State): (s': State)
  {
    State(Circulant(UNMIX, s.c0), Circulant(UNMIX, s.c1), Circulant(UNMIX, s.c2), Circulant(UNMIX, s.c3))
  }

  /** What undoes a middle round. */
  function UndoMiddle(inv: SBox, s: State, k: State): (s': State)
  {
    InvSubBytes(inv, InvShiftRows(InvMixColumns(AddRoundKey(s, k))))
  }

  /** What undoes the final round. */
  function UndoFinal(inv: SBox, s: State, k: State): (s': State)
  {
    InvSubBytes(inv, InvShiftRows(AddRoundKey(s, k)))
  }

  lemma ShiftRowsInverts(s: State)
    ensures InvShiftRows(ShiftRows(s)) == s && ShiftRows(InvShiftRows(s)) == s
  {}

  lemma MixColumnsInverts(s: State)
    ensures InvMixColumns(MixColumns(s)) == s && MixColumns(InvMixColumns(s)) == s
  {
    MixInverts(s.c0);
    MixInverts(s.c1);
    MixInverts(s.c2);
    MixInverts(s.c3);
  }

  lemma XorWordInverts(w: Column, k: Column)
    ensures XorWord(XorWord(w, k), k) == w
  {
    XorCancels(w.r0, k.r0);
    XorCancels(w.r1, k.r1);
    XorCancels(w.r2, k.r2);
    XorCancels(w.r3, k.r3);
  }

  lemma AddRoundKeyInverts(s: State, k: State)
    ensures AddRoundKey(AddRoundKey(s, k), k) == s
  {
    XorWordInverts(s.c0, k.c0);
    XorWordInverts(s.c1, k.c1);
    XorWordInverts(s.c2, k.c2);
    XorWordInverts(s.c3, k.c3);
  }

  lemma SubBytesInverts(box: SBox, inv: SBox, s: State)
    requires InverseTables(box, inv)
    ensures InvSubBytes(inv, SubBytes(box, s)) == s && SubBytes(box, InvSubBytes(inv, s)) == s
  {}

  lemma MiddleInverts(box: SBox, inv: SBox, s: State, k: State)
    requires InverseTables(box, inv)
    ensures UndoMiddle(inv, MiddleRound(box, s, k), k) == s
    ensures MiddleRound(box, UndoMiddle(inv, s, k), k) == s
  {
    SubBytesInverts(box, inv, s);
    ShiftRowsInverts(SubBytes(box, s));
    MixColumnsInverts(ShiftRows(SubBytes(box, s)));
    AddRoundKeyInverts(MixColumns(ShiftRows(SubBytes(box, s))), k);
    AddRoundKeyInverts(s, k);
    MixColumnsInverts(AddRoundKey(s, k));
    ShiftRowsInverts(InvMixColumns(AddRoundKey(s, k)));
    SubBytesInverts(box, inv, InvShiftRows(InvMixColumns(AddRoundKey(s, k))));
  }

  lemma FinalInverts(box: SBox, inv: SBox, s: State, k: State)
    requires InverseTables(box, inv)
    ensures UndoFinal(inv, FinalRound(box, s, k), k) == s
    ensures FinalRound(box, UndoFinal(inv, s, k), k) == s
  {
    SubBytesInverts(box, inv, s);
    ShiftRowsInverts(SubBytes(box, s));
    AddRoundKeyInverts(ShiftRows(SubBytes(box, s)), k);
    AddRoundKeyInverts(s, k);
    ShiftRowsInverts(AddRoundKey(s, k));
    SubBytesInverts(box, inv, InvShiftRows(AddRoundKey(s, k)));
  }

  // Whole ciphers, over any rounds.

  /** g's functions undo f's, round key by round key, in both orders. */
  ghost predicate Undoes(g: RoundFunctions, f: RoundFunctions)
  {
    && (forall s: State, k: State :: g.first(f.first(s, k), k) == s && f.first(g.first(s, k), k) == s)
    && (forall s: State, k: State :: g.middle(f.middle(s, k), k) == s && f.middle(g.middle(s, k), k) == s)
    && (forall s: State, k: State :: g.last(f.last(s, k), k) == s && f.last(g.last(s, k), k) == s)
  }

  /** Undoes rounds n down to 0: the round keys are taken in reverse order. */
  function Unwind(g: RoundFunctions, keys: nat -> State, s: State, n: nat): (input: State)
    decreases n
  {
    if n == 0 then g.first(s, keys(0))
    else Unwind(g, keys, g.middle(s, keys(n)), n - 1)
  }

  function DecipherWith(g: RoundFunctions, keys: nat -> State, output: State): (input: State)
  {
    Unwind(g, keys, g.last(output, keys(10)), 9)
  }

  /** The rounds of the inverse cipher of section 5.3. */
  function InverseRounds(inv: SBox): (g: RoundFunctions)
  {
    RoundFunctions((s: State, k: State) => AddRoundKey(s, k), (s: State, k: State) => UndoMiddle(inv, s, k),
                   (s: State, k: State) => UndoFinal(inv, s, k))
  }

  lemma {:induction false} UnwindAfter(g: RoundFunctions, f: RoundFunctions, keys: nat -> State, s: State, n: nat)
    requires Undoes(g, f)
    ensures Unwind(g, keys, AfterRound(f, keys, s, n), n) == s
  {
    if n > 0 {
      UnwindAfter(g, f, keys, s, n - 1);
    }
  }

  lemma {:induction false} AfterUnwind(g: RoundFunctions, f: RoundFunctions, keys: nat -> State, s: State, n: nat)
    requires Undoes(g, f)
    ensures AfterRound(f, keys, Unwind(g, keys, s, n), n) == s
    decreases n
  {
    if n > 0 {
      AfterUnwind(g, f, keys, g.middle(s, keys(n)), n - 1);
    }
  }

  lemma DecipherInverts(g: RoundFunctions, f: RoundFunctions, keys: nat -> State, s: State)
    requires Undoes(g, f)
    ensures DecipherWith(g, keys, CipherWith(f, keys, s)) == s
    ensures CipherWith(f, keys, DecipherWith(g, keys, s)) == s
  {
    UnwindAfter(g, f, keys, s, 9);
    AfterUnwind(g, f, keys, g.last(s, keys(10)), 9);
  }

  lemma InverseRoundsUndo(box: SBox, inv: SBox)
    requires InverseTables(box, inv)
    ensures Undoes(InverseRounds(inv), FipsRounds(box))
  {
    forall s: State, k: State ensures AddRoundKey(AddRoundKey(s, k), k) == s {
      AddRoundKeyInverts(s, k);
    }
    forall s: State, k: State
      ensures UndoMiddle(inv, MiddleRound(box, s, k), k) == s && MiddleRound(box, UndoMiddle(inv, s, k), k) == s
    {
      MiddleInverts(box, inv, s, k);
    }
    forall s: State, k: State
      ensures UndoFinal(inv, FinalRound(box, s, k), k) == s && FinalRound(box, UndoFinal(inv, s, k), k) == s
    {
      FinalInverts(box, inv, s, k);
    }
  }

  /** The inverse cipher, with the round keys of the cipher in reverse order. */
  function Decipher(box: SBox, inv: SBox, key: State, output: State): (input: State)
  {
    DecipherWith(InverseRounds(inv), Schedule(box, key), output)
  }

  /** For every key, deciphering undoes enciphering and enciphering undoes
      deciphering. */
  lemma CipherInverts(box: SBox, inv: SBox, key: State, s: State)
    requires InverseTables(box, inv)
    ensures Decipher(box, inv, key, Cipher(box, key, s)) == s
    ensures Cipher(box, key, Decipher(box, inv, key, s)) == s
  {
    InverseRoundsUndo(box, inv);
    DecipherInverts(InverseRounds(inv), FipsRounds(box), Schedule(box, key), s);
  }

  /** Hence encryption under one key never maps two blocks to the same block. */
  lemma CipherInjective(box: SBox, inv: SBox, key: State, a: State, b: State)
    requires InverseTables(box, inv)
    ensures Cipher(box, key, a) == Cipher(box, key, b) ==> a == b
  {
    CipherInverts(box, inv, key, a);
    CipherInverts(box, inv, key, b);
  }

  /** Deciphering what the hardware leaves in the state register after a block
      gives back the plaintext that was loaded. */
  lemma BlockDecrypts(box: SBox, inv: SBox, r: Regs, pin: Quad, kin: Quad)
    requires InverseTables(box, inv)
    ensures Decipher(box, inv, ToState(kin), ToState(ExecuteAll(Wired(box), r, BlockProgram(pin, kin)).st)) == ToState(pin)
  {
    BlockProgramEncrypts(box, r, pin, kin);
    CipherInverts(box, inv, ToState(kin), ToState(pin));
  }
}
