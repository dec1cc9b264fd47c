/** The reference transformations and the key expansion of the C code, in place over
    byte arrays. */
module AesSoftware {
  import opened Bits
  import opened AesField
  import opened AesSpec
  import opened AesUnits
  import opened AesEngine

  // The reference transformations work in place on a 16-byte state.

  method SubBytesInPlace(box: SBox, state: array<Byte>)
    requires state.Length == 16
    modifies state
    ensures FromBytes(state[..]) == SubBytes(box, FromBytes(old(state[..])))
  {
    for i := 0 to 16
      invariant forall j :: 0 <= j < i ==> state[j] == box(old(state[j]))
      invariant forall j :: i <= j < 16 ==> state[j] == old(state[j])
    {
      state[i] := box(state[i]);
    }
  }

  method ShiftRowsInPlace(state: array<Byte>)
    requires state.Length == 16
    modifies state
    ensures FromBytes(state[..]) == ShiftRows(FromBytes(old(state[..])))
  {
    var temp := state[1]; state[1] := state[5]; state[5] := state[9]; state[9] := state[13]; state[13] := temp;
    temp := state[2]; state[2] := state[10]; state[10] := temp;
    temp := state[6]; state[6] := state[14]; state[14] := temp;
    temp := state[15]; state[15] := state[11]; state[11] := state[7]; state[7] := state[3]; state[3] := temp;
  }

  lemma ReferenceMixColumn(a: Byte, b: Byte, c: Byte, d: Byte)
    ensures MixColumn(Column(a, b, c, d)) ==
      Column(Xor4(GfMul(TWO, a), GfMul(THREE, b), c, d), Xor4(a, GfMul(TWO, b), GfMul(THREE, c), d),
             Xor4(a, b, GfMul(TWO, c), GfMul(THREE, d)), Xor4(GfMul(THREE, a), b, c, GfMul(TWO, d)))
  {
    MixRows(Column(a, b, c, d));
    GfMulConstants(a);
    GfMulConstants(b);
    GfMulConstants(c);
    GfMulConstants(d);
  }

  /** One column of mix_columns. */
  method MixOne(s0: Byte, s1: Byte, s2: Byte, s3: Byte) returns (t0: Byte, t1: Byte, t2: Byte, t3: Byte)
    ensures Column(t0, t1, t2, t3) == MixColumn(Column(s0, s1, s2, s3))
  {
    var a := GfMult(TWO, s0);
    var b := GfMult(THREE, s1);
    t0 := Xor4(a, b, s2, s3);
    a := GfMult(TWO, s1);
    b := GfMult(THREE, s2);
    t1 := Xor4(s0, a, b, s3);
    a := GfMult(TWO, s2);
    b := GfMult(THREE, s3);
    t2 := Xor4(s0, s1, a, b);
    a := GfMult(THREE, s0);
    b := GfMult(TWO, s3);
    t3 := Xor4(a, s1, s2, b);
    ReferenceMixColumn(s0, s1, s2, s3);
  }

  /** Column c of a 16-byte buffer. */
  function BufferColumn(b: seq<Byte>, c: nat): (w: Column)
    requires |b| == 16 && c < 4
  {
    Column(b[4 * c], b[4 * c + 1], b[4 * c + 2], b[4 * c + 3])
  }

  lemma BufferColumns(b: seq<Byte>)
    requires |b| == 16
    ensures FromBytes(b) == State(BufferColumn(b, 0), BufferColumn(b, 1), BufferColumn(b, 2), BufferColumn(b, 3))
  {}

  method MixInto(state: array<Byte>, temp: array<Byte>, i: nat)
    requires state.Length == 16 && temp.Length == 16 && state != temp && i < 4
    modifies temp
    ensures BufferColumn(temp[..], i) == MixColumn(BufferColumn(state[..], i))
    ensures forall c :: 0 <= c < 4 && c != i ==> BufferColumn(temp[..], c) == old(BufferColumn(temp[..], c))
  {
    var idx := i * 4;
    var t0, t1, t2, t3 := MixOne(state[idx], state[idx + 1], state[idx + 2], state[idx + 3]);
    temp[idx], temp[idx + 1], temp[idx + 2], temp[idx + 3] := t0, t1, t2, t3;
  }

  method CopyBack(temp: array<Byte>, state: array<Byte>)
    requires state.Length == 16 && temp.Length == 16 && state != temp
    modifies state
    ensures state[..] == temp[..]
  {
    for i := 0 to 16
      invariant forall j :: 0 <= j < i ==> state[j] == temp[j]
    {
      state[i] := temp[i];
    }
  }

  lemma MixedBuffer(s: seq<Byte>, t: seq<Byte>)
    requires |s| == |t| == 16
    requires forall c :: 0 <= c < 4 ==> BufferColumn(t, c) == MixColumn(BufferColumn(s, c))
    ensures FromBytes(t) == MixColumns(FromBytes(s))
  {
    BufferColumns(s);
    BufferColumns(t);
  }

  method MixColumnsInPlace(state: array<Byte>)
    requires state.Length == 16
    modifies state
    ensures FromBytes(state[..]) == MixColumns(FromBytes(old(state[..])))
  {
    var temp := new Byte[16](_ => ZERO);
    for i := 0 to 4
      invariant state[..] == old(state[..])
      invariant forall c :: 0 <= c < i ==> BufferColumn(temp[..], c) == MixColumn(BufferColumn(state[..], c))
    {
      MixInto(state, temp, i);
    }
    MixedBuffer(state[..], temp[..]);
    CopyBack(temp, state);
  }

  method AddRoundKeyInPlace(state: array<Byte>, roundKey: array<Byte>)
    requires state.Length == 16 && roundKey.Length == 16
    modifies state
    ensures FromBytes(state[..]) == AddRoundKey(FromBytes(old(state[..])), FromBytes(old(roundKey[..])))
  {
    for i := 0 to 16
      invariant forall j :: 0 <= j < i ==> state[j] == Xor(old(state[j]), old(roundKey[j]))
      invariant forall j :: i <= j < 16 ==> state[j] == old(state[j]) && roundKey[j] == old(roundKey[j])
    {
      state[i] := Xor(state[i], roundKey[i]);
    }
  }

  // The software key schedule.

  /** Word w of an expanded key in memory. */
  function KeyColumn(b: seq<Byte>, w: nat): (c: Column)
    requires 4 * w + 3 < |b|
  {
    Column(b[4 * w], b[4 * w + 1], b[4 * w + 2], b[4 * w + 3])
  }

  lemma RconByte(w: nat)
    requires 4 <= w < 44 && w % 4 == 0
    ensures 1 <= w / 4 <= 10 && Rcon(w / 4) == Column(RconLut(w / 4 - 1), ZERO, ZERO, ZERO)
  {
    RconAt(w / 4);
  }

  lemma RconAt(j: nat)
    requires 1 <= j <= 10
    ensures Rcon(j) == Column(RconLut(j - 1), ZERO, ZERO, ZERO)
  {
    RconIsPower(j - 1);
  }

  lemma XorRcon(c: Column, r: Byte)
    ensures XorWord(c, Column(r, ZERO, ZERO, ZERO)) == Column(Xor(c.r0, r), c.r1, c.r2, c.r3)
  {
    XorZero(c.r1);
    XorZero(c.r2);
    XorZero(c.r3);
    assert ZERO == Fill(8, false);
  }

  lemma ByteIndex(i: nat, w: nat)
    requires i == 4 * w
    ensures (i % 16 == 0) == (w % 4 == 0)
    ensures i / 16 == w / 4
  {}

  /** The word that comes after word w - 1. */
  method NextWord(box: SBox, prev: Column, i: nat, ghost w: nat) returns (temp: Column)
    requires i == 4 * w && 4 <= w < 44
    ensures w % 4 == 0 ==> temp == XorWord(SubWord(box, RotWord(prev)), Rcon(w / 4))
    ensures w % 4 != 0 ==> temp == prev
  {
    ByteIndex(i, w);
    temp := prev;
    if i % 16 == 0 {
      temp := Column(box(prev.r1), box(prev.r2), box(prev.r3), box(prev.r0));
      RconByte(w);
      XorRcon(temp, RconLut(w / 4 - 1));
      temp := temp.(r0 := Xor(temp.r0, RconLut(i / 16 - 1)));
    }
  }

  /** The first n words in memory are those of the schedule. */
  ghost predicate Expanded(box: SBox, key: State, b: seq<Byte>, n: nat)
    requires |b| == 176 && n <= 44
  {
    forall w :: 0 <= w < n ==> KeyColumn(b, w) == KeyWord(box, key, w)
  }

  /** Stores word w, four words after the one it is added to. */
  method StoreKeyWord(roundKeys: array<Byte>, i: nat, temp: Column, ghost w: nat)
    requires roundKeys.Length == 176 && i == 4 * w && 4 <= w < 44
    modifies roundKeys
    ensures KeyColumn(roundKeys[..], w) == XorWord(KeyColumn(old(roundKeys[..]), w - 4), temp)
    ensures forall v :: 0 <= v < w ==> KeyColumn(roundKeys[..], v) == KeyColumn(old(roundKeys[..]), v)
  {
    roundKeys[i] := Xor(roundKeys[i - 16], temp.r0);
    roundKeys[i + 1] := Xor(roundKeys[i - 15], temp.r1);
    roundKeys[i + 2] := Xor(roundKeys[i - 14], temp.r2);
    roundKeys[i + 3] := Xor(roundKeys[i - 13], temp.r3);
  }

  lemma ExpandedNext(box: SBox, key: State, before: seq<Byte>, after: seq<Byte>, w: nat, temp: Column)
    requires |before| == |after| == 176 && 4 <= w < 44 && Expanded(box, key, before, w)
    requires w % 4 == 0 ==> temp == XorWord(SubWord(box, RotWord(KeyColumn(before, w - 1))), Rcon(w / 4))
    requires w % 4 != 0 ==> temp == KeyColumn(before, w - 1)
    requires KeyColumn(after, w) == XorWord(KeyColumn(before, w - 4), temp)
    requires forall v :: 0 <= v < w ==> KeyColumn(after, v) == KeyColumn(before, v)
    ensures Expanded(box, key, after, w + 1)
  {
    KeyWordCases(box, key, w);
    assert KeyColumn(before, w - 1) == KeyWord(box, key, w - 1) && KeyColumn(before, w - 4) == KeyWord(box, key, w - 4);
  }

  method CopyKey(key: array<Byte>, roundKeys: array<Byte>, ghost box: SBox)
    requires key.Length == 16 && roundKeys.Length == 176
    modifies roundKeys
    ensures Expanded(box, FromBytes(key[..]), roundKeys[..], 4)
  {
    for i := 0 to 16
      invariant forall j :: 0 <= j < i ==> roundKeys[j] == key[j]
    {
      roundKeys[i] := key[i];
    }
  }

  /** One pass of the expansion loop. */
  method ExpandOnce(box: SBox, roundKeys: array<Byte>, i: nat, ghost key: State, ghost w: nat)
    requires roundKeys.Length == 176 && i == 4 * w && 4 <= w < 44
    requires Expanded(box, key, roundKeys[..], w)
    modifies roundKeys
    ensures Expanded(box, key, roundKeys[..], w + 1)
  {
    ghost var before := roundKeys[..];
    var prev := Column(roundKeys[i - 4], roundKeys[i - 3], roundKeys[i - 2], roundKeys[i - 1]);
    assert prev == KeyColumn(before, w - 1);
    var temp := NextWord(box, prev, i, w);
    StoreKeyWord(roundKeys, i, temp, w);
    ExpandedNext(box, key, before, roundKeys[..], w, temp);
  }

  method ExpandKey(box: SBox, key: array<Byte>, roundKeys: array<Byte>)
    requires key.Length == 16 && roundKeys.Length == 176
    modifies roundKeys
    ensures Expanded(box, FromBytes(key[..]), roundKeys[..], 44)
  {
    ghost var k := FromBytes(key[..]);
    CopyKey(key, roundKeys, box);
    var i := 16;
    ghost var w := 4;
    while i < 176
      invariant i == 4 * w && 4 <= w <= 44
      invariant Expanded(box, k, roundKeys[..], w)
    {
      ExpandOnce(box, roundKeys, i, k, w);
      i := i + 4;
      w := w + 1;
    }
  }

  /** The round keys in an expanded key. */
  lemma ExpandedRoundKeys(box: SBox, key: State, b: seq<Byte>, n: nat)
    requires |b| == 176 && Expanded(box, key, b, 44) && n <= 10
    ensures FromBytes(b[16 * n..16 * n + 16]) == RoundKey(box, key, n)
  {
    var m := 4 * n;
    FourKeyColumns(b, n, m);
    assert KeyColumn(b, m) == KeyWord(box, key, m) && KeyColumn(b, m + 1) == KeyWord(box, key, m + 1);
    assert KeyColumn(b, m + 2) == KeyWord(box, key, m + 2) && KeyColumn(b, m + 3) == KeyWord(box, key, m + 3);
    RoundKeyWords(box, key, n, m);
  }

  lemma FourKeyColumns(b: seq<Byte>, n: nat, m: nat)
    requires |b| == 176 && n <= 10 && m == 4 * n
    ensures FromBytes(b[16 * n..16 * n + 16]) ==
      State(KeyColumn(b, m), KeyColumn(b, m + 1), KeyColumn(b, m + 2), KeyColumn(b, m + 3))
  {}

  // The cipher that the reference functions make up.

  ghost predicate KeyAt(b: seq<Byte>, keys: nat -> State, n: nat)
  {
    n <= 10 && |b| == 176 && FromBytes(b[16 * n..16 * n + 16]) == keys(n)
  }

  /** An expanded key holds these round keys. */
  ghost predicate HoldsKeys(b: seq<Byte>, keys: nat -> State)
  {
    |b| == 176 && forall n: nat :: n <= 10 ==> KeyAt(b, keys, n)
  }

  lemma ExpandedHoldsKeys(box: SBox, key: State, b: seq<Byte>)
    requires |b| == 176 && Expanded(box, key, b, 44)
    ensures HoldsKeys(b, Schedule(box, key))
  {
    forall n: nat | n <= 10 ensures KeyAt(b, Schedule(box, key), n) {
      ExpandedRoundKeys(box, key, b, n);
    }
  }

  method RoundKeyOf(roundKeys: array<Byte>, n: nat, ghost keys: nat -> State) returns (rk: array<Byte>)
    requires n <= 10 && HoldsKeys(roundKeys[..], keys)
    ensures fresh(rk) && rk.Length == 16 && FromBytes(rk[..]) == keys(n)
  {
    rk := new Byte[16](i requires 0 <= i < 16 && 16 * n + i < roundKeys.Length reads roundKeys => roundKeys[16 * n + i]);
    assert KeyAt(roundKeys[..], keys, n);
    assert rk[..] == roundKeys[..][16 * n..16 * n + 16];
  }

  method ReferenceMiddle(box: SBox, state: array<Byte>, rk: array<Byte>)
    requires state.Length == 16 && rk.Length == 16 && state != rk
    modifies state
    ensures FromBytes(state[..]) == FipsRounds(box).middle(FromBytes(old(state[..])), FromBytes(rk[..]))
  {
    SubBytesInPlace(box, state);
    ShiftRowsInPlace(state);
    MixColumnsInPlace(state);
    AddRoundKeyInPlace(state, rk);
  }

  method ReferenceLast(box: SBox, state: array<Byte>, rk: array<Byte>)
    requires state.Length == 16 && rk.Length == 16 && state != rk
    modifies state
    ensures FromBytes(state[..]) == FipsRounds(box).last(FromBytes(old(state[..])), FromBytes(rk[..]))
  {
    SubBytesInPlace(box, state);
    ShiftRowsInPlace(state);
    AddRoundKeyInPlace(state, rk);
  }

  method ReferenceFirst(box: SBox, state: array<Byte>, rk: array<Byte>)
    requires state.Length == 16 && rk.Length == 16 && state != rk
    modifies state
    ensures FromBytes(state[..]) == FipsRounds(box).first(FromBytes(old(state[..])), FromBytes(rk[..]))
  {
    AddRoundKeyInPlace(state, rk);
  }

  ghost predicate Shown(f: RoundFunctions)
  {
    true
  }

  /** f is the rounds that the reference functions make up. The quantifier keeps the
      rounds abstract for the verifier until they are shown. */
  ghost predicate RoundsOf(box: SBox, f: RoundFunctions)
  {
    forall g: RoundFunctions {:trigger Shown(g)} :: Shown(g) && g == f ==> g == FipsRounds(box)
  }

  method ReferenceRound(box: SBox, roundKeys: array<Byte>, state: array<Byte>, round: nat, ghost keys: nat -> State,
                        ghost f: RoundFunctions)
    requires state.Length == 16 && round <= 10 && HoldsKeys(roundKeys[..], keys) && RoundsOf(box, f) && state != roundKeys
    modifies state
    ensures FromBytes(state[..]) ==
      if round == 0 then f.first(FromBytes(old(state[..])), keys(0))
      else if round < 10 then f.middle(FromBytes(old(state[..])), keys(round))
      else f.last(FromBytes(old(state[..])), keys(10))
  {
    assert Shown(f);
    var rk := RoundKeyOf(roundKeys, round, keys);
    if round == 0 {
      ReferenceFirst(box, state, rk);
    } else if round < 10 {
      ReferenceMiddle(box, state, rk);
    } else {
      ReferenceLast(box, state, rk);
    }
  }

  ghost predicate RoundsDone(b: seq<Byte>, f: RoundFunctions, keys: nat -> State, input: State, n: nat)
  {
    |b| == 16 && FromBytes(b) == AfterRound(f, keys, input, n)
  }

  method NextReferenceRound(box: SBox, roundKeys: array<Byte>, state: array<Byte>, round: nat, ghost keys: nat -> State,
                            ghost f: RoundFunctions, ghost input: State)
    requires 1 <= round <= 9 && HoldsKeys(roundKeys[..], keys) && RoundsOf(box, f) && state != roundKeys
    requires RoundsDone(state[..], f, keys, input, round - 1)
    modifies state
    ensures RoundsDone(state[..], f, keys, input, round)
  {
    ReferenceRound(box, roundKeys, state, round, keys, f);
  }

  method FirstReferenceRound(box: SBox, roundKeys: array<Byte>, state: array<Byte>, ghost keys: nat -> State, ghost f: RoundFunctions)
    requires state.Length == 16 && HoldsKeys(roundKeys[..], keys) && RoundsOf(box, f) && state != roundKeys
    modifies state
    ensures RoundsDone(state[..], f, keys, FromBytes(old(state[..])), 0)
  {
    ReferenceRound(box, roundKeys, state, 0, keys, f);
  }

  method ReferenceRounds(box: SBox, roundKeys: array<Byte>, state: array<Byte>, ghost keys: nat -> State, ghost f: RoundFunctions)
    requires state.Length == 16 && state != roundKeys && HoldsKeys(roundKeys[..], keys) && RoundsOf(box, f)
    modifies state
    ensures RoundsDone(state[..], f, keys, FromBytes(old(state[..])), 9)
  {
    ghost var input := FromBytes(state[..]);
    FirstReferenceRound(box, roundKeys, state, keys, f);
    for round := 1 to 10
      invariant RoundsDone(state[..], f, keys, input, round - 1)
    {
      NextReferenceRound(box, roundKeys, state, round, keys, f, input);
    }
  }

  method ReferenceCipher(box: SBox, roundKeys: array<Byte>, state: array<Byte>, ghost keys: nat -> State, ghost f: RoundFunctions)
    requires state.Length == 16 && state != roundKeys && HoldsKeys(roundKeys[..], keys) && RoundsOf(box, f)
    modifies state
    ensures FromBytes(state[..]) == CipherWith(f, keys, FromBytes(old(state[..])))
  {
    ReferenceRounds(box, roundKeys, state, keys, f);
    ReferenceRound(box, roundKeys, state, 10, keys, f);
  }

  /** expand_key, sub_bytes, shift_rows, mix_columns and add_round_key, in the order of
      FIPS-197, make up the same cipher that the hardware program computes. */
  method ReferenceEncrypt(box: SBox, key: array<Byte>, state: array<Byte>)
    requires key.Length == 16 && state.Length == 16
    modifies state
    ensures FromBytes(state[..]) == Cipher(box, FromBytes(old(key[..])), FromBytes(old(state[..])))
  {
    ghost var k := FromBytes(key[..]);
    var roundKeys := new Byte[176](_ => ZERO);
    ExpandKey(box, key, roundKeys);
    ExpandedHoldsKeys(box, k, roundKeys[..]);
    ReferenceCipher(box, roundKeys, state, Schedule(box, k), FipsRounds(box));
  }
}
