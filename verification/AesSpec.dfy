/** AES-128 encryption as FIPS-197 (2001) defines it, over any substitution table. */
module AesSpec {
  import opened Bits
  import opened AesField

  type SBox = Byte -> Byte

  /** A column of the state, or a word of the key schedule. */
  datatype Column = Column(r0: Byte, r1: Byte, r2: Byte, r3: Byte)

  datatype State = State(c0: Column, c1: Column, c2: Column, c3: Column)

  function RowOf(w: Column, r: nat): (b: Byte)
  {
    if r == 0 then w.r0 else if r == 1 then w.r1 else if r == 2 then w.r2 else w.r3
  }

  function ColumnOf(s: State, c: nat): (w: Column)
  {
    if c == 0 then s.c0 else if c == 1 then s.c1 else if c == 2 then s.c2 else s.c3
  }

  /** s[r, c] of section 3.4. */
  function Cell(s: State, r: nat, c: nat): (b: Byte)
  {
    RowOf(ColumnOf(s, c), r)
  }

  function SubWord(box: SBox, w: Column): (w': Column)
  {
    Column(box(w.r0), box(w.r1), box(w.r2), box(w.r3))
  }

  /** Section 5.1.1. */
  function SubBytes(box: SBox, s: State): (s': State)
  {
    State(SubWord(box, s.c0), SubWord(box, s.c1), SubWord(box, s.c2), SubWord(box, s.c3))
  }

  /** Column c after row r has been rotated left by r, for every row. */
  function ShiftedColumn(s: State, c: nat): (w: Column)
  {
    Column(Cell(s, 0, c), Cell(s, 1, (c + 1) % 4), Cell(s, 2, (c + 2) % 4), Cell(s, 3, (c + 3) % 4))
  }

  /** Section 5.1.2. */
  function ShiftRows(s: State): (s': State)
  {
    State(ShiftedColumn(s, 0), ShiftedColumn(s, 1), ShiftedColumn(s, 2), ShiftedColumn(s, 3))
  }

  function Xor4(a: Byte, b: Byte, c: Byte, d: Byte): (x: Byte)
  {
    Xor(Xor(Xor(a, b), c), d)
  }

  /** One column times a fixed polynomial: row r of the circulant matrix product. */
  function MixCell(k0: Byte, k1: Byte, k2: Byte, k3: Byte, w: Column, r: nat): (b: Byte)
  {
    Xor4(GfMul(k0, RowOf(w, r)), GfMul(k1, RowOf(w, (r + 1) % 4)),
         GfMul(k2, RowOf(w, (r + 2) % 4)), GfMul(k3, RowOf(w, (r + 3) % 4)))
  }

  function MixWith(k0: Byte, k1: Byte, k2: Byte, k3: Byte, w: Column): (w': Column)
  {
    Column(MixCell(k0, k1, k2, k3, w, 0), MixCell(k0, k1, k2, k3, w, 1),
           MixCell(k0, k1, k2, k3, w, 2), MixCell(k0, k1, k2, k3, w, 3))
  }

  function MixColumn(w: Column): (w': Column)
  {
    MixWith(TWO, THREE, ONE, ONE, w)
  }

  /** Section 5.1.3. */
  function MixColumns(s: State): (s': State)
  {
    State(MixColumn(s.c0), MixColumn(s.c1), MixColumn(s.c2), MixColumn(s.c3))
  }

  function XorWord(a: Column, b: Column): (w: Column)
  {
    Column(Xor(a.r0, b.r0), Xor(a.r1, b.r1), Xor(a.r2, b.r2), Xor(a.r3, b.r3))
  }

  /** Section 5.1.4. */
  function AddRoundKey(s: State, k: State): (s': State)
  {
    State(XorWord(s.c0, k.c0), XorWord(s.c1, k.c1), XorWord(s.c2, k.c2), XorWord(s.c3, k.c3))
  }

  // Section 5.2, key expansion.

  function RotWord(w: Column): (w': Column)
  {
    Column(w.r1, w.r2, w.r3, w.r0)
  }

  /** Rcon[j] is x^(j-1) followed by three zero bytes. */
  function Rcon(j: nat): (w: Column)
    requires j >= 1
  {
    Column(TimesPower(ONE, j - 1), ZERO, ZERO, ZERO)
  }

  /** w[i] of the expanded key. */
  function KeyWord(box: SBox, key: State, i: nat): (w: Column)
  {
    if i < 4 then ColumnOf(key, i)
    else
      var temp := KeyWord(box, key, i - 1);
      XorWord(KeyWord(box, key, i - 4),
              if i % 4 == 0 then XorWord(SubWord(box, RotWord(temp)), Rcon(i / 4)) else temp)
  }

  function RoundKey(box: SBox, key: State, n: nat): (k: State)
  {
    State(KeyWord(box, key, 4 * n), KeyWord(box, key, 4 * n + 1), KeyWord(box, key, 4 * n + 2), KeyWord(box, key, 4 * n + 3))
  }

  // Section 5.1, the cipher.

  function MiddleRound(box: SBox, s: State, k: State): (s': State)
  {
    AddRoundKey(MixColumns(ShiftRows(SubBytes(box, s))), k)
  }

  function FinalRound(box: SBox, s: State, k: State): (s': State)
  {
    AddRoundKey(ShiftRows(SubBytes(box, s)), k)
  }

  /** The three kinds of round, each taking the state and a round key. */
  datatype RoundFunctions = RoundFunctions(first: (State, State) -> State, middle: (State, State) -> State,
                                           last: (State, State) -> State)

  function FipsRounds(box: SBox): (f: RoundFunctions)
  {
    RoundFunctions((s: State, k: State) => AddRoundKey(s, k), (s: State, k: State) => MiddleRound(box, s, k),
                   (s: State, k: State) => FinalRound(box, s, k))
  }

  function Schedule(box: SBox, key: State): (keys: nat -> State)
  {
    (n: nat) => RoundKey(box, key, n)
  }

  /** The state after round n < 10. */
  function AfterRound(f: RoundFunctions, keys: nat -> State, input: State, n: nat): (s: State)
  {
    if n == 0 then f.first(input, keys(0))
    else f.middle(AfterRound(f, keys, input, n - 1), keys(n))
  }

  function CipherWith(f: RoundFunctions, keys: nat -> State, input: State): (output: State)
  {
    f.last(AfterRound(f, keys, input, 9), keys(10))
  }

  function Cipher(box: SBox, key: State, input: State): (output: State)
  {
    CipherWith(FipsRounds(box), Schedule(box, key), input)
  }

  // Section 3.4: bytes in and out, column after column.

  function FromBytes(b: seq<Byte>): (s: State)
    requires |b| == 16
  {
    State(Column(b[0], b[1], b[2], b[3]), Column(b[4], b[5], b[6], b[7]),
          Column(b[8], b[9], b[10], b[11]), Column(b[12], b[13], b[14], b[15]))
  }

  function ColumnBytes(w: Column): (b: seq<Byte>)
    ensures |b| == 4
  {
    [w.r0, w.r1, w.r2, w.r3]
  }

  function ToBytes(s: State): (b: seq<Byte>)
    ensures |b| == 16
  {
    ColumnBytes(s.c0) + ColumnBytes(s.c1) + ColumnBytes(s.c2) + ColumnBytes(s.c3)
  }

  lemma BytesRoundTrip(b: seq<Byte>, s: State)
    ensures FromBytes(ToBytes(s)) == s
    ensures |b| == 16 ==> ToBytes(FromBytes(b)) == b
  {}
}
