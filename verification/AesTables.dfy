/** The substitution table of the C code and of all four hardware units, with its
    inverse: the two tables of FIPS-197, figures 7 and 14. */
module AesTables {
  import opened Bits
  import opened AesField
  import opened AesSpec
  import opened AesUnits
  import opened AesInstructions
  import opened AesInverse

  /** Entry l of a row. */
  function Pick(l: nat, v0: nat, v1: nat, v2: nat, v3: nat, v4: nat, v5: nat, v6: nat, v7: nat,
                v8: nat, v9: nat, v10: nat, v11: nat, v12: nat, v13: nat, v14: nat, v15: nat): (v: nat)
  {
    match l
    case 0 => v0 case 1 => v1 case 2 => v2 case 3 => v3
    case 4 => v4 case 5 => v5 case 6 => v6 case 7 => v7
    case 8 => v8 case 9 => v9 case 10 => v10 case 11 => v11
    case 12 => v12 case 13 => v13 case 14 => v14 case _ => v15
  }

  /** The entry for the byte with high digit h and low digit l. */
  function Entry(h: nat, l: nat): (v: nat)
  {
    match h
    case 0 => Pick(l, 0x63, 0x7c, 0x77, 0x7b, 0xf2, 0x6b, 0x6f, 0xc5, 0x30, 0x01, 0x67, 0x2b, 0xfe, 0xd7, 0xab, 0x76)
    case 1 => Pick(l, 0xca, 0x82, 0xc9, 0x7d, 0xfa, 0x59, 0x47, 0xf0, 0xad, 0xd4, 0xa2, 0xaf, 0x9c, 0xa4, 0x72, 0xc0)
    case 2 => Pick(l, 0xb7, 0xfd, 0x93, 0x26, 0x36, 0x3f, 0xf7, 0xcc, 0x34, 0xa5, 0xe5, 0xf1, 0x71, 0xd8, 0x31, 0x15)
    case 3 => Pick(l, 0x04, 0xc7, 0x23, 0xc3, 0x18, 0x96, 0x05, 0x9a, 0x07, 0x12, 0x80, 0xe2, 0xeb, 0x27, 0xb2, 0x75)
    case 4 => Pick(l, 0x09, 0x83, 0x2c, 0x1a, 0x1b, 0x6e, 0x5a, 0xa0, 0x52, 0x3b, 0xd6, 0xb3, 0x29, 0xe3, 0x2f, 0x84)
    case 5 => Pick(l, 0x53, 0xd1, 0x00, 0xed, 0x20, 0xfc, 0xb1, 0x5b, 0x6a, 0xcb, 0xbe, 0x39, 0x4a, 0x4c, 0x58, 0xcf)
    case 6 => Pick(l, 0xd0, 0xef, 0xaa, 0xfb, 0x43, 0x4d, 0x33, 0x85, 0x45, 0xf9, 0x02, 0x7f, 0x50, 0x3c, 0x9f, 0xa8)
    case 7 => Pick(l, 0x51, 0xa3, 0x40, 0x8f, 0x92, 0x9d, 0x38, 0xf5, 0xbc, 0xb6, 0xda, 0x21, 0x10, 0xff, 0xf3, 0xd2)
    case 8 => Pick(l, 0xcd, 0x0c, 0x13, 0xec, 0x5f, 0x97, 0x44, 0x17, 0xc4, 0xa7, 0x7e, 0x3d, 0x64, 0x5d, 0x19, 0x73)
    case 9 => Pick(l, 0x60, 0x81, 0x4f, 0xdc, 0x22, 0x2a, 0x90, 0x88, 0x46, 0xee, 0xb8, 0x14, 0xde, 0x5e, 0x0b, 0xdb)
    case 10 => Pick(l, 0xe0, 0x32, 0x3a, 0x0a, 0x49, 0x06, 0x24, 0x5c, 0xc2, 0xd3, 0xac, 0x62, 0x91, 0x95, 0xe4, 0x79)
    case 11 => Pick(l, 0xe7, 0xc8, 0x37, 0x6d, 0x8d, 0xd5, 0x4e, 0xa9, 0x6c, 0x56, 0xf4, 0xea, 0x65, 0x7a, 0xae, 0x08)
    case 12 => Pick(l, 0xba, 0x78, 0x25, 0x2e, 0x1c, 0xa6, 0xb4, 0xc6, 0xe8, 0xdd, 0x74, 0x1f, 0x4b, 0xbd, 0x8b, 0x8a)
    case 13 => Pick(l, 0x70, 0x3e, 0xb5, 0x66, 0x48, 0x03, 0xf6, 0x0e, 0x61, 0x35, 0x57, 0xb9, 0x86, 0xc1, 0x1d, 0x9e)
    case 14 => Pick(l, 0xe1, 0xf8, 0x98, 0x11, 0x69, 0xd9, 0x8e, 0x94, 0x9b, 0x1e, 0x87, 0xe9, 0xce, 0x55, 0x28, 0xdf)
    case 15 => Pick(l, 0x8c, 0xa1, 0x89, 0x0d, 0xbf, 0xe6, 0x42, 0x68, 0x41, 0x99, 0x2d, 0x0f, 0xb0, 0x54, 0xbb, 0x16)
    case _ => 0
  }

  function InvEntry(h: nat, l: nat): (v: nat)
  {
    match h
    case 0 => Pick(l, 0x52, 0x09, 0x6a, 0xd5, 0x30, 0x36, 0xa5, 0x38, 0xbf, 0x40, 0xa3, 0x9e, 0x81, 0xf3, 0xd7, 0xfb)
    case 1 => Pick(l, 0x7c, 0xe3, 0x39, 0x82, 0x9b, 0x2f, 0xff, 0x87, 0x34, 0x8e, 0x43, 0x44, 0xc4, 0xde, 0xe9, 0xcb)
    case 2 => Pick(l, 0x54, 0x7b, 0x94, 0x32, 0xa6, 0xc2, 0x23, 0x3d, 0xee, 0x4c, 0x95, 0x0b, 0x42, 0xfa, 0xc3, 0x4e)
    case 3 => Pick(l, 0x08, 0x2e, 0xa1, 0x66, 0x28, 0xd9, 0x24, 0xb2, 0x76, 0x5b, 0xa2, 0x49, 0x6d, 0x8b, 0xd1, 0x25)
    case 4 => Pick(l, 0x72, 0xf8, 0xf6, 0x64, 0x86, 0x68, 0x98, 0x16, 0xd4, 0xa4, 0x5c, 0xcc, 0x5d, 0x65, 0xb6, 0x92)
    case 5 => Pick(l, 0x6c, 0x70, 0x48, 0x50, 0xfd, 0xed, 0xb9, 0xda, 0x5e, 0x15, 0x46, 0x57, 0xa7, 0x8d, 0x9d, 0x84)
    case 6 => Pick(l, 0x90, 0xd8, 0xab, 0x00, 0x8c, 0xbc, 0xd3, 0x0a, 0xf7, 0xe4, 0x58, 0x05, 0xb8, 0xb3, 0x45, 0x06)
    case 7 => Pick(l, 0xd0, 0x2c, 0x1e, 0x8f, 0xca, 0x3f, 0x0f, 0x02, 0xc1, 0xaf, 0xbd, 0x03, 0x01, 0x13, 0x8a, 0x6b)
    case 8 => Pick(l, 0x3a, 0x91, 0x11, 0x41, 0x4f, 0x67, 0xdc, 0xea, 0x97, 0xf2, 0xcf, 0xce, 0xf0, 0xb4, 0xe6, 0x73)
    case 9 => Pick(l, 0x96, 0xac, 0x74, 0x22, 0xe7, 0xad, 0x35, 0x85, 0xe2, 0xf9, 0x37, 0xe8, 0x1c, 0x75, 0xdf, 0x6e)
    case 10 => Pick(l, 0x47, 0xf1, 0x1a, 0x71, 0x1d, 0x29, 0xc5, 0x89, 0x6f, 0xb7, 0x62, 0x0e, 0xaa, 0x18, 0xbe, 0x1b)
    case 11 => Pick(l, 0xfc, 0x56, 0x3e, 0x4b, 0xc6, 0xd2, 0x79, 0x20, 0x9a, 0xdb, 0xc0, 0xfe, 0x78, 0xcd, 0x5a, 0xf4)
    case 12 => Pick(l, 0x1f, 0xdd, 0xa8, 0x33, 0x88, 0x07, 0xc7, 0x31, 0xb1, 0x12, 0x10, 0x59, 0x27, 0x80, 0xec, 0x5f)
    case 13 => Pick(l, 0x60, 0x51, 0x7f, 0xa9, 0x19, 0xb5, 0x4a, 0x0d, 0x2d, 0xe5, 0x7a, 0x9f, 0x93, 0xc9, 0x9c, 0xef)
    case 14 => Pick(l, 0xa0, 0xe0, 0x3b, 0x4d, 0xae, 0x2a, 0xf5, 0xb0, 0xc8, 0xeb, 0xbb, 0x3c, 0x83, 0x53, 0x99, 0x61)
    case 15 => Pick(l, 0x17, 0x2b, 0x04, 0x7e, 0xba, 0x77, 0xd6, 0x26, 0xe1, 0x69, 0x14, 0x63, 0x55, 0x21, 0x0c, 0x7d)
    case _ => 0
  }

  /** The two tables agree on one byte. */
  predicate Agrees(h: nat, l: nat)
  {
    var v, w := Entry(h, l), InvEntry(h, l);
    && v < 256 && InvEntry(v / 16, v % 16) == 16 * h + l
    && w < 256 && Entry(w / 16, w % 16) == 16 * h + l
  }

  lemma Row0(l: nat)
    requires l < 16
    ensures Agrees(0, l)
  {}

  lemma Row1(l: nat)
    requires l < 16
    ensures Agrees(1, l)
  {}

  lemma Row2(l: nat)
    requires l < 16
    ensures Agrees(2, l)
  {}

  lemma Row3(l: nat)
    requires l < 16
    ensures Agrees(3, l)
  {}

  lemma Row4(l: nat)
    requires l < 16
    ensures Agrees(4, l)
  {}

  lemma Row5(l: nat)
    requires l < 16
    ensures Agrees(5, l)
  {}

  lemma Row6(l: nat)
    requires l < 16
    ensures Agrees(6, l)
  {}

  lemma Row7(l: nat)
    requires l < 16
    ensures Agrees(7, l)
  {}

  lemma Row8(l: nat)
    requires l < 16
    ensures Agrees(8, l)
  {}

  lemma Row9(l: nat)
    requires l < 16
    ensures Agrees(9, l)
  {}

  lemma Row10(l: nat)
    requires l < 16
    ensures Agrees(10, l)
  {}

  lemma Row11(l: nat)
    requires l < 16
    ensures Agrees(11, l)
  {}

  lemma Row12(l: nat)
    requires l < 16
    ensures Agrees(12, l)
  {}

  lemma Row13(l: nat)
    requires l < 16
    ensures Agrees(13, l)
  {}

  lemma Row14(l: nat)
    requires l < 16
    ensures Agrees(14, l)
  {}

  lemma Row15(l: nat)
    requires l < 16
    ensures Agrees(15, l)
  {}

  lemma TablesAgree(h: nat, l: nat)
    requires h < 16 && l < 16
    ensures Agrees(h, l)
  {
    match h
    case 0 => Row0(l);
    case 1 => Row1(l);
    case 2 => Row2(l);
    case 3 => Row3(l);
    case 4 => Row4(l);
    case 5 => Row5(l);
    case 6 => Row6(l);
    case 7 => Row7(l);
    case 8 => Row8(l);
    case 9 => Row9(l);
    case 10 => Row10(l);
    case 11 => Row11(l);
    case 12 => Row12(l);
    case 13 => Row13(l);
    case 14 => Row14(l);
    case _ => Row15(l);
  }

  // Bytes and numbers.

  function Nibble(b0: bool, b1: bool, b2: bool, b3: bool): (n: nat)
    ensures n < 16
  {
    Bit(b0) + 2 * Bit(b1) + 4 * Bit(b2) + 8 * Bit(b3)
  }

  function High(b: Byte): (h: nat)
  {
    Nibble(b[4], b[5], b[6], b[7])
  }

  function Low(b: Byte): (l: nat)
  {
    Nibble(b[0], b[1], b[2], b[3])
  }

  function NibbleBits(n: nat): (s: seq<bool>)
    ensures |s| == 4
  {
    [n % 2 == 1, n / 2 % 2 == 1, n / 4 % 2 == 1, n / 8 % 2 == 1]
  }

  function FromDigits(h: nat, l: nat): (b: Byte)
  {
    NibbleBits(l) + NibbleBits(h)
  }

  function FromNumber(v: nat): (b: Byte)
  {
    FromDigits(v / 16, v % 16)
  }

  lemma NibbleRoundTrip(n: nat, b0: bool, b1: bool, b2: bool, b3: bool)
    ensures NibbleBits(Nibble(b0, b1, b2, b3)) == [b0, b1, b2, b3]
    ensures n < 16 ==> Nibble(NibbleBits(n)[0], NibbleBits(n)[1], NibbleBits(n)[2], NibbleBits(n)[3]) == n
  {}

  lemma Halves(l: seq<bool>, h: seq<bool>)
    requires |l| == |h| == 4
    ensures Low(l + h) == Nibble(l[0], l[1], l[2], l[3]) && High(l + h) == Nibble(h[0], h[1], h[2], h[3])
  {}

  lemma DigitsOf(h: nat, l: nat)
    requires h < 16 && l < 16
    ensures High(FromDigits(h, l)) == h && Low(FromDigits(h, l)) == l
  {
    NibbleRoundTrip(h, false, false, false, false);
    NibbleRoundTrip(l, false, false, false, false);
    Halves(NibbleBits(l), NibbleBits(h));
  }

  lemma NumberRoundTrip(v: nat)
    requires v < 256
    ensures High(FromNumber(v)) == v / 16 && Low(FromNumber(v)) == v % 16
  {
    DigitsOf(v / 16, v % 16);
  }

  lemma DigitsRoundTrip(b: Byte, v: nat)
    requires v == 16 * High(b) + Low(b)
    ensures FromNumber(v) == b
  {
    assert v % 16 == Low(b) && v / 16 == High(b);
    NibbleRoundTrip(0, b[0], b[1], b[2], b[3]);
    NibbleRoundTrip(0, b[4], b[5], b[6], b[7]);
  }

  function Substitute(b: Byte): (b': Byte)
  {
    FromNumber(Entry(High(b), Low(b)))
  }

  function Restore(b: Byte): (b': Byte)
  {
    FromNumber(InvEntry(High(b), Low(b)))
  }

  lemma SubstituteInverts(b: Byte)
    ensures Restore(Substitute(b)) == b && Substitute(Restore(b)) == b
  {
    var h, l := High(b), Low(b);
    TablesAgree(h, l);
    NumberRoundTrip(Entry(h, l));
    NumberRoundTrip(InvEntry(h, l));
    DigitsRoundTrip(b, 16 * h + l);
  }

  /** The table as the function that the units are built over. */
  function SBoxTable(): (box: SBox)
  {
    (b: Byte) => Substitute(b)
  }

  function InverseTable(): (inv: SBox)
  {
    (b: Byte) => Restore(b)
  }

  /** The substitution table is a permutation of the bytes with this inverse. */
  lemma TableInverts()
    ensures InverseTables(SBoxTable(), InverseTable())
  {
    forall b: Byte ensures Restore(Substitute(b)) == b && Substitute(Restore(b)) == b {
      SubstituteInverts(b);
    }
  }

  /** AES-128 as shipped: for every key, what the 33 instructions leave in the
      state register deciphers to the plaintext, and two blocks never collide. */
  lemma ShippedCipherInverts(r: Regs, pin: Quad, kin: Quad)
    ensures
      var s := ExecuteAll(Wired(SBoxTable()), r, BlockProgram(pin, kin)).st;
      Decipher(SBoxTable(), InverseTable(), ToState(kin), ToState(s)) == ToState(pin)
  {
    TableInverts();
    BlockDecrypts(SBoxTable(), InverseTable(), r, pin, kin);
  }

  lemma ShippedCipherInjective(key: State, a: State, b: State)
    ensures Cipher(SBoxTable(), key, a) == Cipher(SBoxTable(), key, b) ==> a == b
  {
    TableInverts();
    CipherInjective(SBoxTable(), InverseTable(), key, a, b);
  }
}
