/** Which placements of the three buffers the ECB loop of AES-128 survives: exact
    conditions for the cipher of the source, not for ciphers at large. */
module AesPlacement {
  import opened AesField
  import opened AesSpec
  import opened AesBlock
  import opened AesEcb
  import opened AesInverse
  import opened AesTables

  /** dec deciphers what enc enciphers, and conversely. */
  ghost predicate Deciphers(dec: BlockCipher, enc: BlockCipher)
  {
    && (forall k: Sixteen, b: Sixteen :: dec(k, enc(k, b)) == b)
    && (forall k: Sixteen, b: Sixteen :: enc(k, dec(k, b)) == b)
  }

  function DecipherOf(box: SBox, inv: SBox): (decipher: (State, State) -> State)
  {
    (key: State, output: State) => Decipher(box, inv, key, output)
  }

  function Aes128Inverse(box: SBox, inv: SBox): (dec: BlockCipher)
  {
    (k: Sixteen, b: Sixteen) => Block(DecipherOf(box, inv)(FromBytes(k), FromBytes(b)))
  }

  /** f undoes g under every key. */
  ghost predicate Undo(f: (State, State) -> State, g: (State, State) -> State)
  {
    forall k: State, s: State :: f(k, g(k, s)) == s
  }

  lemma BytesDecipher(cipher: (State, State) -> State, decipher: (State, State) -> State, enc: BlockCipher, dec: BlockCipher,
                      k: Sixteen, b: Sixteen)
    requires ByteForm(cipher, enc) && ByteForm(decipher, dec) && Undo(decipher, cipher)
    ensures dec(k, enc(k, b)) == b
  {
    var key, s := FromBytes(k), FromBytes(b);
    ByteFormOf(cipher, enc, k, b);
    ByteFormOf(decipher, dec, k, enc(k, b));
    BytesRoundTrip(b, cipher(key, s));
  }

  lemma CiphersUndo(box: SBox, inv: SBox)
    requires InverseTables(box, inv)
    ensures Undo(DecipherOf(box, inv), CipherOf(box)) && Undo(CipherOf(box), DecipherOf(box, inv))
  {
    var cipher, decipher := CipherOf(box), DecipherOf(box, inv);
    forall k: State, s: State ensures decipher(k, cipher(k, s)) == s && cipher(k, decipher(k, s)) == s {
      CipherInverts(box, inv, k, s);
    }
  }

  lemma InverseForms(box: SBox, inv: SBox)
    ensures ByteForm(DecipherOf(box, inv), Aes128Inverse(box, inv))
  {}

  lemma Aes128Deciphers(box: SBox, inv: SBox)
    requires InverseTables(box, inv)
    ensures Deciphers(Aes128Inverse(box, inv), Aes128(box))
  {
    var enc, dec := Aes128(box), Aes128Inverse(box, inv);
    CiphersUndo(box, inv);
    Aes128Forms(box);
    InverseForms(box, inv);
    forall k: Sixteen, b: Sixteen ensures dec(k, enc(k, b)) == b && enc(k, dec(k, b)) == b {
      BytesDecipher(CipherOf(box), DecipherOf(box, inv), enc, dec, k, b);
      BytesDecipher(DecipherOf(box, inv), CipherOf(box), dec, enc, k, b);
    }
  }

  /** The buffers lie within a memory of some size, and hold n whole blocks. */
  predicate Fits(size: nat, plaintext: nat, len: nat, key: nat, ciphertext: nat, n: nat)
  {
    plaintext + len <= size && key + 16 <= size && ciphertext + len <= size && len == 16 * n
  }

  /** The loop encrypts block by block whatever the memory holds. */
  ghost predicate AlwaysBlockwise(enc: BlockCipher, size: nat, plaintext: nat, len: nat, key: nat, ciphertext: nat, n: nat)
    requires Fits(size, plaintext, len, key, ciphertext, n)
  {
    forall m: seq<Byte> :: |m| == size ==> Blockwise(enc, m, plaintext, len, key, ciphertext, n)
  }

  ghost predicate Blockwise(enc: BlockCipher, m: seq<Byte>, plaintext: nat, len: nat, key: nat, ciphertext: nat, n: nat)
  {
    && Fits(|m|, plaintext, len, key, ciphertext, n)
    && Stored(enc, m, plaintext, key, ciphertext, n) == AfterBlocks(enc, m, plaintext, len, key, ciphertext, n)
  }

  lemma SafeAlways(enc: BlockCipher, size: nat, plaintext: nat, len: nat, key: nat, ciphertext: nat, n: nat)
    requires Fits(size, plaintext, len, key, ciphertext, n) && Safe(plaintext, len, key, ciphertext)
    ensures AlwaysBlockwise(enc, size, plaintext, len, key, ciphertext, n)
  {
    forall m: seq<Byte> | |m| == size ensures Blockwise(enc, m, plaintext, len, key, ciphertext, n) {
      SafeWorks(size, plaintext, len, key, ciphertext, n, enc, m);
    }
  }

  // An output that overtakes its input.

  /** A byte that the first block overwrites unread is forgotten at once. */
  lemma FirstForgets(enc: BlockCipher, m: seq<Byte>, plaintext: nat, key: nat, ciphertext: nat, a: nat, v: Byte)
    requires plaintext + 16 <= |m| && key + 16 <= |m| && ciphertext + 16 <= |m| && ciphertext <= a < ciphertext + 16
    requires !(plaintext <= a < plaintext + 16) && !(key <= a < key + 16)
    ensures Encrypted(enc, m[a := v], plaintext, key, ciphertext, 0) == Encrypted(enc, m, plaintext, key, ciphertext, 0)
  {
    var m' := m[a := v];
    assert m'[key..key + 16] == m[key..key + 16];
    assert m'[plaintext..plaintext + 16] == m[plaintext..plaintext + 16];
    OverPatched(m, a, v, ciphertext, enc(m[key..key + 16], m[plaintext..plaintext + 16]));
  }

  lemma OverPatched(m: seq<Byte>, a: nat, v: Byte, at: nat, d: seq<Byte>)
    requires at <= a < at + |d| <= |m|
    ensures Patched(m[a := v], at, d) == Patched(m, at, d)
  {}

  lemma {:induction false} Forgets(enc: BlockCipher, m: seq<Byte>, plaintext: nat, key: nat, ciphertext: nat, n: nat, a: nat, v: Byte)
    requires n >= 1 && plaintext + 16 * n <= |m| && key + 16 <= |m| && ciphertext + 16 * n <= |m| && ciphertext <= a < ciphertext + 16
    requires !(plaintext <= a < plaintext + 16) && !(key <= a < key + 16)
    ensures Stored(enc, m[a := v], plaintext, key, ciphertext, n) == Stored(enc, m, plaintext, key, ciphertext, n)
  {
    if n == 1 {
      FirstForgets(enc, m, plaintext, key, ciphertext, a, v);
    } else {
      Forgets(enc, m, plaintext, key, ciphertext, n - 1, a, v);
    }
  }

  /** Block by block, every byte of the input counts. */
  lemma EveryByteCounts(enc: BlockCipher, dec: BlockCipher, k: Sixteen, data: seq<Byte>, data': seq<Byte>, n: nat, x: nat)
    requires Deciphers(dec, enc) && |data| == |data'| == 16 * n && x < 16 * n && data[x] != data'[x]
    ensures Ecb(enc, k, data, n) != Ecb(enc, k, data', n)
  {
    var i, t := x / 16, x % 16;
    var b, b' := Part(data, i), Part(data', i);
    EcbBlock(enc, k, data, n, i);
    EcbBlock(enc, k, data', n, i);
    assert b[t] == data[x] && b'[t] == data'[x];
    assert dec(k, enc(k, b)) == b && dec(k, enc(k, b')) == b';
  }

  lemma PatchShows(m: seq<Byte>, at: nat, d: seq<Byte>)
    requires at + |d| <= |m|
    ensures Patched(m, at, d)[at..at + |d|] == d
  {}

  /** Memories that differ in one byte of the input, told apart by block-wise encryption. */
  lemma OutcomesDiffer(enc: BlockCipher, dec: BlockCipher, m: seq<Byte>, m': seq<Byte>, plaintext: nat, len: nat, key: nat,
                       ciphertext: nat, n: nat, a: nat)
    requires Deciphers(dec, enc) && |m| == |m'| && Fits(|m|, plaintext, len, key, ciphertext, n)
    requires m[key..key + 16] == m'[key..key + 16] && plaintext <= a < plaintext + len && m[a] != m'[a]
    ensures AfterBlocks(enc, m', plaintext, len, key, ciphertext, n) != AfterBlocks(enc, m, plaintext, len, key, ciphertext, n)
  {
    var k, data, data' := m[key..key + 16], m[plaintext..plaintext + len], m'[plaintext..plaintext + len];
    assert data[a - plaintext] == m[a] && data'[a - plaintext] == m'[a];
    EveryByteCounts(enc, dec, k, data, data', n, a - plaintext);
    PatchShows(m, ciphertext, Ecb(enc, k, data, n));
    PatchShows(m', ciphertext, Ecb(enc, k, data', n));
  }

  /** Of two such memories, the loop cannot encrypt both if it forgets the difference. */
  lemma NotBoth(enc: BlockCipher, dec: BlockCipher, m: seq<Byte>, m': seq<Byte>, plaintext: nat, len: nat, key: nat,
                ciphertext: nat, n: nat, a: nat)
    requires Deciphers(dec, enc) && |m| == |m'| && Fits(|m|, plaintext, len, key, ciphertext, n)
    requires m[key..key + 16] == m'[key..key + 16] && plaintext <= a < plaintext + len && m[a] != m'[a]
    requires Stored(enc, m', plaintext, key, ciphertext, n) == Stored(enc, m, plaintext, key, ciphertext, n)
    ensures !Blockwise(enc, m, plaintext, len, key, ciphertext, n) || !Blockwise(enc, m', plaintext, len, key, ciphertext, n)
  {
    OutcomesDiffer(enc, dec, m, m', plaintext, len, key, ciphertext, n, a);
  }

  /** A byte of the input overwritten before it is read. */
  predicate Overtaken(plaintext: nat, len: nat, key: nat, ciphertext: nat, a: nat)
  {
    && plaintext + 16 <= a < plaintext + len && ciphertext <= a < ciphertext + 16
    && !(key <= a < key + 16)
  }

  lemma SameKey(m: seq<Byte>, key: nat, a: nat, v: Byte)
    requires key + 16 <= |m| && a < |m| && !(key <= a < key + 16)
    ensures m[a := v][key..key + 16] == m[key..key + 16]
  {}

  lemma OvertakenSpoils(enc: BlockCipher, dec: BlockCipher, m: seq<Byte>, m': seq<Byte>, plaintext: nat, len: nat, key: nat,
                        ciphertext: nat, n: nat, a: nat)
    requires Deciphers(dec, enc) && Fits(|m|, plaintext, len, key, ciphertext, n)
    requires Overtaken(plaintext, len, key, ciphertext, a) && m[a] != ONES && m' == m[a := ONES]
    ensures !Blockwise(enc, m, plaintext, len, key, ciphertext, n) || !Blockwise(enc, m', plaintext, len, key, ciphertext, n)
  {
    Forgets(enc, m, plaintext, key, ciphertext, n, a, ONES);
    SameKey(m, key, a, ONES);
    NotBoth(enc, dec, m, m', plaintext, len, key, ciphertext, n, a);
  }

  function Zeros(size: nat): (m: seq<Byte>)
    ensures |m| == size && forall i :: 0 <= i < size ==> m[i] == ZERO
  {
    seq(size, _ => ZERO)
  }

  /** An output that overtakes its input spoils the encryption of some memory: of two
      memories that differ in a byte overwritten before it is read, the loop makes one
      and the same, and block-wise encryption does not. */
  lemma OvertakingFails(enc: BlockCipher, dec: BlockCipher, size: nat, plaintext: nat, len: nat, key: nat, ciphertext: nat, n: nat)
    requires Deciphers(dec, enc) && Fits(size, plaintext, len, key, ciphertext, n)
    requires len >= 32 && plaintext < ciphertext < plaintext + len
    requires key + 16 <= ciphertext || ciphertext + len <= key + 16 || key + 16 <= plaintext || plaintext + len <= key
    ensures !AlwaysBlockwise(enc, size, plaintext, len, key, ciphertext, n)
  {
    var m := Zeros(size);
    var a := if ciphertext > plaintext + 16 then ciphertext else plaintext + 16;
    assert Overtaken(plaintext, len, key, ciphertext, a);
    var m' := m[a := ONES];
    assert m[a] != ONES by { NotFixed(); assert ZERO[0] != ONES[0]; }
    OvertakenSpoils(enc, dec, m, m', plaintext, len, key, ciphertext, n, a);
  }

  // An output that runs into the key.

  /** Byte t of the key makes a difference for some key and block. */
  ghost predicate DependsOn(enc: BlockCipher, t: nat)
    requires t < 16
  {
    exists k: Sixteen, v: Byte, b: Sixteen :: Tells(enc, t, k, v, b)
  }

  /** With byte t of the key replaced, the block is encrypted differently. */
  ghost predicate Tells(enc: BlockCipher, t: nat, k: Sixteen, v: Byte, b: Sixteen)
    requires t < 16
  {
    enc(k[t := v], b) != enc(k, b)
  }

  /** The cipher depends on the outermost bytes of its key. */
  ghost predicate KeySensitive(enc: BlockCipher)
  {
    DependsOn(enc, 0) && DependsOn(enc, 15)
  }

  /** The first block whose output touches the key, and an outermost byte of the key
      that it overwrites. */
  function FirstHit(key: nat, ciphertext: nat): (h: nat)
    ensures key <= ciphertext ==> h == 0
    ensures ciphertext < key ==> ciphertext + 16 * h <= key < ciphertext + 16 * h + 16
  {
    if key <= ciphertext then 0 else (key - ciphertext) / 16
  }

  function HitByte(key: nat, ciphertext: nat): (t: nat)
    ensures t < 16
  {
    if key <= ciphertext then 15 else 0
  }

  /** A block that turns key k into k1 when it is stored at address at. */
  function Overlay(k1: Sixteen, key: nat, at: nat): (c: Sixteen)
    ensures forall y :: 0 <= y < 16 && key <= at + y < key + 16 ==> c[y] == k1[at + y - key]
  {
    seq(16, y requires 0 <= y < 16 => if key <= at + y < key + 16 then k1[at + y - key] else ZERO)
  }

  /** The keys agree where a block stored at address at does not reach. */
  predicate SameElsewhere(k: Sixteen, k1: Sixteen, key: nat, at: nat)
  {
    forall x :: 0 <= x < 16 && !(at <= key + x < at + 16) ==> k1[x] == k[x]
  }

  lemma HitByteReached(key: nat, ciphertext: nat, k: Sixteen, v: Byte)
    requires ciphertext < key + 16
    ensures SameElsewhere(k, k[HitByte(key, ciphertext) := v], key, ciphertext + 16 * FirstHit(key, ciphertext))
  {}

  lemma KeyReplaced(m: seq<Byte>, key: nat, ciphertext: nat, done: seq<Byte>, h: nat, k: Sixteen, k1: Sixteen)
    requires key + 16 <= |m| && ciphertext + |done| <= |m| && |done| == 16 * h + 16 && m[key..key + 16] == k
    requires h == 0 || ciphertext + 16 * h <= key
    requires done[16 * h..] == Overlay(k1, key, ciphertext + 16 * h)
    requires SameElsewhere(k, k1, key, ciphertext + 16 * h)
    ensures Patched(m, ciphertext, done)[key..key + 16] == k1
  {
    var now, at := Patched(m, ciphertext, done), ciphertext + 16 * h;
    var c := done[16 * h..];
    forall x | 0 <= x < 16 ensures now[key + x] == k1[x] {
      if at <= key + x < at + 16 {
        assert now[key + x] == done[key + x - ciphertext] == c[key + x - at];
      } else {
        assert now[key + x] == m[key + x] == k[x];
      }
    }
  }

  /** A memory with a key and two blocks in it. */
  function Laid(size: nat, key: nat, k: Sixteen, at: nat, b0: Sixteen, b1: Sixteen): (m: seq<Byte>)
    requires key + 16 <= size && at + 32 <= size && (key + 16 <= at || at + 32 <= key)
    ensures |m| == size && m[key..key + 16] == k && m[at..at + 16] == b0 && m[at + 16..at + 32] == b1
  {
    var m1 := Patched(Zeros(size), key, k);
    var m2 := Patched(m1, at, b0);
    var m := Patched(m2, at + 16, b1);
    PatchShows(Zeros(size), key, k);
    PatchShows(m1, at, b0);
    PatchShows(m2, at + 16, b1);
    BlockUntouched(m1, b0, at, key, 16);
    BlockUntouched(m2, b1, at + 16, key, 16);
    BlockUntouched(m2, b1, at + 16, at, 16);
    m
  }

  /** Sixteen bytes of a memory. */
  function At(m: seq<Byte>, a: nat): (b: Sixteen)
    requires a + 16 <= |m|
  {
    m[a..a + 16]
  }

  /** Byte t of block j as the loop leaves it. */
  lemma StoredShows(hist: History, enc: BlockCipher, plaintext: nat, key: nat, ciphertext: nat, n: nat, j: nat, t: nat)
    requires Steps(hist, enc, plaintext, key, ciphertext, n) && j < n && t < 16
    ensures StepAt(hist, enc, plaintext, key, ciphertext, j) && ciphertext + 16 * j + 16 <= |hist(n)|
    ensures hist(n)[ciphertext + 16 * j + t] == enc(At(hist(j), key), At(hist(j), plaintext + 16 * j))[t]
  {
    assert StepAt(hist, enc, plaintext, key, ciphertext, j);
    SameLength(hist, enc, plaintext, key, ciphertext, j);
    StoredBefore(hist, enc, plaintext, key, ciphertext, n, j + 1, ciphertext + 16 * j + t);
    ShownAt(hist(j), ciphertext + 16 * j, enc(At(hist(j), key), At(hist(j), plaintext + 16 * j)), t);
  }

  lemma ShownAt(m: seq<Byte>, at: nat, d: seq<Byte>, t: nat)
    requires at + |d| <= |m| && t < |d|
    ensures Patched(m, at, d)[at + t] == d[t]
  {}

  /** Byte t of block j encrypted block by block. */
  lemma BlockwiseShows(enc: BlockCipher, m: seq<Byte>, plaintext: nat, len: nat, key: nat, ciphertext: nat, n: nat, j: nat, t: nat)
    requires Fits(|m|, plaintext, len, key, ciphertext, n) && j < n && t < 16
    ensures AfterBlocks(enc, m, plaintext, len, key, ciphertext, n)[ciphertext + 16 * j + t] ==
              enc(At(m, key), At(m, plaintext + 16 * j))[t]
  {
    SubBlock(m, plaintext, len, 16 * j);
    EcbByte(enc, m[key..key + 16], m[plaintext..plaintext + len], n, j, t);
    ShownAt(m, ciphertext, Ecb(enc, At(m, key), m[plaintext..plaintext + len], n), 16 * j + t);
  }

  lemma DifferAt(a: Sixteen, b: Sixteen) returns (t: nat)
    requires a != b
    ensures t < 16 && a[t] != b[t]
  {
    t :| t < 16 && a[t] != b[t];
  }

  /** A block encrypted under another key than the first comes out wrong. */
  lemma WrongKey(hist: History, enc: BlockCipher, plaintext: nat, len: nat, key: nat, ciphertext: nat, n: nat, j: nat)
    requires Fits(|hist(0)|, plaintext, len, key, ciphertext, n) && j < n && |hist(j)| == |hist(0)|
    requires Steps(hist, enc, plaintext, key, ciphertext, n)
    requires At(hist(j), plaintext + 16 * j) == At(hist(0), plaintext + 16 * j)
    requires enc(At(hist(j), key), At(hist(0), plaintext + 16 * j)) != enc(At(hist(0), key), At(hist(0), plaintext + 16 * j))
    ensures hist(n) != AfterBlocks(enc, hist(0), plaintext, len, key, ciphertext, n)
  {
    var b := At(hist(0), plaintext + 16 * j);
    var t := DifferAt(enc(At(hist(j), key), b), enc(At(hist(0), key), b));
    StoredShows(hist, enc, plaintext, key, ciphertext, n, j, t);
    BlockwiseShows(enc, hist(0), plaintext, len, key, ciphertext, n, j, t);
  }

  lemma OverrunFails(enc: BlockCipher, dec: BlockCipher, size: nat, plaintext: nat, len: nat, key: nat, ciphertext: nat, n: nat,
                     k: Sixteen, v: Byte, b: Sixteen)
    requires Deciphers(dec, enc) && Fits(size, plaintext, len, key, ciphertext, n)
    requires len >= 32 && ciphertext < key + 16 < ciphertext + len
    requires key + 16 <= plaintext || plaintext + len <= key
    requires ciphertext <= plaintext || plaintext + len <= ciphertext
    requires Tells(enc, HitByte(key, ciphertext), k, v, b)
    ensures !AlwaysBlockwise(enc, size, plaintext, len, key, ciphertext, n)
  {
    var h, k1 := FirstHit(key, ciphertext), k[HitByte(key, ciphertext) := v];
    FirstHitInside(key, ciphertext, len, n);
    HitByteReached(key, ciphertext, k, v);
    var c := Overlay(k1, key, ciphertext + 16 * h);
    var m := Laid(size, key, k, plaintext + 16 * h, dec(k, c), b);
    assert enc(k, dec(k, c)) == c;
    OverrunSpoils(enc, m, plaintext, len, key, ciphertext, n, h, k, k1);
  }

  lemma FirstHitInside(key: nat, ciphertext: nat, len: nat, n: nat)
    requires len == 16 * n >= 32 && ciphertext < key + 16 < ciphertext + len
    ensures FirstHit(key, ciphertext) + 1 < n
  {}

  lemma OverrunSpoils(enc: BlockCipher, m: seq<Byte>, plaintext: nat, len: nat, key: nat, ciphertext: nat, n: nat,
                      h: nat, k: Sixteen, k1: Sixteen)
    requires Fits(|m|, plaintext, len, key, ciphertext, n) && h + 1 < n && At(m, key) == k
    requires h == 0 || ciphertext + 16 * h <= key
    requires ciphertext <= plaintext || plaintext + len <= ciphertext
    requires enc(k, At(m, plaintext + 16 * h)) == Overlay(k1, key, ciphertext + 16 * h)
    requires SameElsewhere(k, k1, key, ciphertext + 16 * h)
    requires enc(k1, At(m, plaintext + 16 * h + 16)) != enc(k, At(m, plaintext + 16 * h + 16))
    ensures !Blockwise(enc, m, plaintext, len, key, ciphertext, n)
  {
    KeyLost(enc, m, plaintext, key, ciphertext, h, k, k1);
    KeyLostFails(enc, m, plaintext, len, key, ciphertext, n, h + 1);
  }

  lemma KeyLostFails(enc: BlockCipher, m: seq<Byte>, plaintext: nat, len: nat, key: nat, ciphertext: nat, n: nat, j: nat)
    requires Fits(|m|, plaintext, len, key, ciphertext, n) && j < n
    requires
      var now, b := Stored(enc, m, plaintext, key, ciphertext, j), At(m, plaintext + 16 * j);
      At(now, plaintext + 16 * j) == b && enc(At(now, key), b) != enc(At(m, key), b)
    ensures !Blockwise(enc, m, plaintext, len, key, ciphertext, n)
  {
    HistorySteps(enc, m, plaintext, key, ciphertext, n);
    WrongKey(HistoryOf(enc, m, plaintext, key, ciphertext), enc, plaintext, len, key, ciphertext, n, j);
  }

  /** What block h makes of the key, and of the block behind it. */
  lemma KeyLost(enc: BlockCipher, m: seq<Byte>, plaintext: nat, key: nat, ciphertext: nat, h: nat, k: Sixteen, k1: Sixteen)
    requires plaintext + 16 * h + 32 <= |m| && key + 16 <= |m| && ciphertext + 16 * h + 16 <= |m| && m[key..key + 16] == k
    requires h == 0 || ciphertext + 16 * h <= key
    requires ciphertext <= plaintext || plaintext + 16 * h + 32 <= ciphertext
    requires enc(k, At(m, plaintext + 16 * h)) == Overlay(k1, key, ciphertext + 16 * h)
    requires SameElsewhere(k, k1, key, ciphertext + 16 * h)
    ensures
      var now := Stored(enc, m, plaintext, key, ciphertext, h + 1);
      At(now, key) == k1 && At(now, plaintext + 16 * h + 16) == At(m, plaintext + 16 * h + 16)
  {
    var done := DoneUntil(enc, m, plaintext, key, ciphertext, h, k);
    KeyReplaced(m, key, ciphertext, done, h, k, k1);
    BlockUntouched(m, done, ciphertext, plaintext + 16 * h + 16, 16);
  }

  lemma DoneUntil(enc: BlockCipher, m: seq<Byte>, plaintext: nat, key: nat, ciphertext: nat, h: nat, k: Sixteen) returns (done: seq<Byte>)
    requires plaintext + 16 * h + 16 <= |m| && key + 16 <= |m| && ciphertext + 16 * h + 16 <= |m| && m[key..key + 16] == k
    requires Safe(plaintext, 16 * h + 16, key, ciphertext)
    ensures |done| == 16 * h + 16 && done[16 * h..] == enc(k, At(m, plaintext + 16 * h))
    ensures Stored(enc, m, plaintext, key, ciphertext, h + 1) == Patched(m, ciphertext, done)
  {
    var len := 16 * h + 16;
    var data := m[plaintext..plaintext + len];
    done := Ecb(enc, k, data, h + 1);
    SafeWorks(|m|, plaintext, len, key, ciphertext, h + 1, enc, m);
    EcbBlock(enc, k, data, h + 1, h);
    SubBlock(m, plaintext, len, 16 * h);
    assert done[16 * h..] == done[16 * h..16 * h + 16];
  }

  /** A cipher that depends on its key, and a key outside the input: the loop encrypts
      block by block exactly if the buffers are safely placed. */
  lemma SensitiveIff(enc: BlockCipher, dec: BlockCipher, size: nat, plaintext: nat, len: nat, key: nat, ciphertext: nat, n: nat)
    requires Deciphers(dec, enc) && KeySensitive(enc) && Fits(size, plaintext, len, key, ciphertext, n)
    requires key + 16 <= plaintext || plaintext + len <= key
    ensures AlwaysBlockwise(enc, size, plaintext, len, key, ciphertext, n) <==> Safe(plaintext, len, key, ciphertext)
  {
    if Safe(plaintext, len, key, ciphertext) {
      SafeAlways(enc, size, plaintext, len, key, ciphertext, n);
    } else if plaintext < ciphertext < plaintext + len {
      OvertakingFails(enc, dec, size, plaintext, len, key, ciphertext, n);
    } else {
      assert DependsOn(enc, HitByte(key, ciphertext));
      var k: Sixteen, v: Byte, b: Sixteen :| Tells(enc, HitByte(key, ciphertext), k, v, b);
      OverrunFails(enc, dec, size, plaintext, len, key, ciphertext, n, k, v, b);
    }
  }

  /** With the key clear of all output but the last block, the loop encrypts block by
      block exactly if the output does not overtake the input. */
  lemma KeyClearIff(enc: BlockCipher, dec: BlockCipher, size: nat, plaintext: nat, len: nat, key: nat, ciphertext: nat, n: nat)
    requires Deciphers(dec, enc) && Fits(size, plaintext, len, key, ciphertext, n)
    requires key + 16 <= ciphertext || ciphertext + len <= key + 16
    ensures AlwaysBlockwise(enc, size, plaintext, len, key, ciphertext, n) <==>
              len < 32 || ciphertext <= plaintext || plaintext + len <= ciphertext
  {
    if len < 32 || ciphertext <= plaintext || plaintext + len <= ciphertext {
      SafeAlways(enc, size, plaintext, len, key, ciphertext, n);
    } else {
      OvertakingFails(enc, dec, size, plaintext, len, key, ciphertext, n);
    }
  }

  /** So it is for AES-128 over any table with an inverse. */
  lemma Aes128PlacementIff(box: SBox, inv: SBox, size: nat, plaintext: nat, len: nat, key: nat, ciphertext: nat, n: nat)
    requires InverseTables(box, inv) && Fits(size, plaintext, len, key, ciphertext, n)
    requires key + 16 <= ciphertext || ciphertext + len <= key + 16
    ensures AlwaysBlockwise(Aes128(box), size, plaintext, len, key, ciphertext, n) <==>
              len < 32 || ciphertext <= plaintext || plaintext + len <= ciphertext
  {
    Aes128Deciphers(box, inv);
    KeyClearIff(Aes128(box), Aes128Inverse(box, inv), size, plaintext, len, key, ciphertext, n);
  }

  /** And for AES-128 as shipped. */
  lemma ShippedPlacementIff(size: nat, plaintext: nat, len: nat, key: nat, ciphertext: nat, n: nat)
    requires Fits(size, plaintext, len, key, ciphertext, n)
    requires key + 16 <= ciphertext || ciphertext + len <= key + 16
    ensures AlwaysBlockwise(Aes128(SBoxTable()), size, plaintext, len, key, ciphertext, n) <==>
              len < 32 || ciphertext <= plaintext || plaintext + len <= ciphertext
  {
    TableInverts();
    Aes128PlacementIff(SBoxTable(), InverseTable(), size, plaintext, len, key, ciphertext, n);
  }

  /** With a key outside the input, and a cipher that depends on the outermost bytes of
      its key. */
  lemma ShippedSensitiveIff(size: nat, plaintext: nat, len: nat, key: nat, ciphertext: nat, n: nat)
    requires KeySensitive(Aes128(SBoxTable())) && Fits(size, plaintext, len, key, ciphertext, n)
    requires key + 16 <= plaintext || plaintext + len <= key
    ensures AlwaysBlockwise(Aes128(SBoxTable()), size, plaintext, len, key, ciphertext, n) <==>
              Safe(plaintext, len, key, ciphertext)
  {
    TableInverts();
    Aes128Deciphers(SBoxTable(), InverseTable());
    SensitiveIff(Aes128(SBoxTable()), Aes128Inverse(SBoxTable(), InverseTable()), size, plaintext, len, key, ciphertext, n);
  }
}
