/** ECB encryption over a memory in which the buffers may coincide, and the
    byte-wise rounds as the C code calls them. */
module AesEcb {
  import opened Bits
  import opened AesField
  import opened AesSpec
  import opened AesUnits
  import opened AesEngine
  import opened AesInstructions
  import opened AesBytewise
  import opened AesBlock

  type Sixteen = b: seq<Byte> | |b| == 16
    witness [ZERO, ZERO, ZERO, ZERO, ZERO, ZERO, ZERO, ZERO, ZERO, ZERO, ZERO, ZERO, ZERO, ZERO, ZERO, ZERO]

  /** A cipher on 16-byte blocks: key first, then block. */
  type BlockCipher = (Sixteen, Sixteen) -> Sixteen

  /** enc is the byte form of cipher. */
  ghost predicate ByteForm(cipher: (State, State) -> State, enc: BlockCipher)
  {
    forall k: Sixteen, b: Sixteen {:trigger cipher(FromBytes(k), FromBytes(b))} ::
      enc(k, b) == ToBytes(cipher(FromBytes(k), FromBytes(b)))
  }

  /** Block-wise encryption of the first n blocks of some data. */
  function Ecb(enc: BlockCipher, key: Sixteen, data: seq<Byte>, n: nat): (out: seq<Byte>)
    requires 16 * n <= |data|
    ensures |out| == 16 * n
  {
    if n == 0 then [] else Ecb(enc, key, data, n - 1) + enc(key, data[16 * (n - 1)..16 * n])
  }

  /** Block i of the output depends on the key and on block i of the input only. */
  lemma {:induction false} EcbBlock(enc: BlockCipher, key: Sixteen, data: seq<Byte>, n: nat, i: nat)
    requires 16 * n <= |data| && i < n
    ensures Ecb(enc, key, data, n)[16 * i..16 * i + 16] == enc(key, data[16 * i..16 * i + 16])
  {
    if i < n - 1 {
      EcbBlock(enc, key, data, n - 1, i);
      assert Ecb(enc, key, data, n)[16 * i..16 * i + 16] == Ecb(enc, key, data, n - 1)[16 * i..16 * i + 16];
    }
  }

  /** Where the three buffers may lie: for more than one block, the output but its
      last block must not run into the key, and the output must not overtake the
      input; it may be the input itself. */
  predicate Safe(plaintext: nat, len: nat, key: nat, ciphertext: nat)
  {
    len < 32 ||
    (&& (key + 16 <= ciphertext || ciphertext + len <= key + 16)
     && (ciphertext <= plaintext || plaintext + len <= ciphertext))
  }

  lemma BlockUntouched(m: seq<Byte>, done: seq<Byte>, ciphertext: nat, at: nat, size: nat)
    requires ciphertext + |done| <= |m| && at + size <= |m|
    requires ciphertext + |done| <= at || at + size <= ciphertext
    ensures Patched(m, ciphertext, done)[at..at + size] == m[at..at + size]
  {}

  lemma SubBlock(m: seq<Byte>, plaintext: nat, len: nat, i: nat)
    requires plaintext + len <= |m| && i + 16 <= len
    ensures m[plaintext..plaintext + len][i..i + 16] == m[plaintext + i..plaintext + i + 16]
  {
    var data := m[plaintext..plaintext + len];
    assert forall j :: i <= j < i + 16 ==> data[j] == m[plaintext + j];
  }

  /** Memory after n blocks, wherever the buffers lie: each block reads what is there. */
  ghost function Stored(enc: BlockCipher, m: seq<Byte>, plaintext: nat, key: nat, ciphertext: nat, n: nat): (b: seq<Byte>)
    requires plaintext + 16 * n <= |m| && key + 16 <= |m| && ciphertext + 16 * n <= |m|
    ensures |b| == |m|
  {
    if n == 0 then m
    else Encrypted(enc, Stored(enc, m, plaintext, key, ciphertext, n - 1), plaintext, key, ciphertext, n - 1)
  }

  /** Block i encrypted in memory. */
  ghost function Encrypted(enc: BlockCipher, b: seq<Byte>, plaintext: nat, key: nat, ciphertext: nat, i: nat): (b': seq<Byte>)
    requires plaintext + 16 * i + 16 <= |b| && key + 16 <= |b| && ciphertext + 16 * i + 16 <= |b|
    ensures |b'| == |b|
  {
    var p := plaintext + 16 * i;
    Patched(b, ciphertext + 16 * i, enc(b[key..key + 16], b[p..p + 16]))
  }

  /** The contents of a memory over time, one entry for each block done. */
  type History = nat -> seq<Byte>

  ghost predicate StepAt(hist: History, enc: BlockCipher, plaintext: nat, key: nat, ciphertext: nat, i: nat)
  {
    && plaintext + 16 * i + 16 <= |hist(i)| && key + 16 <= |hist(i)| && ciphertext + 16 * i + 16 <= |hist(i)|
    && hist(i + 1) == Encrypted(enc, hist(i), plaintext, key, ciphertext, i)
  }

  /** The first n steps of a history are blocks encrypted in turn. */
  ghost predicate Steps(hist: History, enc: BlockCipher, plaintext: nat, key: nat, ciphertext: nat, n: nat)
  {
    forall i: nat :: i < n ==> StepAt(hist, enc, plaintext, key, ciphertext, i)
  }

  ghost function HistoryOf(enc: BlockCipher, m: seq<Byte>, plaintext: nat, key: nat, ciphertext: nat): (hist: History)
  {
    (n: nat) =>
      if plaintext + 16 * n <= |m| && key + 16 <= |m| && ciphertext + 16 * n <= |m|
      then Stored(enc, m, plaintext, key, ciphertext, n) else m
  }

  lemma HistorySteps(enc: BlockCipher, m: seq<Byte>, plaintext: nat, key: nat, ciphertext: nat, n: nat)
    requires plaintext + 16 * n <= |m| && key + 16 <= |m| && ciphertext + 16 * n <= |m|
    ensures
      var hist := HistoryOf(enc, m, plaintext, key, ciphertext);
      hist(0) == m && hist(n) == Stored(enc, m, plaintext, key, ciphertext, n) && Steps(hist, enc, plaintext, key, ciphertext, n)
  {}

  /** One pass of the loop. */
  method EncryptNext(core: Core, mem: array<Byte>, plaintext: nat, key: nat, ciphertext: nat,
                     ghost cipher: (State, State) -> State, ghost enc: BlockCipher)
    requires core.Valid() && Encrypts(core.units, cipher) && ByteForm(cipher, enc)
    requires plaintext + 16 <= mem.Length && key + 16 <= mem.Length && ciphertext + 16 <= mem.Length
    modifies core, mem
    ensures core.Valid()
    ensures mem[..] == Patched(old(mem[..]), ciphertext, enc(old(mem[..])[key..key + 16], old(mem[..])[plaintext..plaintext + 16]))
  {
    ghost var k, b := mem[..][key..key + 16], mem[..][plaintext..plaintext + 16];
    ByteFormOf(cipher, enc, k, b);
    EncryptBlock(core, mem, plaintext, key, ciphertext, cipher);
  }

  lemma ByteFormOf(cipher: (State, State) -> State, enc: BlockCipher, k: Sixteen, b: Sixteen)
    requires ByteForm(cipher, enc)
    ensures ToBytes(cipher(FromBytes(k), FromBytes(b))) == enc(k, b)
  {}

  method EncryptNth(core: Core, mem: array<Byte>, plaintext: nat, key: nat, ciphertext: nat, i: nat,
                    ghost cipher: (State, State) -> State, ghost enc: BlockCipher, ghost hist: History, ghost n: nat)
    requires core.Valid() && Encrypts(core.units, cipher) && ByteForm(cipher, enc) && i == 16 * n
    requires StepAt(hist, enc, plaintext, key, ciphertext, n) && mem[..] == hist(n)
    modifies core, mem
    ensures core.Valid() && mem[..] == hist(n + 1)
  {
    EncryptNext(core, mem, plaintext + i, key, ciphertext + i, cipher, enc);
  }

  method EcbLoop(core: Core, mem: array<Byte>, plaintext: nat, len: nat, key: nat, ciphertext: nat,
                 ghost cipher: (State, State) -> State, ghost enc: BlockCipher, ghost hist: History, ghost blocks: nat)
    requires core.Valid() && Encrypts(core.units, cipher) && ByteForm(cipher, enc) && len == 16 * blocks
    requires Steps(hist, enc, plaintext, key, ciphertext, blocks) && mem[..] == hist(0)
    modifies core, mem
    ensures core.Valid() && mem[..] == hist(blocks)
  {
    var i := 0;
    ghost var n := 0;
    while i < len
      invariant i == 16 * n && n <= blocks && core.Valid()
      invariant mem[..] == hist(n)
    {
      EncryptNth(core, mem, plaintext, key, ciphertext, i, cipher, enc, hist, n);
      i, n := i + 16, n + 1;
    }
  }

  // Block-wise encryption in memory, and when the loop computes it.

  /** The memory of m with its input encrypted block by block. */
  ghost function AfterBlocks(enc: BlockCipher, m: seq<Byte>, plaintext: nat, len: nat, key: nat,
                             ciphertext: nat, n: nat): (b: seq<Byte>)
    requires plaintext + len <= |m| && key + 16 <= |m| && ciphertext + len <= |m| && 16 * n <= len
  {
    Patched(m, ciphertext, Ecb(enc, m[key..key + 16], m[plaintext..plaintext + len], n))
  }

  /** What the next block reads is still what was there at the start. */
  lemma NextBlockInput(m: seq<Byte>, now: seq<Byte>, done: seq<Byte>, plaintext: nat, len: nat, key: nat, ciphertext: nat)
    requires plaintext + len <= |m| && key + 16 <= |m| && ciphertext + len <= |m|
    requires Safe(plaintext, len, key, ciphertext) && |done| + 16 <= len && (|done| == 0 || len >= 32)
    requires now == Patched(m, ciphertext, done)
    ensures now[key..key + 16] == m[key..key + 16]
    ensures now[plaintext + |done|..plaintext + |done| + 16] == m[plaintext..plaintext + len][|done|..|done| + 16]
  {
    SubBlock(m, plaintext, len, |done|);
    if |done| == 0 {
      assert now == m;
    } else {
      BlockUntouched(m, done, ciphertext, key, 16);
      BlockUntouched(m, done, ciphertext, plaintext + |done|, 16);
    }
  }

  lemma PatchNext(m: seq<Byte>, base: nat, done: seq<Byte>, now: seq<Byte>, at: nat, e: seq<Byte>, after: seq<Byte>)
    requires base + |done| + |e| <= |m| && at == base + |done|
    requires now == Patched(m, base, done) && after == Patched(now, at, e)
    ensures after == Patched(m, base, done + e)
  {
    PatchTwice(m, base, done, e);
  }

  lemma EcbNext(enc: BlockCipher, key: Sixteen, data: seq<Byte>, n: nat)
    requires 16 * n + 16 <= |data|
    ensures Ecb(enc, key, data, n + 1) == Ecb(enc, key, data, n) + enc(key, data[16 * n..16 * n + 16])
  {}

  /** Block i of some data. */
  function Part(data: seq<Byte>, i: nat): (b: Sixteen)
    requires 16 * i + 16 <= |data|
  {
    data[16 * i..16 * i + 16]
  }

  /** One more block, safely placed. */
  lemma BlockwiseNext(enc: BlockCipher, m: seq<Byte>, now: seq<Byte>, plaintext: nat, len: nat, key: nat, ciphertext: nat, i: nat)
    requires plaintext + len <= |m| && key + 16 <= |m| && ciphertext + len <= |m| && 16 * i + 16 <= len
    requires Safe(plaintext, len, key, ciphertext) && now == AfterBlocks(enc, m, plaintext, len, key, ciphertext, i)
    ensures Encrypted(enc, now, plaintext, key, ciphertext, i) == AfterBlocks(enc, m, plaintext, len, key, ciphertext, i + 1)
  {
    var k, data := m[key..key + 16], m[plaintext..plaintext + len];
    var done, e := Ecb(enc, k, data, i), enc(k, Part(data, i));
    EncryptedInput(enc, m, now, plaintext, len, key, ciphertext, i);
    EcbNext(enc, k, data, i);
    PatchNext(m, ciphertext, done, now, ciphertext + 16 * i, e, Patched(now, ciphertext + 16 * i, e));
  }

  /** The next block stored is that of the original input. */
  lemma EncryptedInput(enc: BlockCipher, m: seq<Byte>, now: seq<Byte>, plaintext: nat, len: nat, key: nat, ciphertext: nat, i: nat)
    requires plaintext + len <= |m| && key + 16 <= |m| && ciphertext + len <= |m| && 16 * i + 16 <= len
    requires Safe(plaintext, len, key, ciphertext) && now == AfterBlocks(enc, m, plaintext, len, key, ciphertext, i)
    ensures Encrypted(enc, now, plaintext, key, ciphertext, i) ==
      Patched(now, ciphertext + 16 * i, enc(m[key..key + 16], Part(m[plaintext..plaintext + len], i)))
  {
    var done := Ecb(enc, m[key..key + 16], m[plaintext..plaintext + len], i);
    NextBlockInput(m, now, done, plaintext, len, key, ciphertext);
  }

  /** With safely placed buffers, the loop encrypts block by block. */
  lemma {:induction false} StepsAreBlockwise(hist: History, enc: BlockCipher, plaintext: nat, len: nat, key: nat, ciphertext: nat, n: nat)
    requires plaintext + len <= |hist(0)| && key + 16 <= |hist(0)| && ciphertext + len <= |hist(0)| && 16 * n <= len
    requires Steps(hist, enc, plaintext, key, ciphertext, n) && Safe(plaintext, len, key, ciphertext)
    ensures hist(n) == AfterBlocks(enc, hist(0), plaintext, len, key, ciphertext, n)
  {
    if n > 0 {
      StepsAreBlockwise(hist, enc, plaintext, len, key, ciphertext, n - 1);
      assert StepAt(hist, enc, plaintext, key, ciphertext, n - 1);
      BlockwiseNext(enc, hist(0), hist(n - 1), plaintext, len, key, ciphertext, n - 1);
    }
  }

  /** aes128_ecb_encrypt: for every length divisible by 16 each block read is stored
      encrypted, whatever the hidden registers held before; nothing else in memory
      changes, and for any other length nothing changes at all. With safely placed
      buffers the output ends as the block-wise encryption of what the input held,
      also when the two are the same buffer. */
  method EcbEncrypt(core: Core, mem: array<Byte>, plaintext: nat, len: nat, key: nat, ciphertext: nat,
                    ghost cipher: (State, State) -> State, ghost enc: BlockCipher)
    requires core.Valid() && Encrypts(core.units, cipher) && ByteForm(cipher, enc)
    requires plaintext + len <= mem.Length && key + 16 <= mem.Length && ciphertext + len <= mem.Length
    modifies core, mem
    ensures core.Valid()
    ensures len % 16 != 0 ==> mem[..] == old(mem[..]) && core.log == old(core.log)
    ensures len % 16 == 0 ==> mem[..] == Stored(enc, old(mem[..]), plaintext, key, ciphertext, len / 16)
    ensures len % 16 == 0 && Safe(plaintext, len, key, ciphertext) ==>
              mem[..] == AfterBlocks(enc, old(mem[..]), plaintext, len, key, ciphertext, len / 16)
  {
    if len % 16 != 0 {
      return;
    }
    ghost var hist := HistoryOf(enc, mem[..], plaintext, key, ciphertext);
    HistorySteps(enc, mem[..], plaintext, key, ciphertext, len / 16);
    EcbLoop(core, mem, plaintext, len, key, ciphertext, cipher, enc, hist, len / 16);
    if Safe(plaintext, len, key, ciphertext) {
      StepsAreBlockwise(hist, enc, plaintext, len, key, ciphertext, len / 16);
    }
  }

  // Conversely, buffers placed otherwise defeat the loop for some cipher and memory.

  lemma {:induction false} SameLength(hist: History, enc: BlockCipher, plaintext: nat, key: nat, ciphertext: nat, n: nat)
    requires Steps(hist, enc, plaintext, key, ciphertext, n)
    ensures |hist(n)| == |hist(0)|
  {
    if n > 0 {
      SameLength(hist, enc, plaintext, key, ciphertext, n - 1);
      assert StepAt(hist, enc, plaintext, key, ciphertext, n - 1);
    }
  }

  /** Later blocks do not touch what lies before them. */
  lemma {:induction false} StoredBefore(hist: History, enc: BlockCipher, plaintext: nat, key: nat, ciphertext: nat, n: nat, i: nat, a: nat)
    requires Steps(hist, enc, plaintext, key, ciphertext, n) && i <= n && a < ciphertext + 16 * i && a < |hist(0)|
    ensures |hist(n)| == |hist(i)| == |hist(0)| && hist(n)[a] == hist(i)[a]
  {
    SameLength(hist, enc, plaintext, key, ciphertext, n);
    SameLength(hist, enc, plaintext, key, ciphertext, i);
    if i < n {
      StoredBefore(hist, enc, plaintext, key, ciphertext, n - 1, i, a);
      assert StepAt(hist, enc, plaintext, key, ciphertext, n - 1);
    }
  }

  const ONES: Byte := [true, true, true, true, true, true, true, true]

  function Flip(b: Sixteen): (r: Sixteen)
    ensures forall i :: 0 <= i < 16 ==> r[i] == Not(b[i])
  {
    seq(16, i requires 0 <= i < 16 => Not(b[i]))
  }

  /** Two toy ciphers: the complement of the key, and that of the block. */
  function FlipKey(): (enc: BlockCipher)
  {
    (k: Sixteen, b: Sixteen) => Flip(k)
  }

  function FlipBlock(): (enc: BlockCipher)
  {
    (k: Sixteen, b: Sixteen) => Flip(b)
  }

  predicate AllZero(b: seq<Byte>)
  {
    forall i :: 0 <= i < |b| ==> b[i] == ZERO
  }

  lemma FlipByte(k: Sixteen, b: Sixteen, t: nat)
    requires t < 16
    ensures FlipKey()(k, b)[t] == Not(k[t]) && FlipBlock()(k, b)[t] == Not(b[t])
  {}

  lemma ZeroPart(m: seq<Byte>, at: nat, size: nat)
    requires AllZero(m) && at + size <= |m|
    ensures AllZero(m[at..at + size])
  {}

  lemma NotFixed()
    ensures Not(ZERO) == ONES && Not(ONES) != ONES
  {
    assert Not(ZERO) == ONES;
    assert Not(ONES)[0] != ONES[0];
  }

  /** Byte 16i + t of an output. */
  lemma EcbByte(enc: BlockCipher, k: Sixteen, data: seq<Byte>, n: nat, i: nat, t: nat)
    requires 16 * n <= |data| && i < n && t < 16
    ensures Ecb(enc, k, data, n)[16 * i + t] == enc(k, data[16 * i..16 * i + 16])[t]
  {
    EcbBlock(enc, k, data, n, i);
    assert Ecb(enc, k, data, n)[16 * i..16 * i + 16][t] == Ecb(enc, k, data, n)[16 * i + t];
  }

  /** Block by block, zeros become ones. */
  lemma FlipsZeros(enc: BlockCipher, m: seq<Byte>, plaintext: nat, len: nat, key: nat, ciphertext: nat, n: nat, i: nat, t: nat)
    requires plaintext + len <= |m| && key + 16 <= |m| && ciphertext + len <= |m| && len == 16 * n && i < n && t < 16
    requires AllZero(m) && (enc == FlipKey() || enc == FlipBlock())
    ensures AfterBlocks(enc, m, plaintext, len, key, ciphertext, n)[ciphertext + 16 * i + t] == ONES
  {
    var k, data := m[key..key + 16], m[plaintext..plaintext + len];
    ZeroPart(m, key, 16);
    ZeroPart(m, plaintext, len);
    ZeroPart(data, 16 * i, 16);
    FlipByte(k, data[16 * i..16 * i + 16], t);
    NotFixed();
    EcbByte(enc, k, data, n, i, t);
  }

  /** Byte t of block i at the end, from what was there when it was encrypted. */
  lemma StoredByte(hist: History, enc: BlockCipher, plaintext: nat, key: nat, ciphertext: nat, n: nat, i: nat, t: nat)
    requires Steps(hist, enc, plaintext, key, ciphertext, n) && i < n && t < 16
    ensures
      var p, c := plaintext + 16 * i + t, ciphertext + 16 * i + t;
      && p < |hist(i)| && key + t < |hist(i)| && c < |hist(n)|
      && (enc == FlipKey() ==> hist(n)[c] == Not(hist(i)[key + t]))
      && (enc == FlipBlock() ==> hist(n)[c] == Not(hist(i)[p]))
  {
    assert StepAt(hist, enc, plaintext, key, ciphertext, i);
    SameLength(hist, enc, plaintext, key, ciphertext, i);
    StoredBefore(hist, enc, plaintext, key, ciphertext, n, i + 1, ciphertext + 16 * i + t);
    EncryptedByte(enc, hist(i), plaintext, key, ciphertext, i, t);
  }

  lemma EncryptedByte(enc: BlockCipher, b: seq<Byte>, plaintext: nat, key: nat, ciphertext: nat, i: nat, t: nat)
    requires plaintext + 16 * i + 16 <= |b| && key + 16 <= |b| && ciphertext + 16 * i + 16 <= |b| && t < 16
    ensures
      var r := Encrypted(enc, b, plaintext, key, ciphertext, i)[ciphertext + 16 * i + t];
      && (enc == FlipKey() ==> r == Not(b[key + t]))
      && (enc == FlipBlock() ==> r == Not(b[plaintext + 16 * i + t]))
  {
    var p := plaintext + 16 * i;
    FlipByte(b[key..key + 16], b[p..p + 16], t);
  }

  /** A byte that the loop writes, in block h, and reads again as byte t of the key or
      of a later block j turns up complemented. */
  lemma ReadAgain(hist: History, enc: BlockCipher, plaintext: nat, key: nat, ciphertext: nat, n: nat, j: nat, t: nat, h: nat, x: nat)
    requires Steps(hist, enc, plaintext, key, ciphertext, n) && h < j < n && t < 16 && x < 16
    requires || (enc == FlipKey() && ciphertext + 16 * h + x == key + t)
             || (enc == FlipBlock() && ciphertext + 16 * h + x == plaintext + 16 * j + t)
    ensures |hist(n)| == |hist(0)| && ciphertext + 16 * j + t < |hist(0)|
    ensures hist(n)[ciphertext + 16 * j + t] == Not(hist(n)[ciphertext + 16 * h + x])
  {
    StoredByte(hist, enc, plaintext, key, ciphertext, n, j, t);
    SameLength(hist, enc, plaintext, key, ciphertext, n);
    StoredBefore(hist, enc, plaintext, key, ciphertext, n, j, ciphertext + 16 * h + x);
  }

  /** Then the outcome is not the block-wise encryption of zeros. */
  lemma ReadAgainDiffers(hist: History, enc: BlockCipher, plaintext: nat, len: nat, key: nat, ciphertext: nat, n: nat,
                         t: nat, h: nat, x: nat)
    requires Steps(hist, enc, plaintext, key, ciphertext, n) && AllZero(hist(0))
    requires plaintext + len <= |hist(0)| && key + 16 <= |hist(0)| && ciphertext + len <= |hist(0)| && len == 16 * n
    requires h + 1 < n && t < 16 && x < 16
    requires || (enc == FlipKey() && ciphertext + 16 * h + x == key + t)
             || (enc == FlipBlock() && ciphertext + 16 * h + x == plaintext + 16 * (n - 1) + t)
    ensures hist(n) != AfterBlocks(enc, hist(0), plaintext, len, key, ciphertext, n)
  {
    FlipsZeros(enc, hist(0), plaintext, len, key, ciphertext, n, h, x);
    FlipsZeros(enc, hist(0), plaintext, len, key, ciphertext, n, n - 1, t);
    FlippedBack(hist, AfterBlocks(enc, hist(0), plaintext, len, key, ciphertext, n),
                enc, plaintext, key, ciphertext, n, t, h, x);
  }

  lemma FlippedBack(hist: History, d: seq<Byte>, enc: BlockCipher, plaintext: nat, key: nat, ciphertext: nat, n: nat,
                    t: nat, h: nat, x: nat)
    requires Steps(hist, enc, plaintext, key, ciphertext, n) && h + 1 < n && t < 16 && x < 16
    requires || (enc == FlipKey() && ciphertext + 16 * h + x == key + t)
             || (enc == FlipBlock() && ciphertext + 16 * h + x == plaintext + 16 * (n - 1) + t)
    requires ciphertext + 16 * n <= |d| == |hist(0)|
    requires d[ciphertext + 16 * h + x] == ONES && d[ciphertext + 16 * (n - 1) + t] == ONES
    ensures hist(n) != d
  {
    ReadAgain(hist, enc, plaintext, key, ciphertext, n, n - 1, t, h, x);
    NotFixed();
    Differ(hist(n), d, ciphertext + 16 * h + x, ciphertext + 16 * (n - 1) + t);
  }

  lemma Differ(b: seq<Byte>, d: seq<Byte>, a: nat, c: nat)
    requires |b| == |d| && a < |b| && c < |b| && d[a] == ONES && d[c] == ONES && b[c] == Not(b[a]) && Not(ONES) != ONES
    ensures b != d
  {}

  /** The placement condition is exact: for any placement of whole blocks that does not
      meet it there are a cipher and a memory for which the loop does not encrypt block
      by block. */
  lemma UnsafeFails(size: nat, plaintext: nat, len: nat, key: nat, ciphertext: nat, n: nat) returns (enc: BlockCipher, m: seq<Byte>)
    requires plaintext + len <= size && key + 16 <= size && ciphertext + len <= size && len == 16 * n
    requires !Safe(plaintext, len, key, ciphertext)
    ensures |m| == size && Stored(enc, m, plaintext, key, ciphertext, n) != AfterBlocks(enc, m, plaintext, len, key, ciphertext, n)
  {
    m := seq(size, _ => ZERO);
    if key + 16 <= ciphertext || ciphertext + len <= key + 16 {
      enc := FlipBlock();
      var a := if ciphertext > plaintext + len - 16 then ciphertext else plaintext + len - 16;
      var h, x := (a - ciphertext) / 16, (a - ciphertext) % 16;
      HistorySteps(enc, m, plaintext, key, ciphertext, n);
      ReadAgainDiffers(HistoryOf(enc, m, plaintext, key, ciphertext), enc, plaintext, len, key, ciphertext, n,
                       a - (plaintext + 16 * (n - 1)), h, x);
    } else {
      enc := FlipKey();
      var a := if ciphertext > key then ciphertext else key;
      var h, x := (a - ciphertext) / 16, (a - ciphertext) % 16;
      HistorySteps(enc, m, plaintext, key, ciphertext, n);
      ReadAgainDiffers(HistoryOf(enc, m, plaintext, key, ciphertext), enc, plaintext, len, key, ciphertext, n, a - key, h, x);
    }
  }

  lemma SafeWorks(size: nat, plaintext: nat, len: nat, key: nat, ciphertext: nat, n: nat, enc: BlockCipher, m: seq<Byte>)
    requires plaintext + len <= size && key + 16 <= size && ciphertext + len <= size && len == 16 * n && |m| == size
    requires Safe(plaintext, len, key, ciphertext)
    ensures Stored(enc, m, plaintext, key, ciphertext, n) == AfterBlocks(enc, m, plaintext, len, key, ciphertext, n)
  {
    HistorySteps(enc, m, plaintext, key, ciphertext, n);
    StepsAreBlockwise(HistoryOf(enc, m, plaintext, key, ciphertext), enc, plaintext, len, key, ciphertext, n);
  }

  /** As a statement about the loop, over all ciphers: it encrypts block by block for
      every cipher and every memory exactly when the buffers are safely placed. */
  lemma SafeIff(size: nat, plaintext: nat, len: nat, key: nat, ciphertext: nat, n: nat)
    requires plaintext + len <= size && key + 16 <= size && ciphertext + len <= size && len == 16 * n
    ensures Safe(plaintext, len, key, ciphertext) <==>
      forall enc: BlockCipher, m: seq<Byte> {:trigger Stored(enc, m, plaintext, key, ciphertext, n)} :: |m| == size ==>
        Stored(enc, m, plaintext, key, ciphertext, n) == AfterBlocks(enc, m, plaintext, len, key, ciphertext, n)
  {
    if Safe(plaintext, len, key, ciphertext) {
      forall enc: BlockCipher, m: seq<Byte> | |m| == size
        ensures Stored(enc, m, plaintext, key, ciphertext, n) == AfterBlocks(enc, m, plaintext, len, key, ciphertext, n)
      {
        SafeWorks(size, plaintext, len, key, ciphertext, n, enc, m);
      }
    } else {
      var enc, m := UnsafeFails(size, plaintext, len, key, ciphertext, n);
    }
  }

  /** FIPS-197 AES-128 on byte strings. */
  function Aes128(box: SBox): (enc: BlockCipher)
  {
    (k: Sixteen, b: Sixteen) => Block(CipherOf(box)(FromBytes(k), FromBytes(b)))
  }

  function Block(s: State): (b: Sixteen)
  {
    ToBytes(s)
  }

  lemma Aes128Forms(box: SBox)
    ensures ByteForm(CipherOf(box), Aes128(box))
  {}

  /** The same on the wired units, whatever their registers held before: the cipher is
      FIPS-197's. */
  method Aes128EcbEncrypt(core: Core, box: SBox, mem: array<Byte>, plaintext: nat, len: nat, key: nat, ciphertext: nat)
    requires core.Valid() && core.units == Wired(box)
    requires plaintext + len <= mem.Length && key + 16 <= mem.Length && ciphertext + len <= mem.Length
    modifies core, mem
    ensures core.Valid()
    ensures len % 16 != 0 ==> mem[..] == old(mem[..])
    ensures len % 16 == 0 ==> mem[..] == Stored(Aes128(box), old(mem[..]), plaintext, key, ciphertext, len / 16)
    ensures len % 16 == 0 && Safe(plaintext, len, key, ciphertext) ==>
              mem[..] == AfterBlocks(Aes128(box), old(mem[..]), plaintext, len, key, ciphertext, len / 16)
  {
    WiredEncrypts(box);
    Aes128Forms(box);
    EcbEncrypt(core, mem, plaintext, len, key, ciphertext, CipherOf(box), Aes128(box));
  }

  // The byte-wise rounds.

  /** A round function that the chained middle-round instructions compute. */
  ghost predicate ChainsMiddle(box: SBox, round: (State, State) -> State)
  {
    forall q: Quad, k: Quad :: ToState(BytewiseMiddle(box, q, k)) == round(ToState(q), ToState(k))
  }

  /** A round function that the chained final-round instructions compute. */
  ghost predicate ChainsFinal(box: SBox, round: (State, State) -> State)
  {
    forall q: Quad, k: Quad :: ToState(BytewiseFinal(box, q, k)) == round(ToState(q), ToState(k))
  }

  /** The chains compute the FIPS-197 rounds. */
  lemma ChainsFips(box: SBox)
    ensures ChainsMiddle(box, FipsRounds(box).middle)
    ensures ChainsFinal(box, FipsRounds(box).last)
  {
    forall q: Quad, k: Quad ensures ToState(BytewiseMiddle(box, q, k)) == MiddleRound(box, ToState(q), ToState(k)) {
      BytewiseMiddleIsEngine(box, q, k);
      RoundIsFips(box, q, 0, k);
    }
    forall q: Quad, k: Quad ensures ToState(BytewiseFinal(box, q, k)) == FinalRound(box, ToState(q), ToState(k)) {
      BytewiseFinalIsEngine(box, q, k);
      RoundIsFips(box, q, 1, k);
    }
  }

  /** The four instructions of one column, each adding to the one before. */
  method EsmiChain(box: SBox, k: Word, in0: Word, in1: Word, in2: Word, in3: Word) returns (c: Word)
    ensures c == EsmiColumn(box, k, in0, in1, in2, in3)
  {
    c := k;
    c := Esmi(box, c, in0, 0);
    c := Esmi(box, c, in1, 1);
    c := Esmi(box, c, in2, 2);
    c := Esmi(box, c, in3, 3);
  }

  method EsiChain(box: SBox, k: Word, in0: Word, in1: Word, in2: Word, in3: Word) returns (c: Word)
    ensures c == EsiColumn(box, k, in0, in1, in2, in3)
  {
    c := k;
    c := Esi(box, c, in0, 0);
    c := Esi(box, c, in1, 1);
    c := Esi(box, c, in2, 2);
    c := Esi(box, c, in3, 3);
  }

  method ChainMiddle(box: SBox, q: Quad, k: Quad) returns (c: Quad)
    ensures c == BytewiseMiddle(box, q, k)
  {
    var c0 := EsmiChain(box, k.w0, q.w0, q.w1, q.w2, q.w3);
    var c1 := EsmiChain(box, k.w1, q.w1, q.w2, q.w3, q.w0);
    var c2 := EsmiChain(box, k.w2, q.w2, q.w3, q.w0, q.w1);
    var c3 := EsmiChain(box, k.w3, q.w3, q.w0, q.w1, q.w2);
    c := Quad(c0, c1, c2, c3);
  }

  method ChainFinal(box: SBox, q: Quad, k: Quad) returns (c: Quad)
    ensures c == BytewiseFinal(box, q, k)
  {
    var c0 := EsiChain(box, k.w0, q.w0, q.w1, q.w2, q.w3);
    var c1 := EsiChain(box, k.w1, q.w1, q.w2, q.w3, q.w0);
    var c2 := EsiChain(box, k.w2, q.w2, q.w3, q.w0, q.w1);
    var c3 := EsiChain(box, k.w3, q.w3, q.w0, q.w1, q.w2);
    c := Quad(c0, c1, c2, c3);
  }

  /** The chains, told by the round that they compute. */
  method MiddleOf(box: SBox, q: Quad, k: Quad, ghost round: (State, State) -> State) returns (c: Quad)
    requires ChainsMiddle(box, round)
    ensures ToState(c) == round(ToState(q), ToState(k))
  {
    c := ChainMiddle(box, q, k);
  }

  method FinalOf(box: SBox, q: Quad, k: Quad, ghost round: (State, State) -> State) returns (c: Quad)
    requires ChainsFinal(box, round)
    ensures ToState(c) == round(ToState(q), ToState(k))
  {
    c := ChainFinal(box, q, k);
  }

  /** aes_inner_round: a middle round on a state in memory. */
  method InnerRound(box: SBox, mem: array<Byte>, state: nat, k0: Word, k1: Word, k2: Word, k3: Word,
                    ghost round: (State, State) -> State)
    requires state + 16 <= mem.Length && ChainsMiddle(box, round)
    modifies mem
    ensures mem[..] == Patched(old(mem[..]), state,
      ToBytes(round(FromBytes(old(mem[..])[state..state + 16]), ToState(Quad(k0, k1, k2, k3)))))
  {
    var q := LoadQuad(mem[..], state);
    LoadedState(mem[..], state);
    var c := MiddleOf(box, q, Quad(k0, k1, k2, k3), round);
    StoreQuad(mem, state, c);
  }

  /** aes_final_round: a final round on a state in memory. */
  method FinalRoundInMemory(box: SBox, mem: array<Byte>, state: nat, k0: Word, k1: Word, k2: Word, k3: Word,
                            ghost round: (State, State) -> State)
    requires state + 16 <= mem.Length && ChainsFinal(box, round)
    modifies mem
    ensures mem[..] == Patched(old(mem[..]), state,
      ToBytes(round(FromBytes(old(mem[..])[state..state + 16]), ToState(Quad(k0, k1, k2, k3)))))
  {
    var q := LoadQuad(mem[..], state);
    LoadedState(mem[..], state);
    var c := FinalOf(box, q, Quad(k0, k1, k2, k3), round);
    StoreQuad(mem, state, c);
  }
}
