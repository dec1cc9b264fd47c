/** Block and ECB encryption as the C code does it: little-endian words move
    between a byte memory and the hidden registers of the core. */
module AesBlock {
  import opened Bits
  import opened AesField
  import opened AesSpec
  import opened AesUnits
  import opened AesInstructions

  function LoadWord(b: seq<Byte>, off: nat): (w: Word)
    requires off + 4 <= |b|
  {
    Pack(b[off], b[off + 1], b[off + 2], b[off + 3])
  }

  function LoadQuad(b: seq<Byte>, off: nat): (q: Quad)
    requires off + 16 <= |b|
  {
    Quad(LoadWord(b, off), LoadWord(b, off + 4), LoadWord(b, off + 8), LoadWord(b, off + 12))
  }

  lemma LoadedState(b: seq<Byte>, off: nat)
    requires off + 16 <= |b|
    ensures ToState(LoadQuad(b, off)) == FromBytes(b[off..off + 16])
  {
    var c := b[off..off + 16];
    PackBytes(c[0], c[1], c[2], c[3]);
    PackBytes(c[4], c[5], c[6], c[7]);
    PackBytes(c[8], c[9], c[10], c[11]);
    PackBytes(c[12], c[13], c[14], c[15]);
  }

  /** Memory with some bytes replaced. */
  function Patched(b: seq<Byte>, off: nat, d: seq<Byte>): (b': seq<Byte>)
    requires off + |d| <= |b|
    ensures |b'| == |b|
  {
    b[..off] + d + b[off + |d|..]
  }

  method StoreWord(mem: array<Byte>, off: nat, w: Word)
    requires off + 4 <= mem.Length
    modifies mem
    ensures mem[..] == Patched(old(mem[..]), off, ColumnBytes(ToColumn(w)))
  {
    mem[off] := ByteAt(w, 0);
    mem[off + 1] := ByteAt(w, 1);
    mem[off + 2] := ByteAt(w, 2);
    mem[off + 3] := ByteAt(w, 3);
  }

  lemma PatchTwice(b: seq<Byte>, off: nat, d: seq<Byte>, e: seq<Byte>)
    requires off + |d| + |e| <= |b|
    ensures Patched(Patched(b, off, d), off + |d|, e) == Patched(b, off, d + e)
  {}

  method StoreQuad(mem: array<Byte>, off: nat, q: Quad)
    requires off + 16 <= mem.Length
    modifies mem
    ensures mem[..] == Patched(old(mem[..]), off, ToBytes(ToState(q)))
  {
    ghost var b := mem[..];
    ghost var d0, d1 := ColumnBytes(ToColumn(q.w0)), ColumnBytes(ToColumn(q.w1));
    ghost var d2, d3 := ColumnBytes(ToColumn(q.w2)), ColumnBytes(ToColumn(q.w3));
    StoreWord(mem, off, q.w0);
    StoreWord(mem, off + 4, q.w1);
    PatchTwice(b, off, d0, d1);
    StoreWord(mem, off + 8, q.w2);
    PatchTwice(b, off, d0 + d1, d2);
    StoreWord(mem, off + 12, q.w3);
    PatchTwice(b, off, d0 + d1 + d2, d3);
  }

  lemma ReadAppend(u: Units, r: Regs, p: seq<Instr>, sidx: nat)
    ensures ExecuteAll(u, r, p + [StRd(sidx)]) == ExecuteAll(u, r, p)
  {
    ExecuteAppend(u, r, p, StRd(sidx));
  }

  lemma OneMoreRound(log: seq<Instr>, n: nat)
    ensures log + Rounds(n) + [KsE] + [Rnd(0)] == log + Rounds(n + 1)
  {}

  lemma RoundAppend(u: Units, start: Regs, log: seq<Instr>, r: Regs, mode: nat)
    requires r == ExecuteAll(u, start, log)
    ensures ExecuteAll(u, start, log + [Rnd(mode)]) == Regs(r.krk, r.rcnt, u.round(r.st, mode, r.krk))
  {
    ExecuteAppend(u, start, log, Rnd(mode));
  }

  /** The core with its hidden registers; the log tells what it has executed. */
  class Core {
    const units: Units
    var krk: Quad
    var rcnt: nat
    var st: Quad
    ghost var start: Regs
    ghost var log: seq<Instr>

    function Registers(): (r: Regs)
      reads this
    {
      Regs(krk, rcnt, st)
    }

    /** The registers are what the log leads to. */
    ghost predicate Valid()
      reads this
    {
      Registers() == ExecuteAll(units, start, log)
    }

    constructor (units: Units)
      ensures Valid() && this.units == units && log == []
    {
      var zero: Word := Fill(32, false);
      this.units := units;
      krk, rcnt, st := Quad(zero, zero, zero, zero), 0, Quad(zero, zero, zero, zero);
      start, log := Regs(Quad(zero, zero, zero, zero), 0, Quad(zero, zero, zero, zero)), [];
    }

    method AesStLd(w: Word, sidx: nat)
      requires Valid()
      modifies this
      ensures Valid() && start == old(start) && log == old(log) + [StLd(w, sidx)]
    {
      ExecuteAppend(units, start, log, StLd(w, sidx));
      st := SetWord(st, sidx, w);
      log := log + [StLd(w, sidx)];
    }

    method AesKsLd(w: Word, widx: nat)
      requires Valid()
      modifies this
      ensures Valid() && start == old(start) && log == old(log) + [KsLd(w, widx)]
    {
      ExecuteAppend(units, start, log, KsLd(w, widx));
      krk, rcnt := SetWord(krk, widx, w), 0;
      log := log + [KsLd(w, widx)];
    }

    method AesKsE()
      requires Valid()
      modifies this
      ensures Valid() && start == old(start) && log == old(log) + [KsE]
    {
      ExecuteAppend(units, start, log, KsE);
      krk, rcnt := units.expand(krk, rcnt), Count4(rcnt);
      log := log + [KsE];
    }

    method AesRnd(mode: nat)
      requires Valid()
      modifies this
      ensures Valid() && start == old(start) && log == old(log) + [Rnd(mode)]
    {
      RoundAppend(units, start, log, Registers(), mode);
      st := units.round(st, mode, krk);
      log := log + [Rnd(mode)];
    }

    method AesStRd(sidx: nat) returns (w: Word)
      requires Valid()
      modifies this
      ensures Valid() && start == old(start) && log == old(log) + [StRd(sidx)]
      ensures w == WordOf(old(st), sidx) && st == old(st)
    {
      ReadAppend(units, start, log, sidx);
      w := WordOf(st, sidx);
      log := log + [StRd(sidx)];
    }

    method LoadState(pin: Quad)
      requires Valid()
      modifies this
      ensures Valid() && start == old(start) && log == old(log) + Loads(pin)
    {
      AesStLd(pin.w0, 0);
      AesStLd(pin.w1, 1);
      AesStLd(pin.w2, 2);
      AesStLd(pin.w3, 3);
    }

    method LoadKey(kin: Quad)
      requires Valid()
      modifies this
      ensures Valid() && start == old(start) && log == old(log) + KeyLoads(kin)
    {
      AesKsLd(kin.w0, 0);
      AesKsLd(kin.w1, 1);
      AesKsLd(kin.w2, 2);
      AesKsLd(kin.w3, 3);
    }

    method AllRounds()
      requires Valid()
      modifies this
      ensures Valid() && start == old(start) && log == old(log) + (Rounds(9) + [KsE, Rnd(1)])
    {
      AesRnd(2);
      assert Rounds(0) == [Rnd(2)];
      for round := 1 to 10
        invariant Valid() && start == old(start) && log == old(log) + Rounds(round - 1)
      {
        AesKsE();
        AesRnd(0);
        OneMoreRound(old(log), round - 1);
      }
      AesKsE();
      AesRnd(1);
    }

    method ReadState() returns (q: Quad)
      requires Valid()
      modifies this
      ensures Valid() && start == old(start) && log == old(log) + Reads()
      ensures q == old(st) == st
    {
      var w0 := AesStRd(0);
      var w1 := AesStRd(1);
      var w2 := AesStRd(2);
      var w3 := AesStRd(3);
      q := Quad(w0, w1, w2, w3);
    }
  }

  /** Units on which the block program computes a given cipher (key first). */
  ghost predicate Encrypts(units: Units, cipher: (State, State) -> State)
  {
    forall r: Regs, pin: Quad, kin: Quad {:trigger ExecuteAll(units, r, BlockProgram(pin, kin))} ::
      ToState(ExecuteAll(units, r, BlockProgram(pin, kin)).st) == cipher(ToState(kin), ToState(pin))
  }

  function CipherOf(box: SBox): (cipher: (State, State) -> State)
  {
    (key: State, input: State) => Cipher(box, key, input)
  }

  lemma WiredEncrypts(box: SBox)
    ensures Encrypts(Wired(box), CipherOf(box))
  {
    var units, cipher := Wired(box), CipherOf(box);
    forall r: Regs, pin: Quad, kin: Quad {:trigger ExecuteAll(units, r, BlockProgram(pin, kin))}
      ensures ToState(ExecuteAll(units, r, BlockProgram(pin, kin)).st) == cipher(ToState(kin), ToState(pin))
    {
      BlockProgramEncrypts(box, r, pin, kin);
    }
  }

  /** The 33 instructions between the memory accesses. */
  method EncryptLoaded(core: Core, pin: Quad, kin: Quad, ghost cipher: (State, State) -> State) returns (out: Quad)
    requires core.Valid() && Encrypts(core.units, cipher)
    modifies core
    ensures core.Valid() && core.log == old(core.log) + BlockProgram(pin, kin)
    ensures ToState(out) == cipher(ToState(kin), ToState(pin))
  {
    ghost var before := core.Registers();
    core.LoadState(pin);
    core.LoadKey(kin);
    core.AllRounds();
    out := core.ReadState();
    ghost var program := Loads(pin) + KeyLoads(kin) + Rounds(9) + [KsE, Rnd(1)] + Reads();
    assert core.log == old(core.log) + program;
    assert program == BlockProgram(pin, kin);
    ExecuteConcat(core.units, core.start, old(core.log), program);
    assert core.Registers() == ExecuteAll(core.units, before, BlockProgram(pin, kin));
  }

  /** aes128_encrypt_block, with the three buffers anywhere in memory. */
  method EncryptBlock(core: Core, mem: array<Byte>, plaintext: nat, key: nat, ciphertext: nat,
                      ghost cipher: (State, State) -> State)
    requires core.Valid() && Encrypts(core.units, cipher)
    requires plaintext + 16 <= mem.Length && key + 16 <= mem.Length && ciphertext + 16 <= mem.Length
    modifies core, mem
    ensures core.Valid()
    ensures mem[..] == Patched(old(mem[..]), ciphertext,
      ToBytes(cipher(FromBytes(old(mem[..])[key..key + 16]), FromBytes(old(mem[..])[plaintext..plaintext + 16]))))
    ensures core.log == old(core.log) + BlockProgram(LoadQuad(old(mem[..]), plaintext), LoadQuad(old(mem[..]), key))
  {
    ghost var b := mem[..];
    var pin, kin := LoadQuad(mem[..], plaintext), LoadQuad(mem[..], key);
    LoadedState(b, plaintext);
    LoadedState(b, key);
    var out := EncryptLoaded(core, pin, kin, cipher);
    StoreQuad(mem, ciphertext, out);
  }
}
