/** The AES instructions on the two hidden registers, and what programs made of
    them compute. */
module AesInstructions {
  import opened AesSpec
  import opened AesUnits
  import opened AesEngine

  /** The key register, its four-bit round counter and the state register. */
  datatype Regs = Regs(krk: Quad, rcnt: nat, st: Quad)

  datatype Instr =
    | KsLd(w: Word, idx: nat)   // xaesksld
    | KsE                       // xaeskse
    | KsRd(idx: nat)            // xaesksrd
    | StLd(w: Word, idx: nat)   // xaesstld
    | Rnd(mode: nat)            // xaesrnd
    | StRd(idx: nat)            // xaesstrd
    | Other                     // any instruction outside the AES extension

  /** The two datapaths behind the registers. */
  datatype Units = Units(expand: (Quad, nat) -> Quad, round: (Quad, nat, Quad) -> Quad)

  /** The hardware: the round engine reads the live round key. */
  function Wired(box: SBox): (u: Units)
  {
    Units((krk: Quad, rcnt: nat) => Expand(box, krk, rcnt),
          (st: Quad, mode: nat, krk: Quad) => Round(box, st, mode, KrkFull(krk)))
  }

  /** How a register of four words shows a state. */
  function Viewed(): (view: Quad -> State)
  {
    (q: Quad) => ToState(q)
  }

  /** A datapath that steps through a key schedule. */
  ghost predicate Expands(view: Quad -> State, keys: nat -> State, expand: (Quad, nat) -> Quad)
  {
    forall krk: Quad, n: nat :: n < 10 && view(krk) == keys(n) ==> view(expand(krk, n)) == keys(n + 1)
  }

  /** The round that a mode stands for. */
  function RoundOf(f: RoundFunctions, mode: nat, s: State, k: State): (s': State)
  {
    if mode == 1 then f.last(s, k) else if mode == 2 then f.first(s, k) else f.middle(s, k)
  }

  /** A datapath that computes rounds. */
  ghost predicate Computes(view: Quad -> State, f: RoundFunctions, round: (Quad, nat, Quad) -> Quad)
  {
    forall st: Quad, mode: nat, krk: Quad :: view(round(st, mode, krk)) == RoundOf(f, mode, view(st), view(krk))
  }

  /** Units that implement some rounds over some key schedule. */
  ghost predicate Implements(u: Units, view: Quad -> State, f: RoundFunctions, keys: nat -> State)
  {
    Expands(view, keys, u.expand) && Computes(view, f, u.round)
  }

  lemma WiredExpands(box: SBox, key: State)
    ensures Expands(Viewed(), Schedule(box, key), Wired(box).expand)
  {
    var expand, keys, view := Wired(box).expand, Schedule(box, key), Viewed();
    forall krk: Quad, n: nat | n < 10 && view(krk) == keys(n)
      ensures view(expand(krk, n)) == keys(n + 1)
    {
      ExpandIsFips(box, key, krk, n);
      assert expand(krk, n) == Expand(box, krk, n);
    }
  }

  lemma WiredComputes(box: SBox)
    ensures Computes(Viewed(), FipsRounds(box), Wired(box).round)
  {
    var round, f, view := Wired(box).round, FipsRounds(box), Viewed();
    forall st: Quad, mode: nat, krk: Quad
      ensures view(round(st, mode, krk)) == RoundOf(f, mode, view(st), view(krk))
    {
      RoundIsFips(box, st, mode, krk);
      assert round(st, mode, krk) == Round(box, st, mode, KrkFull(krk));
    }
  }

  /** The hardware implements FIPS-197, whatever the key. */
  lemma WiredImplements(box: SBox, key: State)
    ensures Implements(Wired(box), Viewed(), FipsRounds(box), Schedule(box, key))
  {
    WiredExpands(box, key);
    WiredComputes(box);
  }

  function Count4(n: nat): (m: nat)
  {
    if n == 15 then 0 else n + 1
  }

  /** The registers after one instruction. */
  function Execute(u: Units, r: Regs, i: Instr): (r': Regs)
  {
    match i
    case KsLd(w, idx) => r.(krk := SetWord(r.krk, idx, w), rcnt := 0)
    case KsE => r.(krk := u.expand(r.krk, r.rcnt), rcnt := Count4(r.rcnt))
    case StLd(w, idx) => r.(st := SetWord(r.st, idx, w))
    case Rnd(mode) => r.(st := u.round(r.st, mode, r.krk))
    case KsRd(_) => r
    case StRd(_) => r
    case Other => r
  }

  function ExecuteAll(u: Units, r: Regs, program: seq<Instr>): (r': Regs)
  {
    if program == [] then r
    else Execute(u, ExecuteAll(u, r, program[..|program| - 1]), program[|program| - 1])
  }

  lemma {:induction false} ExecuteConcat(u: Units, r: Regs, p: seq<Instr>, q: seq<Instr>)
    ensures ExecuteAll(u, r, p + q) == ExecuteAll(u, ExecuteAll(u, r, p), q)
    decreases |q|
  {
    if q == [] {
      assert p + q == p;
    } else {
      ExecuteConcat(u, r, p, q[..|q| - 1]);
      assert (p + q)[..|p + q| - 1] == p + q[..|q| - 1];
    }
  }

  lemma ExecuteAppend(u: Units, r: Regs, p: seq<Instr>, i: Instr)
    ensures ExecuteAll(u, r, p + [i]) == Execute(u, ExecuteAll(u, r, p), i)
  {
    assert (p + [i])[..|p|] == p;
  }

  // The key register over a whole run.

  function Expansions(program: seq<Instr>): (n: nat)
  {
    if program == [] then 0
    else Expansions(program[..|program| - 1]) + if program[|program| - 1].KsE? then 1 else 0
  }

  predicate NoSeeds(program: seq<Instr>)
  {
    forall i :: 0 <= i < |program| ==> !program[i].KsLd?
  }

  /** The key register holds the round key that its counter says. */
  ghost predicate KeyInStep(view: Quad -> State, keys: nat -> State, r: Regs)
  {
    r.rcnt <= 10 && view(r.krk) == keys(r.rcnt)
  }

  /** Once in step, the key register stays in step through any program without
      seed loads and with at most ten expansions in all, whatever state loads,
      rounds and reads are mixed in. */
  lemma {:induction false} KeyStaysInStep(u: Units, view: Quad -> State, keys: nat -> State, r: Regs, program: seq<Instr>)
    requires Expands(view, keys, u.expand)
    requires KeyInStep(view, keys, r) && NoSeeds(program) && r.rcnt + Expansions(program) <= 10
    ensures KeyInStep(view, keys, ExecuteAll(u, r, program))
    ensures ExecuteAll(u, r, program).rcnt == r.rcnt + Expansions(program)
  {
    if program != [] {
      KeyStaysInStep(u, view, keys, r, program[..|program| - 1]);
    }
  }

  /** The seed loads of a key, in a given order. */
  function Seeds(kin: Quad, order: seq<nat>): (program: seq<Instr>)
    ensures |program| == |order|
  {
    if order == [] then []
    else Seeds(kin, order[..|order| - 1]) + [KsLd(WordOf(kin, order[|order| - 1]), order[|order| - 1])]
  }

  predicate Order(order: seq<nat>)
  {
    && |order| >= 1
    && (forall i :: 0 <= i < |order| ==> order[i] < 4)
  }

  lemma {:induction false} SeedsLoad(u: Units, r: Regs, kin: Quad, order: seq<nat>)
    requires forall i :: 0 <= i < |order| ==> order[i] < 4
    ensures
      var r' := ExecuteAll(u, r, Seeds(kin, order));
      && (|order| >= 1 ==> r'.rcnt == 0) && r'.st == r.st
      && (forall j :: 0 <= j < 4 && j in order ==> WordOf(r'.krk, j) == WordOf(kin, j))
  {
    if order != [] {
      var init := order[..|order| - 1];
      SeedsLoad(u, r, kin, init);
      ExecuteAppend(u, r, Seeds(kin, init), KsLd(WordOf(kin, order[|order| - 1]), order[|order| - 1]));
      assert order == init + [order[|order| - 1]];
    }
  }

  /** Round key 0 is the key itself. */
  lemma FirstRoundKey(box: SBox, key: State)
    ensures RoundKey(box, key, 0) == key
  {}

  /** The key schedule refinement: after seed loads of all four words, in any
      order and from any prior contents, and then a program with n <= 10
      expansions, the counter is n and the register holds round key n. */
  lemma KeyScheduleRefines(box: SBox, r: Regs, kin: Quad, order: seq<nat>, program: seq<Instr>)
    requires Order(order) && 0 in order && 1 in order && 2 in order && 3 in order
    requires NoSeeds(program) && Expansions(program) <= 10
    ensures
      var u := Wired(box);
      var r' := ExecuteAll(u, r, Seeds(kin, order) + program);
      r'.rcnt == Expansions(program) && ToState(r'.krk) == RoundKey(box, ToState(kin), Expansions(program))
  {
    var u := Wired(box);
    WiredImplements(box, ToState(kin));
    SeedsLoad(u, r, kin, order);
    var r0 := ExecuteAll(u, r, Seeds(kin, order));
    assert WordOf(r0.krk, 0) == kin.w0 && WordOf(r0.krk, 1) == kin.w1;
    assert WordOf(r0.krk, 2) == kin.w2 && WordOf(r0.krk, 3) == kin.w3;
    assert r0.krk == kin;
    FirstRoundKey(box, ToState(kin));
    KeyStaysInStep(u, Viewed(), Schedule(box, ToState(kin)), r0, program);
    ExecuteConcat(u, r, Seeds(kin, order), program);
  }

  // The program of one block.

  function Loads(pin: Quad): (program: seq<Instr>)
  {
    [StLd(pin.w0, 0), StLd(pin.w1, 1), StLd(pin.w2, 2), StLd(pin.w3, 3)]
  }

  function KeyLoads(kin: Quad): (program: seq<Instr>)
  {
    [KsLd(kin.w0, 0), KsLd(kin.w1, 1), KsLd(kin.w2, 2), KsLd(kin.w3, 3)]
  }

  /** Round 0 and n middle rounds. */
  function Rounds(n: nat): (program: seq<Instr>)
    ensures |program| == 2 * n + 1
  {
    if n == 0 then [Rnd(2)] else Rounds(n - 1) + [KsE, Rnd(0)]
  }

  function Reads(): (program: seq<Instr>)
  {
    [StRd(0), StRd(1), StRd(2), StRd(3)]
  }

  function BlockProgram(pin: Quad, kin: Quad): (program: seq<Instr>)
    ensures |program| == 33
  {
    Loads(pin) + KeyLoads(kin) + Rounds(9) + [KsE, Rnd(1)] + Reads()
  }

  lemma LoadsLoad(u: Units, r: Regs, pin: Quad, kin: Quad)
    ensures ExecuteAll(u, r, Loads(pin) + KeyLoads(kin)) == Regs(kin, 0, pin)
  {
    ExecuteConcat(u, r, Loads(pin), KeyLoads(kin));
    FourSteps(u, r, StLd(pin.w0, 0), StLd(pin.w1, 1), StLd(pin.w2, 2), StLd(pin.w3, 3));
    FourSteps(u, ExecuteAll(u, r, Loads(pin)), KsLd(kin.w0, 0), KsLd(kin.w1, 1), KsLd(kin.w2, 2), KsLd(kin.w3, 3));
  }

  lemma TwoSteps(u: Units, r: Regs, p: seq<Instr>, a: Instr, b: Instr)
    ensures ExecuteAll(u, r, p + [a, b]) == Execute(u, Execute(u, ExecuteAll(u, r, p), a), b)
  {
    ExecuteAppend(u, r, p, a);
    ExecuteAppend(u, r, p + [a], b);
    AppendPair(p, a, b);
  }

  lemma AppendPair(p: seq<Instr>, a: Instr, b: Instr)
    ensures p + [a] + [b] == p + [a, b]
  {}

  lemma FourSteps(u: Units, r: Regs, a: Instr, b: Instr, c: Instr, d: Instr)
    ensures ExecuteAll(u, r, [a, b, c, d]) == Execute(u, Execute(u, Execute(u, Execute(u, r, a), b), c), d)
  {
    TwoSteps(u, r, [], a, b);
    TwoSteps(u, r, [a, b], c, d);
    assert [a, b] + [c, d] == [a, b, c, d] && [] + [a, b] == [a, b];
  }

  /** Round n is done, with round key n in place. */
  ghost predicate RoundDone(view: Quad -> State, f: RoundFunctions, keys: nat -> State, input: State, n: nat, r: Regs)
  {
    r.rcnt == n && view(r.krk) == keys(n) && view(r.st) == AfterRound(f, keys, input, n)
  }

  lemma NextRound(u: Units, view: Quad -> State, f: RoundFunctions, keys: nat -> State, input: State, n: nat, r: Regs)
    requires Implements(u, view, f, keys) && n < 10 && RoundDone(view, f, keys, input, n, r)
    ensures RoundDone(view, f, keys, input, n + 1, Execute(u, Execute(u, r, KsE), Rnd(0)))
  {}

  lemma LastRound(u: Units, view: Quad -> State, f: RoundFunctions, keys: nat -> State, input: State, r: Regs)
    requires Implements(u, view, f, keys) && RoundDone(view, f, keys, input, 9, r)
    ensures
      var s := Execute(u, Execute(u, r, KsE), Rnd(1));
      view(s.st) == CipherWith(f, keys, input) && s.rcnt == 10
  {}

  lemma FirstRound(u: Units, view: Quad -> State, f: RoundFunctions, keys: nat -> State, kin: Quad, pin: Quad)
    requires Implements(u, view, f, keys) && keys(0) == view(kin)
    ensures RoundDone(view, f, keys, view(pin), 0, Execute(u, Regs(kin, 0, pin), Rnd(2)))
  {
    assert view(u.round(pin, 2, kin)) == RoundOf(f, 2, view(pin), view(kin));
  }

  lemma RoundZero(u: Units, r: Regs)
    ensures ExecuteAll(u, r, Rounds(0)) == Execute(u, r, Rnd(2))
  {
    ExecuteAppend(u, r, [], Rnd(2));
    assert [] + [Rnd(2)] == [Rnd(2)];
  }

  lemma {:induction false} RoundsFollow(u: Units, view: Quad -> State, f: RoundFunctions, keys: nat -> State, kin: Quad, pin: Quad, n: nat)
    requires Implements(u, view, f, keys) && keys(0) == view(kin) && n <= 9
    ensures RoundDone(view, f, keys, view(pin), n, ExecuteAll(u, Regs(kin, 0, pin), Rounds(n)))
  {
    var r0 := Regs(kin, 0, pin);
    if n == 0 {
      FirstRound(u, view, f, keys, kin, pin);
      RoundZero(u, r0);
    } else {
      RoundsFollow(u, view, f, keys, kin, pin, n - 1);
      RoundsUnfold(u, r0, n);
      NextRound(u, view, f, keys, view(pin), n - 1, ExecuteAll(u, r0, Rounds(n - 1)));
    }
  }

  lemma RoundsUnfold(u: Units, r0: Regs, n: nat)
    requires n > 0
    ensures ExecuteAll(u, r0, Rounds(n)) == Execute(u, Execute(u, ExecuteAll(u, r0, Rounds(n - 1)), KsE), Rnd(0))
  {
    TwoSteps(u, r0, Rounds(n - 1), KsE, Rnd(0));
  }

  /** The 33 instructions of one block encrypt it: for every plaintext, key and
      prior contents of the hidden registers the state register ends as the
      FIPS-197 cipher, with the counter at ten. */
  lemma BlockProgramEncrypts(box: SBox, r: Regs, pin: Quad, kin: Quad)
    ensures
      var r' := ExecuteAll(Wired(box), r, BlockProgram(pin, kin));
      ToState(r'.st) == Cipher(box, ToState(kin), ToState(pin)) && r'.rcnt == 10
  {
    var u := Wired(box);
    WiredImplements(box, ToState(kin));
    var view, f, keys := Viewed(), FipsRounds(box), Schedule(box, ToState(kin));
    FirstRoundKey(box, ToState(kin));
    BlockProgramRuns(u, view, f, keys, r, pin, kin);
  }

  lemma BlockProgramRuns(u: Units, view: Quad -> State, f: RoundFunctions, keys: nat -> State, r: Regs, pin: Quad, kin: Quad)
    requires Implements(u, view, f, keys) && keys(0) == view(kin)
    ensures
      var r' := ExecuteAll(u, r, BlockProgram(pin, kin));
      view(r'.st) == CipherWith(f, keys, view(pin)) && r'.rcnt == 10
  {
    var p0 := Loads(pin) + KeyLoads(kin);
    var p1 := p0 + Rounds(9);
    var p2 := p1 + [KsE, Rnd(1)];
    LoadsLoad(u, r, pin, kin);
    ExecuteConcat(u, r, p0, Rounds(9));
    RoundsFollow(u, view, f, keys, kin, pin, 9);
    TwoSteps(u, r, p1, KsE, Rnd(1));
    LastRound(u, view, f, keys, view(pin), ExecuteAll(u, r, p1));
    ExecuteConcat(u, r, p2, Reads());
    ReadsKeep(u, ExecuteAll(u, r, p2));
  }

  lemma ReadsKeep(u: Units, r: Regs)
    ensures ExecuteAll(u, r, Reads()) == r
  {
    FourSteps(u, r, StRd(0), StRd(1), StRd(2), StRd(3));
  }
}
