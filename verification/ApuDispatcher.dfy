/** The dispatcher of the auxiliary processing unit as an in-order queue of at most
    two outstanding operations. */
module ApuDispatcher {

  /** An operation: its destination register and its latency class (1, 2, or 3 for
      anything longer). */
  datatype Op = Op(addr: nat, lat: nat)

  datatype Reg = Reg(addr: nat, valid: bool)

  /** The inputs of one cycle. */
  datatype Inputs = Inputs(enable: bool, op: Op, isDecoding: bool, sources: seq<Reg>, dests: seq<Reg>,
                           gnt: bool, rvalid: bool)

  datatype Outputs = Outputs(req: bool, stall: bool, waddr: nat, readDep: bool, writeDep: bool,
                             active: bool, multicycle: bool, singlecycle: bool)

  // The queue. q holds the outstanding operations, oldest first, and lat the latency
  // class of the latest request.

  predicate TypeConflict(q: seq<Op>, lat: nat, i: Inputs)
  {
    i.enable && q != [] && (i.op.lat == 1 || (i.op.lat == 2 && lat == 3) || i.op.lat == 3)
  }

  predicate Requests(q: seq<Op>, lat: nat, i: Inputs)
  {
    i.enable && |q| < 2 && !TypeConflict(q, lat, i)
  }

  predicate Accepts(q: seq<Op>, lat: nat, i: Inputs)
  {
    Requests(q, lat, i) && i.gnt
  }

  /** The outstanding operations including one accepted in this cycle. */
  function WithAccepted(q: seq<Op>, lat: nat, i: Inputs): (all: seq<Op>)
  {
    q + if Accepts(q, lat, i) then [i.op] else []
  }

  /** A response takes out the oldest. */
  function NextQueue(q: seq<Op>, lat: nat, i: Inputs): (q': seq<Op>)
  {
    var all := WithAccepted(q, lat, i);
    if i.rvalid && all != [] then all[1..] else all
  }

  function NextLat(q: seq<Op>, lat: nat, i: Inputs): (lat': nat)
  {
    if Requests(q, lat, i) then i.op.lat else lat
  }

  function AddrSet(ops: seq<Op>): (addrs: set<nat>)
  {
    set op | op in ops :: op.addr
  }

  /** The destinations that a later instruction must wait for: what is outstanding
      after this cycle, and a request that was neither granted nor answered. */
  function Hazards(q: seq<Op>, lat: nat, i: Inputs): (addrs: set<nat>)
  {
    AddrSet(NextQueue(q, lat, i)) +
    (if Requests(q, lat, i) && !i.gnt && !(i.rvalid && q == []) then {i.op.addr} else {})
  }

  predicate Touches(regs: seq<Reg>, addrs: set<nat>)
  {
    exists k :: 0 <= k < |regs| && regs[k].valid && regs[k].addr in addrs
  }

  /** The outputs in terms of the queue: a response names the oldest operation, an
      enabled operation is stalled exactly when it is not accepted, and the dependency
      flags cover the hazards exactly. */
  predicate Shows(q: seq<Op>, lat: nat, i: Inputs, o: Outputs)
  {
    && (o.req <==> Requests(q, lat, i))
    && (o.stall <==> |q| == 2 || (i.enable && !Accepts(q, lat, i)))
    && o.waddr == ReportedAddr(q, lat, i)
    && (o.readDep <==> i.isDecoding && Touches(i.sources, Hazards(q, lat, i)))
    && (o.writeDep <==> i.isDecoding && Touches(i.dests, Hazards(q, lat, i)))
    && (o.active <==> q != []) && (o.singlecycle <==> q == []) && (o.multicycle <==> lat == 3)
  }

  /** The destination shown: on a response that of the oldest operation. A response
      when there is none shows a request that was not granted, or else nothing. */
  function ReportedAddr(q: seq<Op>, lat: nat, i: Inputs): (addr: nat)
  {
    var all := WithAccepted(q, lat, i);
    if !i.rvalid then 0
    else if all != [] then all[0].addr
    else if Requests(q, lat, i) then i.op.addr
    else 0
  }

  /** The registers of the dispatcher. */
  class Dispatcher {
    var validInflight: bool
    var validWaiting: bool
    var addrInflight: nat
    var addrWaiting: nat
    var apuLat: nat
    ghost var queue: seq<Op>

    /** The waiting register is only in use behind the inflight one, and holds the
        older operation. */
    ghost predicate Valid()
      reads this
    {
      && (validWaiting ==> validInflight)
      && |queue| == (if validWaiting then 2 else if validInflight then 1 else 0)
      && (validInflight ==> queue[|queue| - 1].addr == addrInflight)
      && (validWaiting ==> queue[0].addr == addrWaiting)
    }

    constructor ()
      ensures Valid() && queue == [] && apuLat == 0
    {
      validInflight, validWaiting, addrInflight, addrWaiting, apuLat := false, false, 0, 0, 0;
      queue := [];
    }

    /** One clock cycle is one step of the queue. */
    method Clock(i: Inputs) returns (o: Outputs)
      requires Valid() && |i.sources| == 3 && |i.dests| == 2
      modifies this
      ensures Valid()
      ensures queue == NextQueue(old(queue), old(apuLat), i) && apuLat == NextLat(old(queue), old(apuLat), i)
      ensures Shows(old(queue), old(apuLat), i, o)
    {
      o := Drive(i);
      Latch(i);
    }

    /** What the dispatcher shows in a cycle. */
    method Drive(i: Inputs) returns (o: Outputs)
      requires Valid() && |i.sources| == 3 && |i.dests| == 2
      ensures Shows(queue, apuLat, i, o)
    {
      var active := validInflight || validWaiting;
      var stallFull := validInflight && validWaiting;
      var stallType := i.enable && active && (i.op.lat == 1 || (i.op.lat == 2 && apuLat == 3) || i.op.lat == 3);
      var validReq := i.enable && !(stallFull || stallType);
      var stallNack := validReq && !i.gnt;
      var returnedReq := validReq && i.rvalid && !validInflight && !validWaiting;
      var returnedInflight := validInflight && i.rvalid && !validWaiting;
      var returnedWaiting := validWaiting && i.rvalid;
      var waddr := 0;
      if returnedReq { waddr := i.op.addr; }
      if returnedInflight { waddr := addrInflight; }
      if returnedWaiting { waddr := addrWaiting; }
      var read := AnyOf(i.sources, validReq && !returnedReq, i.op.addr, validInflight && !returnedInflight, addrInflight,
                        validWaiting && !returnedWaiting, addrWaiting);
      var write := AnyOf(i.dests, validReq && !returnedReq, i.op.addr, validInflight && !returnedInflight, addrInflight,
                         validWaiting && !returnedWaiting, addrWaiting);
      HazardsAre(queue, apuLat, i);
      o := Outputs(validReq, stallFull || stallType || stallNack, waddr, read && i.isDecoding, write && i.isDecoding,
                   active, apuLat == 3, !active);
    }

    /** The clock edge. */
    method Latch(i: Inputs)
      requires Valid()
      modifies this
      ensures Valid()
      ensures queue == NextQueue(old(queue), old(apuLat), i) && apuLat == NextLat(old(queue), old(apuLat), i)
    {
      var active := validInflight || validWaiting;
      var stallType := i.enable && active && (i.op.lat == 1 || (i.op.lat == 2 && apuLat == 3) || i.op.lat == 3);
      var validReq := i.enable && !((validInflight && validWaiting) || stallType);
      var returnedReq := validReq && i.rvalid && !validInflight && !validWaiting;
      var returnedInflight := validInflight && i.rvalid && !validWaiting;
      var returnedWaiting := validWaiting && i.rvalid;
      queue := NextQueue(queue, apuLat, i);
      apuLat := if validReq then i.op.lat else apuLat;
      if validReq && i.gnt && !returnedReq {
        if (validInflight && !returnedInflight) || returnedWaiting {
          validWaiting, addrWaiting := true, addrInflight;
        }
        validInflight, addrInflight := true, i.op.addr;
      } else if returnedInflight {
        validInflight, validWaiting, addrInflight, addrWaiting := false, false, 0, 0;
      } else if returnedWaiting {
        validWaiting, addrWaiting := false, 0;
      }
    }
  }

  /** The address comparators of one kind of operand. */
  method AnyOf(regs: seq<Reg>, va: bool, a: nat, vb: bool, b: nat, vc: bool, c: nat) returns (dep: bool)
    ensures dep <==> Touches(regs, (if va then {a} else {}) + (if vb then {b} else {}) + (if vc then {c} else {}))
  {
    ghost var addrs := (if va then {a} else {}) + (if vb then {b} else {}) + (if vc then {c} else {});
    dep := false;
    for k := 0 to |regs|
      invariant dep <==> Touches(regs[..k], addrs)
    {
      assert regs[..k + 1] == regs[..k] + [regs[k]];
      if regs[k].valid && ((va && regs[k].addr == a) || (vb && regs[k].addr == b) || (vc && regs[k].addr == c)) {
        assert regs[..k + 1][k].valid && regs[..k + 1][k].addr in addrs;
        dep := true;
      } else if dep {
        TouchesLonger(regs[..k], regs[k], addrs);
      }
    }
    assert regs[..|regs|] == regs;
  }

  lemma TouchesLonger(regs: seq<Reg>, r: Reg, addrs: set<nat>)
    requires Touches(regs, addrs)
    ensures Touches(regs + [r], addrs)
  {
    var k :| 0 <= k < |regs| && regs[k].valid && regs[k].addr in addrs;
    assert (regs + [r])[k] == regs[k];
  }

  lemma SmallAddrSets(x: Op, y: Op)
    ensures AddrSet([]) == {} && AddrSet([x]) == {x.addr} && AddrSet([x, y]) == {x.addr, y.addr}
  {
    assert x in [x] && x in [x, y] && y in [x, y];
  }

  /** What stays in the queue, and what it may gain. */
  lemma NextQueueCases(q: seq<Op>, lat: nat, i: Inputs)
    requires |q| <= 2
    ensures
      var kept := if i.rvalid && |q| >= 1 then q[1..] else q;
      NextQueue(q, lat, i) == kept + if Accepts(q, lat, i) && !(i.rvalid && q == []) then [i.op] else []
  {
    var all := WithAccepted(q, lat, i);
    if |q| >= 1 {
      assert all[1..] == q[1..] + if Accepts(q, lat, i) then [i.op] else [];
    }
  }

  lemma AddrSetJoin(p: seq<Op>, q: seq<Op>)
    ensures AddrSet(p + q) == AddrSet(p) + AddrSet(q)
  {}

  /** The hazards, register by register. */
  lemma HazardsAre(q: seq<Op>, lat: nat, i: Inputs)
    requires |q| <= 2
    ensures
      var req := Requests(q, lat, i) && !(i.rvalid && q == []);
      Hazards(q, lat, i) ==
        (if req then {i.op.addr} else {}) +
        (if |q| >= 1 && !(i.rvalid && |q| == 1) then {q[|q| - 1].addr} else {}) +
        (if |q| == 2 && !i.rvalid then {q[0].addr} else {})
  {
    NextQueueCases(q, lat, i);
    var gained := if Accepts(q, lat, i) && !(i.rvalid && q == []) then [i.op] else [];
    AddrSetJoin(if i.rvalid && |q| >= 1 then q[1..] else q, gained);
    SmallAddrSets(i.op, i.op);
    KeptAddrs(q, i.rvalid);
  }

  lemma KeptAddrs(q: seq<Op>, rvalid: bool)
    requires |q| <= 2
    ensures AddrSet(if rvalid && |q| >= 1 then q[1..] else q) ==
      (if |q| >= 1 && !(rvalid && |q| == 1) then {q[|q| - 1].addr} else {}) +
      (if |q| == 2 && !rvalid then {q[0].addr} else {})
  {
    if |q| == 2 {
      SmallAddrSets(q[0], q[1]);
      SmallAddrSets(q[1], q[1]);
      assert q == [q[0], q[1]] && q[1..] == [q[1]];
    } else if |q| == 1 {
      SmallAddrSets(q[0], q[0]);
      assert q == [q[0]] && q[1..] == [];
    }
  }

  // Whole runs.

  datatype Core = Core(q: seq<Op>, lat: nat)

  function Step(c: Core, i: Inputs): (c': Core)
  {
    Core(NextQueue(c.q, c.lat, i), NextLat(c.q, c.lat, i))
  }

  function Run(c: Core, trace: seq<Inputs>): (c': Core)
  {
    if trace == [] then c else Step(Run(c, trace[..|trace| - 1]), trace[|trace| - 1])
  }

  /** The operations accepted during a run, in order. */
  function Accepted(c: Core, trace: seq<Inputs>): (ops: seq<Op>)
  {
    if trace == [] then []
    else
      var init, last := trace[..|trace| - 1], trace[|trace| - 1];
      var r := Run(c, init);
      Accepted(c, init) + if Accepts(r.q, r.lat, last) then [last.op] else []
  }

  /** The destinations shown with responses during a run, in order. */
  function Reported(c: Core, trace: seq<Inputs>): (addrs: seq<nat>)
  {
    if trace == [] then []
    else
      var init, last := trace[..|trace| - 1], trace[|trace| - 1];
      var r := Run(c, init);
      Reported(c, init) + if last.rvalid then [ReportedAddr(r.q, r.lat, last)] else []
  }

  /** Responses come only to accepted operations. */
  predicate Answers(c: Core, trace: seq<Inputs>)
  {
    trace == [] ||
    var init, last := trace[..|trace| - 1], trace[|trace| - 1];
    var r := Run(c, init);
    Answers(c, init) && (last.rvalid ==> WithAccepted(r.q, r.lat, last) != [])
  }

  function Addrs(ops: seq<Op>): (addrs: seq<nat>)
    ensures |addrs| == |ops| && forall k :: 0 <= k < |ops| ==> addrs[k] == ops[k].addr
  {
    seq(|ops|, k requires 0 <= k < |ops| => ops[k].addr)
  }

  /** In-order queue over a whole run: what was accepted is what was reported, oldest
      first and each once, followed by what is still outstanding, which is at most two. */
  lemma {:induction false} Conserved(trace: seq<Inputs>)
    requires Answers(Core([], 0), trace)
    ensures
      var c := Core([], 0);
      && Addrs(Accepted(c, trace)) == Reported(c, trace) + Addrs(Run(c, trace).q)
      && |Run(c, trace).q| <= 2
  {
    if trace != [] {
      Conserved(trace[..|trace| - 1]);
    }
  }

  /** Without that assumption on the responses, a cycle reports an operation that it
      also takes out, the oldest one, exactly when there is one. */
  predicate ReportsOldest(q: seq<Op>, lat: nat, i: Inputs)
  {
    var all := WithAccepted(q, lat, i);
    all != [] && ReportedAddr(q, lat, i) == all[0].addr && NextQueue(q, lat, i) == all[1..]
  }

  lemma ReportsOldestIff(q: seq<Op>, lat: nat, i: Inputs)
    requires i.rvalid
    ensures ReportsOldest(q, lat, i) <==> q != [] || (i.enable && i.gnt)
  {}

  /** The assertion in the source: a response needs a request or an outstanding
      operation. */
  predicate SourceAssertion(q: seq<Op>, lat: nat, i: Inputs)
  {
    i.rvalid ==> Requests(q, lat, i) || q != []
  }

  /** It is too weak: a response to a request that was not granted passes it, but
      shows the destination of an operation that was never accepted. */
  lemma AssertionTooWeak() returns (i: Inputs)
    ensures i.rvalid && SourceAssertion([], 0, i) && !ReportsOldest([], 0, i)
    ensures ReportedAddr([], 0, i) == i.op.addr && Accepted(Core([], 0), [i]) == []
  {
    i := Inputs(true, Op(7, 1), false, [], [], false, true);
    assert [i][..0] == [];
    assert Run(Core([], 0), []) == Core([], 0);
  }

  /** What it lacks is exactly the grant. */
  lemma AssertionGap(q: seq<Op>, lat: nat, i: Inputs)
    requires i.rvalid && |q| <= 2
    ensures SourceAssertion(q, lat, i) && !ReportsOldest(q, lat, i) <==> q == [] && i.enable && !i.gnt
  {}

  /** Cycle n of a run makes a request. */
  predicate RequestsAt(c: Core, trace: seq<Inputs>, n: nat)
  {
    n < |trace| && Requests(Run(c, trace[..n]).q, Run(c, trace[..n]).lat, trace[n])
  }

  /** The stored latency class is that of the latest request, granted or not. */
  lemma {:induction false} StoredIsLatest(c: Core, trace: seq<Inputs>, n: nat)
    requires RequestsAt(c, trace, n) && forall k :: n < k < |trace| ==> !RequestsAt(c, trace, k)
    ensures Run(c, trace).lat == trace[n].op.lat
    decreases |trace|
  {
    var m := |trace| - 1;
    var init := trace[..m];
    if n < m {
      assert init[..n] == trace[..n];
      forall k | n < k < m ensures !RequestsAt(c, init, k) {
        assert init[..k] == trace[..k];
        assert !RequestsAt(c, trace, k);
      }
      StoredIsLatest(c, init, n);
      assert !RequestsAt(c, trace, m);
    }
  }

  // Latencies: why the type conflict stalls.

  predicate DecodedLatencies(trace: seq<Inputs>)
  {
    forall k :: 0 <= k < |trace| && trace[k].enable ==> 1 <= trace[k].op.lat <= 3
  }

  /** The stored latency bounds those of all outstanding operations. */
  predicate Bounded(c: Core)
  {
    c.lat <= 3 && forall op :: op in c.q ==> op.lat <= c.lat
  }

  lemma {:induction false} AlwaysBounded(trace: seq<Inputs>)
    requires DecodedLatencies(trace)
    ensures Bounded(Run(Core([], 0), trace))
  {
    if trace != [] {
      var init, i := trace[..|trace| - 1], trace[|trace| - 1];
      AlwaysBounded(init);
      BoundKept(Run(Core([], 0), init), i);
    }
  }

  lemma BoundKept(c: Core, i: Inputs)
    requires Bounded(c) && (i.enable ==> 1 <= i.op.lat <= 3)
    ensures Bounded(Step(c, i))
  {
    var all := WithAccepted(c.q, c.lat, i);
    assert forall op :: op in Step(c, i).q ==> op in all;
    assert forall op :: op in all ==> op in c.q || op == i.op;
  }

  /** An operation is never accepted behind one with a longer latency. */
  lemma NeverShorter(trace: seq<Inputs>, i: Inputs)
    requires DecodedLatencies(trace) && (i.enable ==> 1 <= i.op.lat <= 3)
    ensures
      var c := Run(Core([], 0), trace);
      Accepts(c.q, c.lat, i) ==> forall op :: op in c.q ==> op.lat <= i.op.lat
  {
    AlwaysBounded(trace);
  }

  /** A run with the number of cycles that each outstanding operation has taken, and
      with the set of those, by position, that the unit completes in a cycle. */
  datatype Timed = Timed(c: Core, ages: seq<nat>)

  datatype Tick = Tick(i: Inputs, done: set<nat>)

  function AgesWithAccepted(t: Timed, i: Inputs): (ages: seq<nat>)
  {
    t.ages + if Accepts(t.c.q, t.c.lat, i) then [0] else []
  }

  function Older(ages: seq<nat>): (older: seq<nat>)
    ensures |older| == |ages| && forall k :: 0 <= k < |ages| ==> older[k] == ages[k] + 1
  {
    seq(|ages|, k requires 0 <= k < |ages| => ages[k] + 1)
  }

  function TimedStep(t: Timed, i: Inputs): (t': Timed)
  {
    var ages := AgesWithAccepted(t, i);
    Timed(Step(t.c, i), Older(if i.rvalid && ages != [] then ages[1..] else ages))
  }

  /** A unit with the declared latencies: class 1 answers in the cycle of the request,
      class 2 in the next cycle, class 3 in any later one. */
  predicate Punctual(t: Timed, tick: Tick)
  {
    var all, ages := WithAccepted(t.c.q, t.c.lat, tick.i), AgesWithAccepted(t, tick.i);
    && |all| == |ages|
    && (tick.i.enable ==> 1 <= tick.i.op.lat <= 3)
    && (tick.i.rvalid <==> tick.done != {})
    && (forall k :: k in tick.done ==> k < |all|)
    && (forall k :: 0 <= k < |all| ==>
          && (all[k].lat == 1 ==> (k in tick.done <==> ages[k] == 0))
          && (all[k].lat == 2 ==> (k in tick.done <==> ages[k] == 1))
          && (all[k].lat == 3 && k in tick.done ==> ages[k] >= 2))
  }

  function TimedRun(ticks: seq<Tick>): (t: Timed)
  {
    if ticks == [] then Timed(Core([], 0), [])
    else TimedStep(TimedRun(ticks[..|ticks| - 1]), ticks[|ticks| - 1].i)
  }

  predicate PunctualRun(ticks: seq<Tick>)
  {
    ticks == [] || (PunctualRun(ticks[..|ticks| - 1]) && Punctual(TimedRun(ticks[..|ticks| - 1]), ticks[|ticks| - 1]))
  }

  /** At most one operation is outstanding between cycles: one of class 2 that is due
      now, or one of class 3 with its class stored. */
  predicate Calm(t: Timed)
  {
    && t.c.lat <= 3 && |t.c.q| == |t.ages| <= 1
    && (t.c.q != [] ==>
          || (t.c.q[0].lat == 2 && t.ages[0] == 1 && t.c.lat <= 2)
          || (t.c.q[0].lat == 3 && t.c.lat == 3))
  }

  lemma CalmKept(t: Timed, tick: Tick)
    requires Calm(t) && Punctual(t, tick)
    ensures Calm(TimedStep(t, tick.i)) && tick.done <= {0}
  {
    var all := WithAccepted(t.c.q, t.c.lat, tick.i);
    if |all| == 2 {
      assert all[0].lat == 2 && 0 in tick.done && all[1] == tick.i.op && all[1].lat == 2;
    } else if all != [] {
      assert all[0].lat == 1 ==> 0 in tick.done;
    }
  }

  lemma {:induction false} AlwaysCalm(ticks: seq<Tick>)
    requires PunctualRun(ticks)
    ensures Calm(TimedRun(ticks))
  {
    if ticks != [] {
      AlwaysCalm(ticks[..|ticks| - 1]);
      CalmKept(TimedRun(ticks[..|ticks| - 1]), ticks[|ticks| - 1]);
    }
  }

  /** A unit that keeps its latencies takes t cycles for an operation of some class. */
  predicate Takes(lat: nat, t: nat)
  {
    (lat == 1 && t == 0) || (lat == 2 && t == 1) || (lat == 3 && t >= 2)
  }

  /** Accepted d cycles apart, the second operation may complete before the first, or
      in the same cycle, while the first is still outstanding when the second comes. */
  predicate Overtakes(first: nat, second: nat, d: nat, s: nat, t: nat)
  {
    d >= 1 && Takes(first, s) && Takes(second, t) && d <= s && d + t <= s
  }

  ghost predicate CanOvertake(first: nat, second: nat)
  {
    exists d: nat, s: nat, t: nat :: Overtakes(first, second, d, s, t)
  }

  lemma CanOvertakeIff(first: nat, second: nat)
    requires 2 <= first <= 3 && 1 <= second <= 3
    ensures CanOvertake(first, second) <==> first == 3 || second == 1
  {
    if first == 3 {
      assert Overtakes(first, second, 1, 4, if second == 1 then 0 else if second == 2 then 1 else 2);
    } else if second == 1 {
      assert Overtakes(first, second, 1, 1, 0);
    }
  }

  /** The type stall: an operation is held back behind an outstanding one exactly if it
      could overtake it, or is of class 3, which the source holds back behind class 2 as
      well, although it could not overtake it. */
  lemma TypeStallIff(ticks: seq<Tick>, i: Inputs)
    requires PunctualRun(ticks) && 1 <= i.op.lat <= 3 && i.enable
    ensures
      var c := TimedRun(ticks).c;
      Requests(c.q, c.lat, i) <==> c.q == [] || (|c.q| == 1 && !CanOvertake(c.q[0].lat, i.op.lat) && i.op.lat != 3)
    ensures !CanOvertake(2, 3)
  {
    AlwaysCalm(ticks);
    var c := TimedRun(ticks).c;
    CanOvertakeIff(2, 3);
    if c.q != [] {
      CanOvertakeIff(c.q[0].lat, i.op.lat);
    }
  }

  /** No overtaking: with a unit that keeps its latencies, no two operations ever
      complete in one cycle and the one that completes is the oldest, so the response
      is shown with its own destination. */
  lemma NoOvertaking(ticks: seq<Tick>, tick: Tick)
    ensures PunctualRun(ticks) && Punctual(TimedRun(ticks), tick) && tick.i.rvalid ==>
      var c := TimedRun(ticks).c;
      && tick.done == {0}
      && WithAccepted(c.q, c.lat, tick.i) != []
      && ReportedAddr(c.q, c.lat, tick.i) == WithAccepted(c.q, c.lat, tick.i)[0].addr
  {
    if PunctualRun(ticks) && Punctual(TimedRun(ticks), tick) {
      AlwaysCalm(ticks);
      CalmKept(TimedRun(ticks), tick);
    }
  }
}
