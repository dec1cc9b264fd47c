/** The ALU's vector shifter: right shifts on lanes, and left shifts done by
    reversing the bits of the operand and of the result. */
module PartitionedShifter {
  import opened Bits
  import opened PartitionedAdder

  /** 32 bits, least significant first. */
  predicate Word32(w: seq<bool>)
  {
    |w| == 32
  }

  function LaneBits(mode: Mode): (n: nat)
    ensures 8 <= n <= 32
  {
    match mode
    case Mode8 => 8
    case Mode16 => 16
    case Mode32 => 32
  }

  function BitLane(mode: Mode, w: seq<bool>, j: nat): (lane: seq<bool>)
    requires Word32(w) && (j + 1) * LaneBits(mode) <= 32
    ensures |lane| == LaneBits(mode)
  {
    match mode
    case Mode8 => w[8 * j..8 * j + 8]
    case Mode16 => w[16 * j..16 * j + 16]
    case Mode32 => w
  }

  /** The lane seen from the other end of the word. */
  function Opposite(mode: Mode, j: nat): (j': nat)
    requires (j + 1) * LaneBits(mode) <= 32
    ensures (j' + 1) * LaneBits(mode) <= 32
  {
    match mode
    case Mode8 => 3 - j
    case Mode16 => 1 - j
    case Mode32 => 0
  }

  /** Only the low bits of a lane of the amount count: as many as the width needs. */
  function Amount(mode: Mode, amt: seq<bool>, j: nat): (n: nat)
    requires Word32(amt) && (j + 1) * LaneBits(mode) <= 32
  {
    ToNat(BitLane(mode, amt, j)[..match mode case Mode8 => 3 case Mode16 => 4 case Mode32 => 5])
  }

  lemma AmountBound(mode: Mode, amt: seq<bool>, j: nat)
    requires Word32(amt) && (j + 1) * LaneBits(mode) <= 32
    ensures Amount(mode, amt, j) < LaneBits(mode)
  {
    var k := match mode case Mode8 => 3 case Mode16 => 4 case Mode32 => 5;
    ToNatBound(BitLane(mode, amt, j)[..k]);
    assert Pow2(3) == 8 && Pow2(4) == 16 && Pow2(5) == 32;
  }

  /** The amount counts modulo the lane size. */
  lemma AmountWraps(mode: Mode, amt: seq<bool>, j: nat)
    requires Word32(amt) && (j + 1) * LaneBits(mode) <= 32
    ensures Amount(mode, amt, j) == ToNat(BitLane(mode, amt, j)) % LaneBits(mode) < LaneBits(mode)
  {
    AmountBound(mode, amt, j);
    var lane := BitLane(mode, amt, j);
    assert Pow2(3) == 8 && Pow2(4) == 16 && Pow2(5) == 32;
    match mode
    case Mode8 => LaneParts(lane, 3);
      Wraps8(ToNat(lane), ToNat(lane[3..]), ToNat(lane[..3]));
    case Mode16 => LaneParts(lane, 4);
      Wraps16(ToNat(lane), ToNat(lane[4..]), ToNat(lane[..4]));
    case Mode32 => LaneParts(lane, 5);
      Wraps32(ToNat(lane), ToNat(lane[5..]), ToNat(lane[..5]));
  }

  lemma Wraps8(v: nat, hi: nat, lo: nat)
    requires v == 8 * hi + lo && lo < 8
    ensures v % 8 == lo
  {}

  lemma Wraps16(v: nat, hi: nat, lo: nat)
    requires v == 16 * hi + lo && lo < 16
    ensures v % 16 == lo
  {}

  lemma Wraps32(v: nat, hi: nat, lo: nat)
    requires v == 32 * hi + lo && lo < 32
    ensures v % 32 == lo
  {}

  /** Bit t of lane j, counted in the word. */
  lemma LaneBit(mode: Mode, w: seq<bool>, j: nat, t: nat)
    requires Word32(w) && (j + 1) * LaneBits(mode) <= 32 && t < LaneBits(mode)
    ensures mode == Mode8 ==> BitLane(mode, w, j)[t] == w[8 * j + t]
    ensures mode == Mode16 ==> BitLane(mode, w, j)[t] == w[16 * j + t]
    ensures mode == Mode32 ==> BitLane(mode, w, j)[t] == w[t]
  {}

  /** One lane shifted right, filled with zeros or with its sign. */
  function RightLane(lane: seq<bool>, n: nat, arithmetic: bool): (r: seq<bool>)
    requires lane != [] && n <= |lane|
    ensures |r| == |lane|
  {
    lane[n..] + Fill(n, arithmetic && lane[|lane| - 1])
  }

  function ShiftedLane(mode: Mode, op: seq<bool>, amt: seq<bool>, arithmetic: bool, j: nat): (r: seq<bool>)
    requires Word32(op) && Word32(amt) && (j + 1) * LaneBits(mode) <= 32
    ensures |r| == LaneBits(mode)
  {
    AmountBound(mode, amt, j);
    RightLane(BitLane(mode, op, j), Amount(mode, amt, j), arithmetic)
  }

  /** shift_right_result. */
  function ShiftRightResult(mode: Mode, op: seq<bool>, amt: seq<bool>, arithmetic: bool): (r: seq<bool>)
    requires Word32(op) && Word32(amt)
    ensures Word32(r)
  {
    match mode
    case Mode8 => ShiftedLane(mode, op, amt, arithmetic, 0) + ShiftedLane(mode, op, amt, arithmetic, 1) +
                  ShiftedLane(mode, op, amt, arithmetic, 2) + ShiftedLane(mode, op, amt, arithmetic, 3)
    case Mode16 => ShiftedLane(mode, op, amt, arithmetic, 0) + ShiftedLane(mode, op, amt, arithmetic, 1)
    case Mode32 => ShiftedLane(mode, op, amt, arithmetic, 0)
  }

  /** shift_amt_left: the amounts in the opposite order of lanes. */
  function ShiftAmtLeft(mode: Mode, amt: seq<bool>): (r: seq<bool>)
    requires Word32(amt)
    ensures Word32(r)
  {
    match mode
    case Mode8 => amt[24..32] + amt[16..24] + amt[8..16] + amt[0..8]
    case Mode16 => amt[16..32] + amt[0..16]
    case Mode32 => amt
  }

  /** shift_left_result. */
  function ShiftLeftResult(mode: Mode, a: seq<bool>, amt: seq<bool>): (r: seq<bool>)
    requires Word32(a) && Word32(amt)
    ensures Word32(r)
  {
    Reverse(ShiftRightResult(mode, Reverse(a), ShiftAmtLeft(mode, amt), false))
  }

  lemma RightLanes(mode: Mode, op: seq<bool>, amt: seq<bool>, arithmetic: bool, j: nat)
    requires Word32(op) && Word32(amt) && (j + 1) * LaneBits(mode) <= 32
    ensures BitLane(mode, ShiftRightResult(mode, op, amt, arithmetic), j) == ShiftedLane(mode, op, amt, arithmetic, j)
  {
    match mode
    case Mode8 =>
      Quarters(ShiftedLane(mode, op, amt, arithmetic, 0), ShiftedLane(mode, op, amt, arithmetic, 1),
               ShiftedLane(mode, op, amt, arithmetic, 2), ShiftedLane(mode, op, amt, arithmetic, 3));
      assert j == 0 || j == 1 || j == 2 || j == 3;
    case Mode16 =>
      HalvesOf(ShiftedLane(mode, op, amt, arithmetic, 0), ShiftedLane(mode, op, amt, arithmetic, 1));
      assert j == 0 || j == 1;
    case Mode32 =>
      assert j == 0;
  }

  lemma HalvesOf(a: seq<bool>, b: seq<bool>)
    requires |a| == |b| == 16
    ensures
      var w := a + b;
      w[0..16] == a && w[16..32] == b
  {}

  lemma Quarters(a: seq<bool>, b: seq<bool>, c: seq<bool>, d: seq<bool>)
    requires |a| == |b| == |c| == |d| == 8
    ensures
      var w := a + b + c + d;
      w[0..8] == a && w[8..16] == b && w[16..24] == c && w[24..32] == d
  {}

  lemma AmountLanes(mode: Mode, amt: seq<bool>, j: nat)
    requires Word32(amt) && (j + 1) * LaneBits(mode) <= 32
    ensures BitLane(mode, ShiftAmtLeft(mode, amt), Opposite(mode, j)) == BitLane(mode, amt, j)
  {
    match mode
    case Mode8 =>
      Quarters(amt[24..32], amt[16..24], amt[8..16], amt[0..8]);
      assert j == 0 || j == 1 || j == 2 || j == 3;
    case Mode16 =>
      HalvesOf(amt[16..32], amt[0..16]);
      assert j == 0 || j == 1;
    case Mode32 =>
      assert j == 0;
  }

  /** Reversing a word reverses its lanes and their order. */
  lemma ReversedLanes(mode: Mode, w: seq<bool>, j: nat)
    requires Word32(w) && (j + 1) * LaneBits(mode) <= 32
    ensures BitLane(mode, Reverse(w), j) == Reverse(BitLane(mode, w, Opposite(mode, j)))
  {}

  /** The left shift: for all operands and modes, each lane of the result is the lane
      of the operand moved up by the amount in the same lane of the second operand,
      modulo the lane size. */
  lemma LeftShiftIsLaneWise(mode: Mode, a: seq<bool>, amt: seq<bool>, j: nat)
    requires Word32(a) && Word32(amt) && (j + 1) * LaneBits(mode) <= 32
    ensures
      var lane, n := BitLane(mode, a, j), ToNat(BitLane(mode, amt, j)) % LaneBits(mode);
      n < LaneBits(mode) && BitLane(mode, ShiftLeftResult(mode, a, amt), j) == Fill(n, false) + lane[..|lane| - n]
  {
    AmountWraps(mode, amt, j);
    var k := Opposite(mode, j);
    var lane, n := BitLane(mode, a, j), Amount(mode, amt, j);
    AmountBound(mode, amt, j);
    ReversedLanes(mode, ShiftRightResult(mode, Reverse(a), ShiftAmtLeft(mode, amt), false), j);
    RightLanes(mode, Reverse(a), ShiftAmtLeft(mode, amt), false, k);
    AmountLanes(mode, amt, j);
    ReversedLanes(mode, a, k);
    assert Opposite(mode, k) == j;
    LaneReverses(lane, n);
  }

  lemma LaneReverses(lane: seq<bool>, n: nat)
    requires lane != [] && n <= |lane|
    ensures Reverse(RightLane(Reverse(lane), n, false)) == Fill(n, false) + lane[..|lane| - n]
  {}

  /** In numbers: the operand times a power of two, modulo the lane size. */
  lemma LeftShiftMultiplies(mode: Mode, a: seq<bool>, amt: seq<bool>, j: nat)
    requires Word32(a) && Word32(amt) && (j + 1) * LaneBits(mode) <= 32
    ensures
      var lane, n, w := BitLane(mode, a, j), ToNat(BitLane(mode, amt, j)) % LaneBits(mode), LaneBits(mode);
      var r := ToNat(BitLane(mode, ShiftLeftResult(mode, a, amt), j));
      && n < w && r < Pow2(w)
      && Pow2(n) * ToNat(lane) == r + Pow2(w) * ToNat(lane[w - n..])
  {
    AmountWraps(mode, amt, j);
    LeftShiftIsLaneWise(mode, a, amt, j);
    ToNatBound(BitLane(mode, ShiftLeftResult(mode, a, amt), j));
    MovedUp(BitLane(mode, a, j), Amount(mode, amt, j));
  }

  lemma MovedUp(lane: seq<bool>, n: nat)
    requires n <= |lane|
    ensures Pow2(n) * ToNat(lane) ==
      ToNat(Fill(n, false) + lane[..|lane| - n]) + Pow2(|lane|) * ToNat(lane[|lane| - n..])
  {
    var m := |lane| - n;
    var x, y, v := ToNat(lane[..m]), ToNat(lane[m..]), ToNat(lane);
    LaneParts(lane, m);
    ShiftedUp(lane[..m], n);
    SplitPower(n, m, |lane|);
    Distribute(Pow2(n), x, Pow2(m), y, v, Pow2(|lane|));
  }

  lemma SplitPower(n: nat, m: nat, w: nat)
    requires n + m == w
    ensures Pow2(w) == Pow2(n) * Pow2(m)
  {
    Pow2Add(n, m);
  }

  lemma ShiftedUp(lo: seq<bool>, n: nat)
    ensures ToNat(Fill(n, false) + lo) == Pow2(n) * ToNat(lo)
  {
    ToNatConcat(Fill(n, false), lo);
    ToNatFill(n, false);
  }

  lemma Distribute(p: int, x: int, q: int, y: int, v: int, m: int)
    requires v == x + q * y && m == p * q
    ensures p * v == p * x + m * y
  {
    assert p * (q * y) == p * q * y;
  }

  /** A lane as a two's complement number. */
  function Signed(s: seq<bool>): (v: int)
    requires s != []
  {
    ToNat(s) - if s[|s| - 1] then Pow2(|s|) else 0
  }

  /** r is lane divided by a power of two and rounded down, with a sign or without. */
  ghost predicate Divides(lane: seq<bool>, r: seq<bool>, n: nat, signed: bool)
    requires lane != [] && r != [] && n <= |lane|
  {
    if signed then Signed(lane) == Pow2(n) * Signed(r) + ToNat(lane[..n])
    else ToNat(lane) == Pow2(n) * ToNat(r) + ToNat(lane[..n])
  }

  /** The right shift: for all operands and modes, each lane of the result is the
      quotient, rounded down, of the lane by a power of two, for the logical shift
      without and for the arithmetic shift with a sign. */
  lemma RightShiftDivides(mode: Mode, a: seq<bool>, amt: seq<bool>, arithmetic: bool, j: nat)
    requires Word32(a) && Word32(amt) && (j + 1) * LaneBits(mode) <= 32
    ensures
      var lane, n := BitLane(mode, a, j), ToNat(BitLane(mode, amt, j)) % LaneBits(mode);
      var r := BitLane(mode, ShiftRightResult(mode, a, amt, arithmetic), j);
      n < LaneBits(mode) && ToNat(lane[..n]) < Pow2(n) && Divides(lane, r, n, arithmetic)
  {
    AmountWraps(mode, amt, j);
    var lane, n := BitLane(mode, a, j), Amount(mode, amt, j);
    AmountBound(mode, amt, j);
    RightLanes(mode, a, amt, arithmetic, j);
    ToNatBound(lane[..n]);
    MovedDown(lane, n, arithmetic);
  }

  lemma MovedDown(lane: seq<bool>, n: nat, arithmetic: bool)
    requires lane != [] && n < |lane|
    ensures Divides(lane, RightLane(lane, n, arithmetic), n, arithmetic)
  {
    if arithmetic && lane[|lane| - 1] {
      NegativeDown(lane, n);
    } else {
      PositiveDown(lane, n, arithmetic);
    }
  }

  lemma PositiveDown(lane: seq<bool>, n: nat, arithmetic: bool)
    requires lane != [] && n < |lane| && !(arithmetic && lane[|lane| - 1])
    ensures Divides(lane, RightLane(lane, n, arithmetic), n, arithmetic)
  {
    LaneParts(lane, n);
    FilledUp(lane[n..], n, false);
    var r := RightLane(lane, n, arithmetic);
    assert r == lane[n..] + Fill(n, false);
    assert n > 0 ==> !r[|r| - 1];
    assert n == 0 ==> r == lane;
  }

  lemma LaneParts(lane: seq<bool>, n: nat)
    requires n <= |lane|
    ensures ToNat(lane) == Pow2(n) * ToNat(lane[n..]) + ToNat(lane[..n])
  {
    assert lane == lane[..n] + lane[n..];
    ToNatConcat(lane[..n], lane[n..]);
  }

  lemma FilledUp(hi: seq<bool>, n: nat, sign: bool)
    ensures ToNat(hi + Fill(n, sign)) == ToNat(hi) + if sign then Pow2(|hi|) * (Pow2(n) - 1) else 0
  {
    ToNatConcat(hi, Fill(n, sign));
    ToNatFill(n, sign);
  }

  lemma NegativeDown(lane: seq<bool>, n: nat)
    requires lane != [] && n < |lane| && lane[|lane| - 1]
    ensures Divides(lane, RightLane(lane, n, true), n, true)
  {
    LaneParts(lane, n);
    FilledUp(lane[n..], n, true);
    Pow2Add(n, |lane| - n);
    Telescope(Pow2(n), Pow2(|lane| - n), ToNat(lane[n..]), ToNat(RightLane(lane, n, true)), Pow2(|lane|));
  }

  lemma Telescope(p: int, q: int, x: int, r: int, m: int)
    requires r == x + q * (p - 1) && m == p * q
    ensures p * (r - m) == p * x - m
  {
    assert r - m == x - q;
  }
}
