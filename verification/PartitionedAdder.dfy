/** The ALU's vector adder and comparators: one wide adder with spacer bits between
    the bytes, and byte comparators, against arithmetic on lanes of 8, 16 or 32 bits.
    A word is its list of bytes, least significant first. */
module PartitionedAdder {

  datatype Mode = Mode8 | Mode16 | Mode32

  predicate Bytes(s: seq<nat>)
  {
    forall i :: 0 <= i < |s| ==> s[i] < 256
  }

  function Pow256(n: nat): (p: nat)
    ensures p >= 1
  {
    if n == 0 then 1 else 256 * Pow256(n - 1)
  }

  function Value(s: seq<nat>): (v: nat)
  {
    if s == [] then 0 else s[0] + 256 * Value(s[1..])
  }

  function Complement(s: seq<nat>): (r: seq<nat>)
    requires Bytes(s)
    ensures |r| == |s| && Bytes(r)
  {
    seq(|s|, i requires 0 <= i < |s| => 255 - s[i])
  }

  // The adder.

  /** An adder input: below each byte lies a spacer bit. */
  function Expanded(bytes: seq<nat>, spacers: seq<bool>): (v: nat)
    requires |bytes| == |spacers|
  {
    if bytes == [] then 0
    else (if spacers[0] then 1 else 0) + 2 * bytes[0] + 512 * Expanded(bytes[1..], spacers[1..])
  }

  /** Bits 8..1, 17..10, 26..19 and so on of the sum. */
  function Extracted(sum: nat, n: nat): (r: seq<nat>)
    ensures |r| == n
  {
    if n == 0 then [] else [sum / 2 % 256] + Extracted(sum / 512, n - 1)
  }

  /** Byte-wise addition with the carry into each byte: a spacer sum of 1 lets the
      carry of the byte below pass, 0 stops it and 2 makes one. */
  function Rippled(a: seq<nat>, b: seq<nat>, spacers: seq<nat>, carry: nat): (r: seq<nat>)
    requires |a| == |b| == |spacers|
    ensures |r| == |a|
  {
    if a == [] then []
    else
      var k := CarryIn(spacers[0], carry);
      [SumByte(a[0], b[0], k)] + Rippled(a[1..], b[1..], spacers[1..], SumCarry(a[0], b[0], k))
  }

  function SumByte(x: nat, y: nat, k: nat): (r: nat)
    ensures r < 256
  {
    (x + y + k) % 256
  }

  function SumCarry(x: nat, y: nat, k: nat): (c: nat)
  {
    (x + y + k) / 256
  }

  function CarryIn(spacer: nat, carry: nat): (k: nat)
  {
    if spacer == 0 then 0 else if spacer == 1 then carry else 1
  }

  lemma Digit(p: nat, x: nat, y: nat, carry: nat, rest: nat, sum: nat)
    requires p <= 2 && x < 256 && y < 256 && carry <= 1 && sum == p + 2 * (x + y) + carry + 512 * rest
    ensures
      var k := CarryIn(p, carry);
      sum / 2 % 256 == SumByte(x, y, k) && sum / 512 == rest + SumCarry(x, y, k) && SumCarry(x, y, k) <= 1
  {
    Halved(sum, x + y + CarryIn(p, carry), if p == 1 then 1 - carry else carry, rest);
  }

  lemma Halved(sum: nat, t: nat, r: nat, rest: nat)
    requires r <= 1 && t < 512 && sum == 2 * t + r + 512 * rest
    ensures sum / 2 == t + 256 * rest && sum / 2 % 256 == t % 256 && sum / 512 == rest + t / 256
  {}

  /** The carry out of a rippled addition. */
  function CarryOut(a: seq<nat>, b: seq<nat>, spacers: seq<nat>, carry: nat): (c: nat)
    requires |a| == |b| == |spacers|
  {
    if a == [] then carry
    else CarryOut(a[1..], b[1..], spacers[1..], SumCarry(a[0], b[0], CarryIn(spacers[0], carry)))
  }

  /** A rippled addition once the carry into its lowest byte is known. */
  function RippledFrom(a: seq<nat>, b: seq<nat>, spacers: seq<nat>, k: nat): (r: seq<nat>)
    requires |a| == |b| == |spacers| + 1
  {
    [SumByte(a[0], b[0], k)] + Rippled(a[1..], b[1..], spacers, SumCarry(a[0], b[0], k))
  }

  function CarryFrom(a: seq<nat>, b: seq<nat>, spacers: seq<nat>, k: nat): (c: nat)
    requires |a| == |b| == |spacers| + 1
  {
    CarryOut(a[1..], b[1..], spacers, SumCarry(a[0], b[0], k))
  }

  lemma RippledNext(a: seq<nat>, b: seq<nat>, s: seq<nat>, carry: nat)
    requires |a| == |b| == |s| >= 1
    ensures Rippled(a, b, s, carry) == RippledFrom(a, b, s[1..], CarryIn(s[0], carry))
    ensures CarryOut(a, b, s, carry) == CarryFrom(a, b, s[1..], CarryIn(s[0], carry))
  {}

  /** A rippled addition falls into two. */
  ghost predicate Splits(a: seq<nat>, b: seq<nat>, s: seq<nat>, a': seq<nat>, b': seq<nat>, s': seq<nat>, carry: nat)
    requires |a| == |b| == |s| && |a'| == |b'| == |s'|
  {
    Rippled(a + a', b + b', s + s', carry) == Rippled(a, b, s, carry) + Rippled(a', b', s', CarryOut(a, b, s, carry))
  }

  lemma SplitsNext(a: seq<nat>, b: seq<nat>, s: seq<nat>, a': seq<nat>, b': seq<nat>, s': seq<nat>, carry: nat)
    requires |a| == |b| == |s| >= 1 && |a'| == |b'| == |s'|
    requires Splits(a[1..], b[1..], s[1..], a', b', s', SumCarry(a[0], b[0], CarryIn(s[0], carry)))
    ensures Splits(a, b, s, a', b', s', carry)
  {
    RippledNext(a, b, s, carry);
    RippledNext(a + a', b + b', s + s', carry);
    assert (a + a')[1..] == a[1..] + a' && (b + b')[1..] == b[1..] + b' && (s + s')[1..] == s[1..] + s';
  }

  lemma {:induction false} RippledConcat(a: seq<nat>, b: seq<nat>, s: seq<nat>, a': seq<nat>, b': seq<nat>, s': seq<nat>, carry: nat)
    requires |a| == |b| == |s| && |a'| == |b'| == |s'|
    ensures Splits(a, b, s, a', b', s', carry)
  {
    if a == [] {
      assert a + a' == a' && b + b' == b' && s + s' == s';
    } else {
      RippledConcat(a[1..], b[1..], s[1..], a', b', s', SumCarry(a[0], b[0], CarryIn(s[0], carry)));
      SplitsNext(a, b, s, a', b', s', carry);
    }
  }

  predicate Passing(spacers: seq<nat>)
  {
    forall i :: 0 <= i < |spacers| ==> spacers[i] == 1
  }

  /** Within a lane the carries make one long addition. */
  lemma {:induction false} LaneAddition(a: seq<nat>, b: seq<nat>, spacers: seq<nat>, carry: nat)
    requires |a| == |b| == |spacers| && Bytes(a) && Bytes(b) && carry <= 1 && Passing(spacers)
    ensures Bytes(Rippled(a, b, spacers, carry)) && CarryOut(a, b, spacers, carry) <= 1
    ensures Value(Rippled(a, b, spacers, carry)) + Pow256(|a|) * CarryOut(a, b, spacers, carry) == Value(a) + Value(b) + carry
  {
    if a != [] {
      var t := SumCarry(a[0], b[0], carry);
      LaneStep(a[0], b[0], carry, 0, 0, 1, 0, 0);
      LaneAddition(a[1..], b[1..], spacers[1..], t);
      var r, c := Rippled(a[1..], b[1..], spacers[1..], t), CarryOut(a[1..], b[1..], spacers[1..], t);
      LaneStep(a[0], b[0], carry, Value(r), c, Pow256(|a| - 1), Value(a[1..]), Value(b[1..]));
      ValueNext(SumByte(a[0], b[0], carry), r);
      assert Rippled(a, b, spacers, carry) == [SumByte(a[0], b[0], carry)] + r;
    }
  }

  lemma ValueNext(x: nat, rest: seq<nat>)
    ensures Value([x] + rest) == x + 256 * Value(rest)
  {
    assert ([x] + rest)[1..] == rest;
  }

  /** The arithmetic of one byte of a long addition. */
  lemma LaneStep(x: nat, y: nat, carry: nat, r: nat, c: nat, p: nat, v: nat, w: nat)
    requires x < 256 && y < 256 && carry <= 1
    ensures SumCarry(x, y, carry) <= 1
    ensures r + p * c == v + w + SumCarry(x, y, carry) ==>
      (SumByte(x, y, carry) + 256 * r) + (256 * p) * c == (x + 256 * v) + (y + 256 * w) + carry
  {
    assert (256 * p) * c == 256 * (p * c);
    assert SumByte(x, y, carry) + 256 * SumCarry(x, y, carry) == x + y + carry;
  }

  lemma {:induction false} ValueBound(s: seq<nat>)
    requires Bytes(s)
    ensures Value(s) < Pow256(|s|)
  {
    if s != [] {
      ValueBound(s[1..]);
    }
  }

  lemma {:induction false} ValueComplement(s: seq<nat>)
    requires Bytes(s)
    ensures Value(Complement(s)) == Pow256(|s|) - 1 - Value(s)
  {
    if s != [] {
      ValueComplement(s[1..]);
      assert Complement(s)[1..] == Complement(s[1..]);
    }
  }

  lemma ExtractedNext(sum: nat, n: nat)
    requires n >= 1
    ensures Extracted(sum, n) == [sum / 2 % 256] + Extracted(sum / 512, n - 1)
  {}

  lemma ExpandedNext(bytes: seq<nat>, spacers: seq<bool>)
    requires |bytes| == |spacers| >= 1
    ensures Expanded(bytes, spacers) == (if spacers[0] then 1 else 0) + 2 * bytes[0] + 512 * Expanded(bytes[1..], spacers[1..])
  {}

  /** p holds the sums of the two spacers below each byte. */
  predicate SumsTo(s: seq<bool>, t: seq<bool>, p: seq<nat>)
  {
    |s| == |t| == |p| && forall i :: 0 <= i < |s| ==> p[i] == (if s[i] then 1 else 0) + (if t[i] then 1 else 0)
  }

  /** The single wide addition ripples through the bytes. */
  lemma {:induction false} WideAdditionRipples(a: seq<nat>, b: seq<nat>, s: seq<bool>, t: seq<bool>, p: seq<nat>, carry: nat)
    requires |a| == |b| == |s| && SumsTo(s, t, p) && Bytes(a) && Bytes(b) && carry <= 1
    ensures Ripples(Expanded(a, s) + Expanded(b, t) + carry, a, b, p, carry)
  {
    if a != [] {
      var k := CarryIn(p[0], carry);
      var rest := Expanded(a[1..], s[1..]) + Expanded(b[1..], t[1..]);
      WideStep(a, b, s, t, p[0], carry, rest, Expanded(a, s) + Expanded(b, t) + carry);
      Tails(a, b, s, t, p);
      WideAdditionRipples(a[1..], b[1..], s[1..], t[1..], p[1..], SumCarry(a[0], b[0], k));
      JoinRipples(a, b, p, carry, rest + SumCarry(a[0], b[0], k), Expanded(a, s) + Expanded(b, t) + carry);
    }
  }

  /** The bytes of a sum are those of a rippled addition. */
  ghost predicate Ripples(sum: nat, a: seq<nat>, b: seq<nat>, p: seq<nat>, carry: nat)
    requires |a| == |b| == |p|
  {
    Extracted(sum, |a|) == Rippled(a, b, p, carry)
  }

  lemma JoinRipples(a: seq<nat>, b: seq<nat>, p: seq<nat>, carry: nat, high: nat, sum: nat)
    requires |a| == |b| == |p| >= 1
    requires Extracted(sum, |a|) == [SumByte(a[0], b[0], CarryIn(p[0], carry))] + Extracted(high, |a| - 1)
    requires Ripples(high, a[1..], b[1..], p[1..], SumCarry(a[0], b[0], CarryIn(p[0], carry)))
    ensures Ripples(sum, a, b, p, carry)
  {
    RippledNext(a, b, p, carry);
  }

  lemma Tails(a: seq<nat>, b: seq<nat>, s: seq<bool>, t: seq<bool>, p: seq<nat>)
    requires |a| == |b| == |s| >= 1 && SumsTo(s, t, p) && Bytes(a) && Bytes(b)
    ensures Bytes(a[1..]) && Bytes(b[1..]) && SumsTo(s[1..], t[1..], p[1..])
  {}

  /** The lowest byte of a wide sum, and what is left for the others. */
  lemma WideStep(a: seq<nat>, b: seq<nat>, s: seq<bool>, t: seq<bool>, p: nat, carry: nat, rest: nat, sum: nat)
    requires |a| == |b| == |s| == |t| >= 1 && Bytes(a) && Bytes(b) && carry <= 1
    requires p == (if s[0] then 1 else 0) + (if t[0] then 1 else 0)
    requires rest == Expanded(a[1..], s[1..]) + Expanded(b[1..], t[1..]) && sum == Expanded(a, s) + Expanded(b, t) + carry
    ensures
      var k := CarryIn(p, carry);
      && SumCarry(a[0], b[0], k) <= 1
      && Extracted(sum, |a|) == [SumByte(a[0], b[0], k)] + Extracted(rest + SumCarry(a[0], b[0], k), |a| - 1)
  {
    ExpandedNext(a, s);
    ExpandedNext(b, t);
    Digit(p, a[0], b[0], carry, rest, sum);
    ExtractedNext(sum, |a|);
  }

  lemma SameRipple(a: seq<nat>, b: seq<nat>, s: seq<nat>, s': seq<nat>, carry: nat, carry': nat)
    requires |a| == |b| == |s| == |s'| >= 1 && s[1..] == s'[1..] && CarryIn(s[0], carry) == CarryIn(s'[0], carry')
    ensures Rippled(a, b, s, carry) == Rippled(a, b, s', carry')
    ensures CarryOut(a, b, s, carry) == CarryOut(a, b, s', carry')
  {
    RippledNext(a, b, s, carry);
    RippledNext(a, b, s', carry');
  }

  /** The same with the carry into the lane made by its lowest spacer. */
  lemma LaneFromSpacer(a: seq<nat>, b: seq<nat>, spacers: seq<nat>, carry: nat)
    requires |a| == |b| == |spacers| >= 1 && Bytes(a) && Bytes(b) && carry <= 1 && Passing(spacers[1..])
    ensures
      var k, r := CarryIn(spacers[0], carry), Rippled(a, b, spacers, carry);
      k <= 1 ==>
        && Bytes(r) && CarryOut(a, b, spacers, carry) <= 1
        && Value(r) + Pow256(|a|) * CarryOut(a, b, spacers, carry) == Value(a) + Value(b) + k
  {
    var k := CarryIn(spacers[0], carry);
    if k <= 1 {
      var p := [1] + spacers[1..];
      assert p[1..] == spacers[1..];
      SameRipple(a, b, spacers, p, carry, k);
      LaneAddition(a, b, p, k);
    }
  }

  /** s modulo m, for s within one m of the range. */
  function Wrap(s: int, m: nat): (r: int)
  {
    if s < 0 then s + m else if s < m then s else s - m
  }

  lemma WrapIsModulo(s: int, m: nat)
    requires m >= 1 && 0 - m <= s < 2 * m
    ensures Wrap(s, m) == s % m
  {}

  lemma Reduce(r: nat, m: nat, c: nat, s: int)
    requires c <= 1 && r < m && r + m * c == s
    ensures Wrap(s, m) == r
  {
    assert c == 0 || c == 1;
  }

  /** One lane of the sum, k being the carry that its lowest spacer lets in. */
  lemma LaneSum(a: seq<nat>, b: seq<nat>, spacers: seq<nat>, carry: nat, k: nat)
    requires |a| == |b| == |spacers| >= 1 && Bytes(a) && Bytes(b) && carry <= 1 && Passing(spacers[1..])
    requires k == CarryIn(spacers[0], carry) && k <= 1
    ensures Bytes(Rippled(a, b, spacers, carry)) && CarryOut(a, b, spacers, carry) <= 1
    ensures Value(Rippled(a, b, spacers, carry)) == Wrap(Value(a) + Value(b) + k, Pow256(|a|))
  {
    LaneFromSpacer(a, b, spacers, carry);
    var r := Rippled(a, b, spacers, carry);
    ValueBound(r);
    Reduce(Value(r), Pow256(|a|), CarryOut(a, b, spacers, carry), Value(a) + Value(b) + k);
  }

  function LaneBytes(mode: Mode): (n: nat)
    ensures 1 <= n <= 4
  {
    match mode
    case Mode8 => 1
    case Mode16 => 2
    case Mode32 => 4
  }

  /** A word of four bytes. */
  predicate Word(w: seq<nat>)
  {
    |w| == 4 && Bytes(w)
  }

  /** Lane j of a word. */
  function Lane(mode: Mode, w: seq<nat>, j: nat): (lane: seq<nat>)
    requires |w| == 4 && (j + 1) * LaneBytes(mode) <= 4
    ensures |lane| == LaneBytes(mode)
  {
    match mode
    case Mode8 => w[j..j + 1]
    case Mode16 => w[2 * j..2 * j + 2]
    case Mode32 => w
  }

  /** Plain addition, subtraction, and the difference b - a that the absolute value
      is made of. */
  datatype AddOp = Plus | Minus | Reversed

  function SpacersA(mode: Mode, op: AddOp): (s: seq<bool>)
    ensures |s| == 4
  {
    if op != Plus then [true, true, true, true]
    else
      match mode
      case Mode8 => [true, false, false, false]
      case Mode16 => [true, true, false, true]
      case Mode32 => [true, true, true, true]
  }

  function SpacersB(mode: Mode, op: AddOp): (s: seq<bool>)
    ensures |s| == 4
  {
    if op == Plus then [false, false, false, false]
    else
      match mode
      case Mode8 => [true, true, true, true]
      case Mode16 => [true, false, true, false]
      case Mode32 => [true, false, false, false]
  }

  /** One wide sum of the spaced operands, and the bytes picked from it. */
  function WideSum(mode: Mode, op: AddOp, x: seq<nat>, y: seq<nat>): (r: seq<nat>)
    requires |x| == |y| == 4
    ensures |r| == 4
  {
    Extracted(Expanded(x, SpacersA(mode, op)) + Expanded(y, SpacersB(mode, op)), 4)
  }

  /** The adder result, with complemented operands where a difference is wanted. */
  function AdderResult(mode: Mode, op: AddOp, a: seq<nat>, b: seq<nat>): (r: seq<nat>)
    requires Word(a) && Word(b)
    ensures |r| == 4
  {
    var opA := if op == Reversed then Complement(a) else a;
    var opB := if op == Minus then Complement(b) else b;
    WideSum(mode, op, opA, opB)
  }

  function SpacersOf(mode: Mode, k: nat): (s: seq<nat>)
    ensures |s| == 4
  {
    match mode
    case Mode8 => if k == 0 then [1, 0, 0, 0] else [2, 2, 2, 2]
    case Mode16 => if k == 0 then [1, 1, 0, 1] else [2, 1, 2, 1]
    case Mode32 => if k == 0 then [1, 1, 1, 1] else [2, 1, 1, 1]
  }

  lemma SpacersAre(mode: Mode, op: AddOp)
    ensures SumsTo(SpacersA(mode, op), SpacersB(mode, op), SpacersOf(mode, if op == Plus then 0 else 1))
  {}

  /** No carry crosses a lane boundary: each lane of the rippled sum is the sum of the
      lanes, with the carry k, modulo the lane size. */
  ghost predicate LanesAdd(mode: Mode, r: seq<nat>, a: seq<nat>, b: seq<nat>, k: nat)
    requires |r| == |a| == |b| == 4
  {
    forall j: nat {:trigger Lane(mode, r, j)} :: (j + 1) * LaneBytes(mode) <= 4 ==>
      Value(Lane(mode, r, j)) == Wrap(Value(Lane(mode, a, j)) + Value(Lane(mode, b, j)) + k, Pow256(LaneBytes(mode)))
  }

  /** The first n bytes form a lane of their own. */
  lemma SplitLane(a: seq<nat>, b: seq<nat>, s: seq<nat>, carry: nat, n: nat, k: nat) returns (carry': nat)
    requires |a| == |b| == |s| && 1 <= n <= |a| && Bytes(a) && Bytes(b) && carry <= 1
    requires Passing(s[1..n]) && k == CarryIn(s[0], carry) && k <= 1
    ensures carry' <= 1
    ensures Rippled(a, b, s, carry)[n..] == Rippled(a[n..], b[n..], s[n..], carry')
    ensures Bytes(Rippled(a, b, s, carry)[..n])
    ensures Value(Rippled(a, b, s, carry)[..n]) == Wrap(Value(a[..n]) + Value(b[..n]) + k, Pow256(n))
  {
    assert a == a[..n] + a[n..] && b == b[..n] + b[n..] && s == s[..n] + s[n..];
    RippledConcat(a[..n], b[..n], s[..n], a[n..], b[n..], s[n..], carry);
    assert s[..n][1..] == s[1..n];
    LaneSum(a[..n], b[..n], s[..n], carry, k);
    carry' := CarryOut(a[..n], b[..n], s[..n], carry);
  }

  ghost predicate LaneAdds(r: seq<nat>, a: seq<nat>, b: seq<nat>, k: nat, n: nat)
  {
    Value(r) == Wrap(Value(a) + Value(b) + k, Pow256(n))
  }

  lemma TwoHalves(a: seq<nat>, b: seq<nat>, s: seq<nat>, k: nat)
    requires |s| == 4 && Word(a) && Word(b) && k <= 1 && s[1] == s[3] == 1
    requires CarryIn(s[0], 0) == k && s[2] == 2 * k
    ensures
      var r := Rippled(a, b, s, 0);
      LaneAdds(r[..2], a[..2], b[..2], k, 2) && LaneAdds(r[2..], a[2..], b[2..], k, 2)
  {
    var c := SplitLane(a, b, s, 0, 2, k);
    LaneSum(a[2..], b[2..], s[2..], c, k);
  }

  lemma LowByte(a: seq<nat>, b: seq<nat>, s: seq<nat>, carry: nat, k: nat) returns (carry': nat)
    requires |a| == |b| == |s| >= 1 && Bytes(a) && Bytes(b) && carry <= 1 && k == CarryIn(s[0], carry) && k <= 1
    ensures carry' <= 1
    ensures Rippled(a, b, s, carry)[1..] == Rippled(a[1..], b[1..], s[1..], carry')
    ensures LaneAdds(Rippled(a, b, s, carry)[..1], a[..1], b[..1], k, 1)
  {
    carry' := SplitLane(a, b, s, carry, 1, k);
  }

  lemma FourBytes(a: seq<nat>, b: seq<nat>, s: seq<nat>, k: nat)
    requires |s| == 4 && Word(a) && Word(b) && k <= 1
    requires CarryIn(s[0], 0) == k && s[1] == s[2] == s[3] == 2 * k
    ensures
      var r := Rippled(a, b, s, 0);
      && LaneAdds(r[..1], a[..1], b[..1], k, 1) && LaneAdds(r[1..][..1], a[1..][..1], b[1..][..1], k, 1)
      && LaneAdds(r[2..][..1], a[2..][..1], b[2..][..1], k, 1) && LaneAdds(r[3..][..1], a[3..][..1], b[3..][..1], k, 1)
  {
    var c := LowByte(a, b, s, 0, k);
    var c' := LowByte(a[1..], b[1..], s[1..], c, k);
    assert a[1..][1..] == a[2..] && b[1..][1..] == b[2..] && s[1..][1..] == s[2..];
    var c'' := LowByte(a[2..], b[2..], s[2..], c', k);
    assert a[2..][1..] == a[3..] && b[2..][1..] == b[3..] && s[2..][1..] == s[3..];
    var c3 := LowByte(a[3..], b[3..], s[3..], c'', k);
    var r := Rippled(a, b, s, 0);
    assert r[1..][1..] == r[2..] && r[2..][1..] == r[3..];
  }

  lemma Lanes32(a: seq<nat>, b: seq<nat>, k: nat)
    requires Word(a) && Word(b) && k <= 1
    ensures LanesAdd(Mode32, Rippled(a, b, SpacersOf(Mode32, k), 0), a, b, k)
  {
    LaneSum(a, b, SpacersOf(Mode32, k), 0, k);
  }

  lemma Lanes16(a: seq<nat>, b: seq<nat>, k: nat)
    requires Word(a) && Word(b) && k <= 1
    ensures LanesAdd(Mode16, Rippled(a, b, SpacersOf(Mode16, k), 0), a, b, k)
  {
    TwoHalves(a, b, SpacersOf(Mode16, k), k);
    EachHalf(Rippled(a, b, SpacersOf(Mode16, k), 0), a, b, k);
  }

  lemma Lanes8(a: seq<nat>, b: seq<nat>, k: nat)
    requires Word(a) && Word(b) && k <= 1
    ensures LanesAdd(Mode8, Rippled(a, b, SpacersOf(Mode8, k), 0), a, b, k)
  {
    FourBytes(a, b, SpacersOf(Mode8, k), k);
    EachByte(Rippled(a, b, SpacersOf(Mode8, k), 0), a, b, k);
  }

  lemma EachHalf(r: seq<nat>, a: seq<nat>, b: seq<nat>, k: nat)
    requires |r| == |a| == |b| == 4
    requires LaneAdds(r[..2], a[..2], b[..2], k, 2) && LaneAdds(r[2..], a[2..], b[2..], k, 2)
    ensures LanesAdd(Mode16, r, a, b, k)
  {
    HalfLanes(r);
    HalfLanes(a);
    HalfLanes(b);
  }

  lemma HalfLanes(w: seq<nat>)
    requires |w| == 4
    ensures Lane(Mode16, w, 0) == w[..2] && Lane(Mode16, w, 1) == w[2..]
  {}

  lemma EachByte(r: seq<nat>, a: seq<nat>, b: seq<nat>, k: nat)
    requires |r| == |a| == |b| == 4
    requires LaneAdds(r[..1], a[..1], b[..1], k, 1) && LaneAdds(r[1..][..1], a[1..][..1], b[1..][..1], k, 1)
    requires LaneAdds(r[2..][..1], a[2..][..1], b[2..][..1], k, 1) && LaneAdds(r[3..][..1], a[3..][..1], b[3..][..1], k, 1)
    ensures LanesAdd(Mode8, r, a, b, k)
  {
    ByteLanes(r);
    ByteLanes(a);
    ByteLanes(b);
  }

  lemma ByteLanes(w: seq<nat>)
    requires |w| == 4
    ensures Lane(Mode8, w, 0) == w[..1] && Lane(Mode8, w, 1) == w[1..][..1]
    ensures Lane(Mode8, w, 2) == w[2..][..1] && Lane(Mode8, w, 3) == w[3..][..1]
  {}

  lemma RippledLanes(mode: Mode, a: seq<nat>, b: seq<nat>, k: nat)
    requires Word(a) && Word(b) && k <= 1
    ensures LanesAdd(mode, Rippled(a, b, SpacersOf(mode, k), 0), a, b, k)
  {
    match mode
    case Mode8 => Lanes8(a, b, k);
    case Mode16 => Lanes16(a, b, k);
    case Mode32 => Lanes32(a, b, k);
  }

  lemma WideSumRipples(mode: Mode, op: AddOp, x: seq<nat>, y: seq<nat>, k: nat)
    requires Word(x) && Word(y) && k == if op == Plus then 0 else 1
    ensures WideSum(mode, op, x, y) == Rippled(x, y, SpacersOf(mode, k), 0)
  {
    SpacersAre(mode, op);
    WideAdditionRipples(x, y, SpacersA(mode, op), SpacersB(mode, op), SpacersOf(mode, k), 0);
  }

  lemma ResultLanes(mode: Mode, op: AddOp, x: seq<nat>, y: seq<nat>, k: nat)
    requires Word(x) && Word(y) && k == if op == Plus then 0 else 1
    ensures LanesAdd(mode, WideSum(mode, op, x, y), x, y, k)
  {
    WideSumRipples(mode, op, x, y, k);
    RippledLanes(mode, x, y, k);
  }

  lemma LaneComplement(mode: Mode, w: seq<nat>, j: nat)
    requires Word(w) && (j + 1) * LaneBytes(mode) <= 4
    ensures Value(Lane(mode, Complement(w), j)) == Pow256(LaneBytes(mode)) - 1 - Value(Lane(mode, w, j))
  {
    ValueComplement(Lane(mode, w, j));
    match mode
    case Mode8 => SliceComplement(w, j, j + 1);
    case Mode16 => SliceComplement(w, 2 * j, 2 * j + 2);
    case Mode32 =>
  }

  lemma SliceComplement(w: seq<nat>, lo: nat, hi: nat)
    requires Bytes(w) && lo <= hi <= |w|
    ensures Complement(w)[lo..hi] == Complement(w[lo..hi])
  {}

  lemma LaneBound(mode: Mode, w: seq<nat>, j: nat)
    requires Word(w) && (j + 1) * LaneBytes(mode) <= 4
    ensures Value(Lane(mode, w, j)) < Pow256(LaneBytes(mode))
  {
    ValueBound(Lane(mode, w, j));
  }

  lemma WrapComplement(x: nat, y: nat, m: nat)
    requires x < m && y < m
    ensures Wrap(x + (m - 1 - y) + 1, m) == (x - y) % m
    ensures Wrap(x + y, m) == (x + y) % m
  {
    WrapIsModulo(x - y, m);
    WrapIsModulo(x + y, m);
  }

  lemma SumLane(mode: Mode, op: AddOp, x: seq<nat>, y: seq<nat>, k: nat, j: nat)
    requires Word(x) && Word(y) && k == (if op == Plus then 0 else 1) && (j + 1) * LaneBytes(mode) <= 4
    ensures Value(Lane(mode, WideSum(mode, op, x, y), j)) ==
            Wrap(Value(Lane(mode, x, j)) + Value(Lane(mode, y, j)) + k, Pow256(LaneBytes(mode)))
  {
    ResultLanes(mode, op, x, y, k);
  }

  lemma DifferenceLane(mode: Mode, op: AddOp, x: seq<nat>, y: seq<nat>, j: nat)
    requires Word(x) && Word(y) && op != Plus && (j + 1) * LaneBytes(mode) <= 4
    ensures Value(Lane(mode, WideSum(mode, op, x, Complement(y)), j)) ==
            (Value(Lane(mode, x, j)) - Value(Lane(mode, y, j))) % Pow256(LaneBytes(mode))
    ensures Value(Lane(mode, WideSum(mode, op, Complement(y), x), j)) ==
            (Value(Lane(mode, x, j)) - Value(Lane(mode, y, j))) % Pow256(LaneBytes(mode))
  {
    SumLane(mode, op, x, Complement(y), 1, j);
    SumLane(mode, op, Complement(y), x, 1, j);
    LaneComplement(mode, y, j);
    LaneBound(mode, x, j);
    LaneBound(mode, y, j);
    WrapComplement(Value(Lane(mode, x, j)), Value(Lane(mode, y, j)), Pow256(LaneBytes(mode)));
  }

  /** The vector adder: for all operands and each mode, lane j of the result is the
      sum or difference of the lanes modulo the lane size. */
  lemma AdderIsLaneWise(mode: Mode, op: AddOp, a: seq<nat>, b: seq<nat>, j: nat)
    requires Word(a) && Word(b) && (j + 1) * LaneBytes(mode) <= 4
    ensures
      var x, y, m := Value(Lane(mode, a, j)), Value(Lane(mode, b, j)), Pow256(LaneBytes(mode));
      Value(Lane(mode, AdderResult(mode, op, a, b), j)) ==
        (match op case Plus => x + y case Minus => x - y case Reversed => y - x) % m
  {
    match op
    case Plus =>
      SumLane(mode, op, a, b, 0, j);
      LaneBound(mode, a, j);
      LaneBound(mode, b, j);
      WrapComplement(Value(Lane(mode, a, j)), Value(Lane(mode, b, j)), Pow256(LaneBytes(mode)));
    case Minus =>
      DifferenceLane(mode, op, a, b, j);
    case Reversed =>
      DifferenceLane(mode, op, b, a, j);
  }

  // The comparators.

  /** A byte as one of the comparators takes it. */
  function SignedByte(x: nat, signed: bool): (v: int)
  {
    if signed && x >= 128 then x - 256 else x
  }

  /** A lane as a number, its top byte taken signed or not. */
  function SignedValue(lane: seq<nat>, signed: bool): (v: int)
    requires |lane| >= 1
  {
    if |lane| == 1 then SignedByte(lane[0], signed) else lane[0] + 256 * SignedValue(lane[1..], signed)
  }

  /** SignedValue is two's complement. */
  lemma {:induction false} SignedValueIs(lane: seq<nat>, signed: bool)
    requires |lane| >= 1 && Bytes(lane)
    ensures SignedValue(lane, signed) ==
      Value(lane) - if signed && lane[|lane| - 1] >= 128 then Pow256(|lane|) else 0
  {
    if |lane| == 1 {
      assert Value(lane[1..]) == 0 && Pow256(1) == 256;
    } else {
      SignedValueIs(lane[1..], signed);
    }
  }

  /** The comparison of byte i: signed only in the top byte of a lane, and only for
      signed operations. */
  function CmpSigned(mode: Mode, signed: bool, i: nat): (s: bool)
  {
    signed && match mode case Mode8 => true case Mode16 => i == 1 || i == 3 case Mode32 => i == 3
  }

  function EqualVec(a: seq<nat>, b: seq<nat>): (r: seq<bool>)
    requires |a| == |b| == 4
    ensures |r| == 4
  {
    [a[0] == b[0], a[1] == b[1], a[2] == b[2], a[3] == b[3]]
  }

  function GreaterByte(mode: Mode, signed: bool, a: seq<nat>, b: seq<nat>, i: nat): (r: bool)
    requires |a| == |b| == 4 && i < 4
  {
    SignedByte(a[i], CmpSigned(mode, signed, i)) > SignedByte(b[i], CmpSigned(mode, signed, i))
  }

  function GreaterVec(mode: Mode, signed: bool, a: seq<nat>, b: seq<nat>): (r: seq<bool>)
    requires |a| == |b| == 4
    ensures |r| == 4
  {
    [GreaterByte(mode, signed, a, b, 0), GreaterByte(mode, signed, a, b, 1),
     GreaterByte(mode, signed, a, b, 2), GreaterByte(mode, signed, a, b, 3)]
  }

  /** is_equal: the byte results combined for the mode, one flag per byte. */
  function IsEqual(mode: Mode, e: seq<bool>): (r: seq<bool>)
    requires |e| == 4
    ensures |r| == 4
  {
    match mode
    case Mode8 => e
    case Mode16 => [e[0] && e[1], e[0] && e[1], e[2] && e[3], e[2] && e[3]]
    case Mode32 =>
      var all := e[3] && e[2] && e[1] && e[0];
      [all, all, all, all]
  }

  /** is_greater, likewise. */
  function IsGreater(mode: Mode, e: seq<bool>, g: seq<bool>): (r: seq<bool>)
    requires |e| == |g| == 4
    ensures |r| == 4
  {
    match mode
    case Mode8 => g
    case Mode16 =>
      var low, high := g[1] || (e[1] && g[0]), g[3] || (e[3] && g[2]);
      [low, low, high, high]
    case Mode32 =>
      var any := g[3] || (e[3] && (g[2] || (e[2] && (g[1] || (e[1] && g[0])))));
      [any, any, any, any]
  }

  /** The lowest byte decides only when the bytes above are equal. */
  lemma LowestDecides(x: nat, y: nat, v: int, w: int)
    requires x < 256 && y < 256
    ensures x + 256 * v > y + 256 * w <==> v > w || (v == w && x > y)
    ensures x + 256 * v == y + 256 * w <==> v == w && x == y
  {}

  lemma CompareOne(x: nat, y: nat, signed: bool)
    requires x < 256 && y < 256
    ensures SignedByte(x, signed) == SignedByte(y, signed) <==> x == y
    ensures SignedValue([x], signed) == SignedByte(x, signed)
  {}

  lemma CompareTwo(a: seq<nat>, b: seq<nat>, signed: bool)
    requires |a| == |b| == 2 && Bytes(a) && Bytes(b)
    ensures SignedValue(a, signed) == SignedValue(b, signed) <==> a[0] == b[0] && a[1] == b[1]
    ensures SignedValue(a, signed) > SignedValue(b, signed) <==>
      SignedByte(a[1], signed) > SignedByte(b[1], signed) || (a[1] == b[1] && a[0] > b[0])
  {
    CompareOne(a[1], b[1], signed);
    assert a[1..] == [a[1]] && b[1..] == [b[1]];
    LowestDecides(a[0], b[0], SignedByte(a[1], signed), SignedByte(b[1], signed));
  }

  lemma CompareFour(a: seq<nat>, b: seq<nat>, signed: bool)
    requires |a| == |b| == 4 && Bytes(a) && Bytes(b)
    ensures SignedValue(a, signed) == SignedValue(b, signed) <==> a == b
    ensures SignedValue(a, signed) > SignedValue(b, signed) <==>
      SignedByte(a[3], signed) > SignedByte(b[3], signed) ||
      (a[3] == b[3] && (a[2] > b[2] || (a[2] == b[2] && (a[1] > b[1] || (a[1] == b[1] && a[0] > b[0])))))
  {
    CompareTwo(a[2..], b[2..], signed);
    assert a[1..][1..] == a[2..] && b[1..][1..] == b[2..];
    LowestDecides(a[1], b[1], SignedValue(a[2..], signed), SignedValue(b[2..], signed));
    LowestDecides(a[0], b[0], SignedValue(a[1..], signed), SignedValue(b[1..], signed));
    assert SignedValue(a, signed) == a[0] + 256 * SignedValue(a[1..], signed);
    assert SignedValue(b, signed) == b[0] + 256 * SignedValue(b[1..], signed);
  }

  /** The lane that byte i belongs to. */
  function LaneIndex(mode: Mode, i: nat): (j: nat)
    requires i < 4
    ensures (j + 1) * LaneBytes(mode) <= 4
  {
    match mode
    case Mode8 => i
    case Mode16 => if i < 2 then 0 else 1
    case Mode32 => 0
  }

  /** The flags of byte i compare the lanes that it belongs to. */
  predicate ComparesLanes(mode: Mode, signed: bool, a: seq<nat>, b: seq<nat>, i: nat, equal: bool, greater: bool)
    requires |a| == |b| == 4 && i < 4
  {
    var x := SignedValue(Lane(mode, a, LaneIndex(mode, i)), signed);
    var y := SignedValue(Lane(mode, b, LaneIndex(mode, i)), signed);
    (equal <==> x == y) && (greater <==> x > y)
  }

  lemma Compare8(signed: bool, a: seq<nat>, b: seq<nat>, i: nat)
    requires Word(a) && Word(b) && i < 4
    ensures ComparesLanes(Mode8, signed, a, b, i, EqualVec(a, b)[i], GreaterVec(Mode8, signed, a, b)[i])
  {
    CompareOne(a[i], b[i], signed);
    assert Lane(Mode8, a, i) == [a[i]] && Lane(Mode8, b, i) == [b[i]];
  }

  lemma Compare16(signed: bool, a: seq<nat>, b: seq<nat>, i: nat, lo: nat)
    requires Word(a) && Word(b) && i < 4 && lo == if i < 2 then 0 else 2
    ensures ComparesLanes(Mode16, signed, a, b, i, a[lo] == b[lo] && a[lo + 1] == b[lo + 1],
      SignedByte(a[lo + 1], signed) > SignedByte(b[lo + 1], signed) || (a[lo + 1] == b[lo + 1] && a[lo] > b[lo]))
  {
    var j := LaneIndex(Mode16, i);
    HalfLanes(a);
    HalfLanes(b);
    CompareTwo(Lane(Mode16, a, j), Lane(Mode16, b, j), signed);
    assert Lane(Mode16, a, j)[0] == a[lo] && Lane(Mode16, a, j)[1] == a[lo + 1];
    assert Lane(Mode16, b, j)[0] == b[lo] && Lane(Mode16, b, j)[1] == b[lo + 1];
  }

  lemma Flags8(signed: bool, a: seq<nat>, b: seq<nat>, i: nat)
    requires Word(a) && Word(b) && i < 4
    ensures ComparesLanes(Mode8, signed, a, b, i, IsEqual(Mode8, EqualVec(a, b))[i],
                          IsGreater(Mode8, EqualVec(a, b), GreaterVec(Mode8, signed, a, b))[i])
  {
    Compare8(signed, a, b, i);
  }

  lemma Flags16(signed: bool, a: seq<nat>, b: seq<nat>, i: nat)
    requires Word(a) && Word(b) && i < 4
    ensures ComparesLanes(Mode16, signed, a, b, i, IsEqual(Mode16, EqualVec(a, b))[i],
                          IsGreater(Mode16, EqualVec(a, b), GreaterVec(Mode16, signed, a, b))[i])
  {
    Compare16(signed, a, b, i, if i < 2 then 0 else 2);
  }

  lemma Flags32(signed: bool, a: seq<nat>, b: seq<nat>, i: nat)
    requires Word(a) && Word(b) && i < 4
    ensures ComparesLanes(Mode32, signed, a, b, i, IsEqual(Mode32, EqualVec(a, b))[i],
                          IsGreater(Mode32, EqualVec(a, b), GreaterVec(Mode32, signed, a, b))[i])
  {
    CompareFour(a, b, signed);
  }

  /** The comparators: for all operands, each mode, signed or not, the flags of every
      byte compare the lanes that the byte belongs to. */
  lemma ComparatorsAreLaneWise(mode: Mode, signed: bool, a: seq<nat>, b: seq<nat>, i: nat)
    requires Word(a) && Word(b) && i < 4
    ensures ComparesLanes(mode, signed, a, b, i, IsEqual(mode, EqualVec(a, b))[i],
                          IsGreater(mode, EqualVec(a, b), GreaterVec(mode, signed, a, b))[i])
  {
    match mode
    case Mode8 => Flags8(signed, a, b, i);
    case Mode16 => Flags16(signed, a, b, i);
    case Mode32 => Flags32(signed, a, b, i);
  }

  datatype CmpOp = Eq | Ne | Gt | Ge | Lt | Le

  /** cmp_result, as the operators derive it from the two flags. */
  function CmpResult(op: CmpOp, equal: bool, greater: bool): (r: bool)
  {
    match op
    case Eq => equal
    case Ne => !equal
    case Gt => greater
    case Ge => greater || equal
    case Lt => !(greater || equal)
    case Le => !greater
  }

  predicate Holds(op: CmpOp, x: int, y: int)
  {
    match op
    case Eq => x == y
    case Ne => x != y
    case Gt => x > y
    case Ge => x >= y
    case Lt => x < y
    case Le => x <= y
  }

  function CmpResults(op: CmpOp, e: seq<bool>, g: seq<bool>): (r: seq<bool>)
    requires |e| == |g| == 4
    ensures |r| == 4
  {
    [CmpResult(op, e[0], g[0]), CmpResult(op, e[1], g[1]), CmpResult(op, e[2], g[2]), CmpResult(op, e[3], g[3])]
  }

  function Comparison(mode: Mode, signed: bool, op: CmpOp, a: seq<nat>, b: seq<nat>): (r: seq<bool>)
    requires |a| == |b| == 4
    ensures |r| == 4
  {
    CmpResults(op, IsEqual(mode, EqualVec(a, b)), IsGreater(mode, EqualVec(a, b), GreaterVec(mode, signed, a, b)))
  }

  /** Every comparison operator decides its relation on the lanes; flag 3, which the
      set and branch instructions use, decides it on the top lane. */
  lemma ComparisonHolds(mode: Mode, signed: bool, op: CmpOp, a: seq<nat>, b: seq<nat>, i: nat)
    requires Word(a) && Word(b) && i < 4
    ensures Comparison(mode, signed, op, a, b)[i] <==>
      Holds(op, SignedValue(Lane(mode, a, LaneIndex(mode, i)), signed), SignedValue(Lane(mode, b, LaneIndex(mode, i)), signed))
  {
    ComparatorsAreLaneWise(mode, signed, a, b, i);
    PickCmp(op, IsEqual(mode, EqualVec(a, b)), IsGreater(mode, EqualVec(a, b), GreaterVec(mode, signed, a, b)), i);
  }

  lemma PickCmp(op: CmpOp, e: seq<bool>, g: seq<bool>, i: nat)
    requires |e| == |g| == 4 && i < 4
    ensures CmpResults(op, e, g)[i] == CmpResult(op, e[i], g[i])
  {}

  // Minimum, maximum and absolute value.

  /** Each byte is picked from one of two words by the flag of its byte. */
  function Picked(a: seq<nat>, b: seq<nat>, sel: seq<bool>): (r: seq<nat>)
    requires |a| == |b| == |sel| == 4
    ensures |r| == 4
  {
    [if sel[0] then a[0] else b[0], if sel[1] then a[1] else b[1], if sel[2] then a[2] else b[2], if sel[3] then a[3] else b[3]]
  }

  /** The selection flags: is_greater, inverted for a minimum. */
  function Selection(mode: Mode, signed: bool, doMin: bool, a: seq<nat>, b: seq<nat>): (r: seq<bool>)
    requires |a| == |b| == 4
    ensures |r| == 4
  {
    var g := IsGreater(mode, EqualVec(a, b), GreaterVec(mode, signed, a, b));
    [g[0] != doMin, g[1] != doMin, g[2] != doMin, g[3] != doMin]
  }

  /** A lane is picked as a whole. */
  lemma PickedLane(mode: Mode, a: seq<nat>, b: seq<nat>, sel: seq<bool>, i: nat)
    requires |a| == |b| == |sel| == 4 && i < 4
    requires forall k :: 0 <= k < 4 && LaneIndex(mode, k) == LaneIndex(mode, i) ==> sel[k] == sel[i]
    ensures Lane(mode, Picked(a, b, sel), LaneIndex(mode, i)) == Lane(mode, if sel[i] then a else b, LaneIndex(mode, i))
  {}

  lemma SelectionFlag(mode: Mode, signed: bool, doMin: bool, a: seq<nat>, b: seq<nat>, i: nat)
    requires Word(a) && Word(b) && i < 4
    ensures Selection(mode, signed, doMin, a, b)[i] <==>
      (SignedValue(Lane(mode, a, LaneIndex(mode, i)), signed) > SignedValue(Lane(mode, b, LaneIndex(mode, i)), signed)) != doMin
  {
    ComparatorsAreLaneWise(mode, signed, a, b, i);
    SelectionIs(IsGreater(mode, EqualVec(a, b), GreaterVec(mode, signed, a, b)), doMin, i);
  }

  lemma SelectionIs(g: seq<bool>, doMin: bool, i: nat)
    requires |g| == 4 && i < 4
    ensures [g[0] != doMin, g[1] != doMin, g[2] != doMin, g[3] != doMin][i] == (g[i] != doMin)
  {}

  lemma SelectionPerLane(mode: Mode, signed: bool, doMin: bool, a: seq<nat>, b: seq<nat>, i: nat)
    requires Word(a) && Word(b) && i < 4
    ensures
      var sel, j := Selection(mode, signed, doMin, a, b), LaneIndex(mode, i);
      && (sel[i] <==> (SignedValue(Lane(mode, a, j), signed) > SignedValue(Lane(mode, b, j), signed)) != doMin)
      && (forall k :: 0 <= k < 4 && LaneIndex(mode, k) == LaneIndex(mode, i) ==> sel[k] == sel[i])
  {
    SelectionFlag(mode, signed, doMin, a, b, i);
    forall k | 0 <= k < 4 && LaneIndex(mode, k) == LaneIndex(mode, i)
      ensures Selection(mode, signed, doMin, a, b)[k] == Selection(mode, signed, doMin, a, b)[i]
    {
      SelectionFlag(mode, signed, doMin, a, b, k);
    }
  }

  function MinMax(mode: Mode, signed: bool, doMin: bool, a: seq<nat>, b: seq<nat>): (r: seq<nat>)
    requires |a| == |b| == 4
    ensures |r| == 4
  {
    Picked(a, b, Selection(mode, signed, doMin, a, b))
  }

  /** Lane-wise minimum and maximum. */
  lemma MinMaxIsLaneWise(mode: Mode, signed: bool, doMin: bool, a: seq<nat>, b: seq<nat>, i: nat)
    requires Word(a) && Word(b) && i < 4
    ensures
      var j := LaneIndex(mode, i);
      var x, y := SignedValue(Lane(mode, a, j), signed), SignedValue(Lane(mode, b, j), signed);
      SignedValue(Lane(mode, MinMax(mode, signed, doMin, a, b), j), signed) == if (x <= y) == doMin then x else y
  {
    SelectionPerLane(mode, signed, doMin, a, b, i);
    PickedLane(mode, a, b, Selection(mode, signed, doMin, a, b), i);
  }

  const ZEROS: seq<nat> := [0, 0, 0, 0]

  /** The absolute value picks the operand or zero minus the operand. */
  function AbsResult(mode: Mode, a: seq<nat>): (r: seq<nat>)
    requires Word(a)
    ensures |r| == 4
  {
    Picked(a, AdderResult(mode, Reversed, a, ZEROS), Selection(mode, true, false, a, ZEROS))
  }

  lemma ZeroLane(mode: Mode, j: nat)
    requires (j + 1) * LaneBytes(mode) <= 4
    ensures Value(Lane(mode, ZEROS, j)) == 0 && SignedValue(Lane(mode, ZEROS, j), true) == 0
  {
    ZeroValue(Lane(mode, ZEROS, j));
  }

  lemma {:induction false} ZeroValue(s: seq<nat>)
    requires forall i :: 0 <= i < |s| ==> s[i] == 0
    ensures Value(s) == 0 && (s != [] ==> SignedValue(s, true) == 0)
  {
    if s != [] {
      ZeroValue(s[1..]);
    }
  }

  lemma {:induction false} TopByte(s: seq<nat>)
    requires |s| >= 1
    ensures Value(s) >= s[|s| - 1]
  {
    if |s| > 1 {
      TopByte(s[1..]);
    }
  }

  lemma Negated(x: int, v: nat, m: nat)
    requires v < m && 0 - m < x <= 0 && (v == x || v == x + m)
    ensures (0 - v) % m == 0 - x
  {
    WrapIsModulo(0 - v, m);
  }

  /** What a lane is as a signed number, and what its negation is. */
  lemma NegatedLane(mode: Mode, a: seq<nat>, j: nat)
    requires Word(a) && (j + 1) * LaneBytes(mode) <= 4
    ensures
      var x := SignedValue(Lane(mode, a, j), true);
      && (x >= 0 ==> Value(Lane(mode, a, j)) == x)
      && (x <= 0 ==> Value(Lane(mode, AdderResult(mode, Reversed, a, ZEROS), j)) == 0 - x)
  {
    SignedLane(Lane(mode, a, j));
    AdderIsLaneWise(mode, Reversed, a, ZEROS, j);
    ZeroLane(mode, j);
  }

  lemma SignedLane(lane: seq<nat>)
    requires |lane| >= 1 && Bytes(lane)
    ensures
      var x := SignedValue(lane, true);
      && (x >= 0 ==> Value(lane) == x)
      && (x <= 0 ==> (0 - Value(lane)) % Pow256(|lane|) == 0 - x)
  {
    SignedValueIs(lane, true);
    TopByte(lane);
    ValueBound(lane);
    if SignedValue(lane, true) <= 0 {
      Negated(SignedValue(lane, true), Value(lane), Pow256(|lane|));
    }
  }

  /** Lane-wise absolute value; that of the most negative number is its magnitude,
      read without a sign. */
  lemma AbsIsLaneWise(mode: Mode, a: seq<nat>, i: nat)
    requires Word(a) && i < 4
    ensures
      var j := LaneIndex(mode, i);
      var x := SignedValue(Lane(mode, a, j), true);
      Value(Lane(mode, AbsResult(mode, a), j)) == if x < 0 then 0 - x else x
  {
    NegatedLane(mode, a, LaneIndex(mode, i));
    ZeroLane(mode, LaneIndex(mode, i));
    SelectionPerLane(mode, true, false, a, ZEROS, i);
    PickedLane(mode, a, AdderResult(mode, Reversed, a, ZEROS), Selection(mode, true, false, a, ZEROS), i);
  }
}
