/** Fixed-width words, seen both as bit vectors (least significant bit first)
    and as natural numbers. The width is always a parameter. */
module Bits {

  function Pow2(n: nat): (p: nat)
    ensures p >= 1
  {
    if n == 0 then 1 else 2 * Pow2(n - 1)
  }

  function Bit(b: bool): (n: nat)
  {
    if b then 1 else 0
  }

  /** The number whose binary digits are s, s[0] being the least significant. */
  function ToNat(s: seq<bool>): (n: nat)
  {
    if s == [] then 0 else Bit(s[0]) + 2 * ToNat(s[1..])
  }

  function Reverse<T>(s: seq<T>): (r: seq<T>)
    ensures |r| == |s|
    ensures forall i :: 0 <= i < |s| ==> r[i] == s[|s| - 1 - i]
  {
    seq(|s|, i requires 0 <= i < |s| => s[|s| - 1 - i])
  }

  function Not(s: seq<bool>): (r: seq<bool>)
    ensures |r| == |s|
  {
    seq(|s|, i requires 0 <= i < |s| => !s[i])
  }

  function Fill(n: nat, b: bool): (r: seq<bool>)
    ensures |r| == n && forall i :: 0 <= i < n ==> r[i] == b
  {
    seq(n, _ => b)
  }

  /** Logical shift right of a bit vector; amounts at or past the width give zero. */
  function ShiftRight(s: seq<bool>, n: nat): (r: seq<bool>)
    ensures |r| == |s|
  {
    if n <= |s| then s[n..] + Fill(n, false) else Fill(|s|, false)
  }

  lemma {:induction false} Pow2Positive(m: nat, n: nat)
    requires m < n
    ensures 2 * Pow2(m) <= Pow2(n)
  {
    if m + 1 < n {
      Pow2Positive(m, n - 1);
    }
  }

  lemma {:induction false} Pow2Add(m: nat, n: nat)
    ensures Pow2(m + n) == Pow2(m) * Pow2(n)
  {
    if n > 0 {
      Pow2Add(m, n - 1);
      assert Pow2(m + n) == 2 * Pow2(m + n - 1);
      assert Pow2(m) * Pow2(n) == 2 * (Pow2(m) * Pow2(n - 1));
    }
  }

  lemma {:induction false} ToNatBound(s: seq<bool>)
    ensures ToNat(s) < Pow2(|s|)
  {
    if s != [] {
      ToNatBound(s[1..]);
    }
  }

  lemma {:induction false} ToNatConcat(s: seq<bool>, t: seq<bool>)
    ensures ToNat(s + t) == ToNat(s) + Pow2(|s|) * ToNat(t)
  {
    if s == [] {
      assert s + t == t;
    } else {
      ToNatConcat(s[1..], t);
      assert (s + t)[1..] == s[1..] + t;
      assert Pow2(|s|) * ToNat(t) == 2 * (Pow2(|s| - 1) * ToNat(t));
    }
  }

  lemma {:induction false} ToNatFill(n: nat, b: bool)
    ensures ToNat(Fill(n, b)) == if b then Pow2(n) - 1 else 0
  {
    if n > 0 {
      ToNatFill(n - 1, b);
      assert Fill(n, b)[1..] == Fill(n - 1, b);
    }
  }

  lemma {:induction false} ToNatZero(s: seq<bool>)
    ensures ToNat(s) == 0 <==> forall i :: 0 <= i < |s| ==> !s[i]
  {
    if s != [] {
      ToNatZero(s[1..]);
      if forall i :: 0 <= i < |s[1..]| ==> !s[1..][i] {
        assert !s[0] ==> forall i :: 0 <= i < |s| ==> !s[i] by {
          forall i | 0 <= i < |s| && !s[0] ensures !s[i] {
            if i > 0 { assert s[i] == s[1..][i - 1]; }
          }
        }
      } else {
        var i :| 0 <= i < |s[1..]| && s[1..][i];
        assert s[i + 1];
      }
    }
  }

  lemma {:induction false} ToNatNot(s: seq<bool>)
    ensures ToNat(Not(s)) == Pow2(|s|) - 1 - ToNat(s)
  {
    if s != [] {
      ToNatNot(s[1..]);
      assert Not(s)[1..] == Not(s[1..]);
    }
  }

  /** A word whose top n bits are clear is small, and conversely. */
  lemma {:induction false} LeadingZeros(s: seq<bool>, n: nat)
    requires n <= |s|
    ensures (forall i :: |s| - n <= i < |s| ==> !s[i]) <==> ToNat(s) < Pow2(|s| - n)
  {
    var lo, hi := s[..|s| - n], s[|s| - n..];
    assert s == lo + hi;
    ToNatConcat(lo, hi);
    ToNatBound(lo);
    ToNatZero(hi);
    var p, h := Pow2(|s| - n), ToNat(hi);
    assert h >= 1 ==> p * h >= p by { if h >= 1 { MulGrows(p, h); } }
    assert (forall i :: 0 <= i < |hi| ==> !hi[i]) <==> (forall i :: |s| - n <= i < |s| ==> !s[i]) by {
      forall i | 0 <= i < |hi| ensures hi[i] == s[|s| - n + i] {}
      forall i | |s| - n <= i < |s| ensures s[i] == hi[i - (|s| - n)] {}
    }
  }

  lemma MulGrows(p: nat, h: nat)
    requires h >= 1
    ensures p * h >= p
  {}

  /** Shifting the mirrored word right and mirroring back multiplies by a power
      of two, provided the bits pushed out at the top are zero. */
  lemma {:induction false} MirroredShift(s: seq<bool>, n: nat)
    requires n <= |s|
    ensures Reverse(ShiftRight(Reverse(s), n)) == Fill(n, false) + s[..|s| - n]
    ensures ToNat(Reverse(ShiftRight(Reverse(s), n))) == Pow2(n) * ToNat(s[..|s| - n])
    ensures ToNat(s) < Pow2(|s| - n) ==> ToNat(s[..|s| - n]) == ToNat(s)
  {
    assert Reverse(ShiftRight(Reverse(s), n)) == Fill(n, false) + s[..|s| - n];
    ToNatConcat(Fill(n, false), s[..|s| - n]);
    ToNatFill(n, false);
    if ToNat(s) < Pow2(|s| - n) {
      LeadingZeros(s, n);
      assert s == s[..|s| - n] + s[|s| - n..];
      ToNatConcat(s[..|s| - n], s[|s| - n..]);
      ToNatZero(s[|s| - n..]);
    }
  }

  /** Bitwise exclusive or. */
  function Xor(a: seq<bool>, b: seq<bool>): (r: seq<bool>)
    requires |a| == |b|
    ensures |r| == |a|
    ensures forall i :: 0 <= i < |a| ==> r[i] == (a[i] != b[i])
  {
    seq(|a|, i requires 0 <= i < |a| => a[i] != b[i])
  }

  lemma XorCancels(a: seq<bool>, b: seq<bool>)
    requires |a| == |b|
    ensures Xor(Xor(a, b), b) == a
  {}

  lemma XorZero(a: seq<bool>)
    ensures Xor(a, Fill(|a|, false)) == a
    ensures Xor(Fill(|a|, false), a) == a
    ensures Xor(a, a) == Fill(|a|, false)
  {}
}
