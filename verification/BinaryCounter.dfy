/** A sequence of bits, least significant first, read as a number and counted upwards. */
module BinaryCounter {

  function Pow2(n: nat): (p: nat)
    ensures p > 0
  {
    if n == 0 then 1 else 2 * Pow2(n - 1)
  }

  ghost function Number(bits: seq<bool>): nat {
    if bits == [] then 0 else (if bits[0] then 1 else 0) + 2 * Number(bits[1..])
  }

  ghost function Zero(n: nat): seq<bool> { seq(n, _ => false) }

  /** The ripple carry: clear the leading ones, set the first zero. */
  ghost function Increment(bits: seq<bool>): (next: seq<bool>)
    ensures |next| == |bits|
  {
    if bits == [] then []
    else if !bits[0] then [true] + bits[1..]
    else [false] + Increment(bits[1..])
  }

  lemma {:induction false} IncrementAt(bits: seq<bool>, k: nat)
    requires k < |bits| && !bits[k] && forall j :: 0 <= j < k ==> bits[j]
    ensures Increment(bits) == Zero(k) + [true] + bits[k + 1..]
  {
    if k > 0 {
      IncrementAt(bits[1..], k - 1);
      assert [false] + Zero(k - 1) == Zero(k);
      assert bits[1..][k..] == bits[k + 1..];
    }
  }

  lemma {:induction false} IncrementOverflow(bits: seq<bool>)
    requires forall j :: 0 <= j < |bits| ==> bits[j]
    ensures Increment(bits) == Zero(|bits|)
  {
    if bits != [] { IncrementOverflow(bits[1..]); }
  }

  lemma {:induction false} NumberBound(bits: seq<bool>)
    ensures Number(bits) < Pow2(|bits|)
  {
    if bits != [] { NumberBound(bits[1..]); }
  }

  lemma {:induction false} NumberOfZero(n: nat)
    ensures Number(Zero(n)) == 0
  {
    if n > 0 {
      assert Zero(n)[1..] == Zero(n - 1);
      NumberOfZero(n - 1);
    }
  }

  lemma {:induction false} NumberInjective(a: seq<bool>, b: seq<bool>)
    requires |a| == |b| && Number(a) == Number(b)
    ensures a == b
  {
    if a != [] {
      NumberInjective(a[1..], b[1..]);
      assert a == [a[0]] + a[1..] && b == [b[0]] + b[1..];
    }
  }

  /** Counting: plus one, modulo 2^n. */
  lemma {:induction false} IncrementAddsOne(bits: seq<bool>)
    ensures Number(Increment(bits)) == if Number(bits) + 1 < Pow2(|bits|) then Number(bits) + 1 else 0
    ensures (exists j :: 0 <= j < |bits| && !bits[j]) <==> Number(bits) + 1 < Pow2(|bits|)
  {
    NumberBound(bits);
    if bits != [] {
      IncrementAddsOne(bits[1..]);
      NumberBound(bits[1..]);
      assert Increment(bits)[1..] == if bits[0] then Increment(bits[1..]) else bits[1..];
      if bits[0] {
        if j :| 0 <= j < |bits| && !bits[j] { assert !bits[1..][j - 1]; }
        if j :| 0 <= j < |bits[1..]| && !bits[1..][j] { assert !bits[j + 1]; }
      }
    }
  }

  ghost function After(n: nat, k: nat): (bits: seq<bool>)
    ensures |bits| == n
  {
    if k == 0 then Zero(n) else Increment(After(n, k - 1))
  }

  lemma {:induction false} NumberAfter(n: nat, k: nat)
    requires k < Pow2(n)
    ensures Number(After(n, k)) == k
  {
    if k == 0 {
      NumberOfZero(n);
    } else {
      NumberAfter(n, k - 1);
      IncrementAddsOne(After(n, k - 1));
    }
  }

  /**
   Starting from zero, each of the 2^n bit patterns turns up at exactly one count below 2^n, the
   count its bits spell; the carry falls off the end at count 2^n and not before, back at zero.
   */
  lemma EnumeratesAll(n: nat, bits: seq<bool>)
    requires |bits| == n
    ensures forall k :: 0 <= k < Pow2(n) ==> (After(n, k) == bits <==> k == Number(bits))
    ensures 0 <= Number(bits) < Pow2(n)
    ensures (exists j :: 0 <= j < n && !bits[j]) <==> Number(bits) + 1 < Pow2(n)
    ensures After(n, Pow2(n)) == Zero(n)
  {
    NumberBound(bits);
    IncrementAddsOne(bits);
    forall k | 0 <= k < Pow2(n) ensures After(n, k) == bits <==> k == Number(bits) {
      NumberAfter(n, k);
      if k == Number(bits) { NumberInjective(After(n, k), bits); }
    }
    WrapsToZero(n);
  }

  lemma WrapsToZero(n: nat)
    ensures After(n, Pow2(n)) == Zero(n)
  {
    NumberAfter(n, Pow2(n) - 1);
    IncrementAddsOne(After(n, Pow2(n) - 1));
    NumberOfZero(n);
    NumberInjective(After(n, Pow2(n)), Zero(n));
  }
}
