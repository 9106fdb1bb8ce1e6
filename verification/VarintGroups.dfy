/**
 Assembling an integer from 7-bit groups the way the readers do: each group is shifted, cut to the
 width and or-ed in. The sum of the cut groups is the spelled number modulo 2^32 or 2^64.
 */
module VarintGroups {
  import opened Wire

  /** What group `k` contributes: its seven bits, shifted by `7k`, with the overflow dropped. */
  ghost function Group(b: byte, k: nat, m: int): int
    requires m > 0
  {
    b % 128 * Pow128(k) % m
  }

  ghost function Low(s: seq<byte>, n: nat, m: int): int
    requires n <= |s| && m > 0
  {
    if n == 0 then 0 else Low(s, n - 1, m) + Group(s[n - 1], n - 1, m)
  }

  /** The number of groups that fit the width uncut. */
  function Whole(m: int): nat { if m == TWO32 then 4 else 9 }

  lemma {:induction false} ValueSnoc(raw: seq<byte>, b: byte)
    ensures Value(raw + [b]) == Value(raw) + b % 128 * Pow128(|raw|)
  {
    ValueAppend(raw, [b]);
    assert Value([b]) == b % 128;
  }

  lemma Powers()
    ensures Pow128(1) == 0x80 && Pow128(2) == 0x4000 && Pow128(3) == 0x20_0000 && Pow128(4) == 0x1000_0000
    ensures 16 * Pow128(4) == TWO32 && Pow128(9) == TWO63 && Pow128(5) == 8 * TWO32
  {
  }

  lemma {:induction false} PowMonotone(a: nat, b: nat)
    requires a <= b
    ensures Pow128(a) <= Pow128(b)
  {
    if a < b { PowMonotone(a, b - 1); }
  }

  lemma MulBound(g: nat, h: nat, p: nat)
    requires g <= h
    ensures 0 <= g * p <= h * p
  {
  }

  lemma WholeGroup(v: nat, g: nat, k: nat, m: int)
    requires m == TWO32 || m == TWO64
    requires k < Whole(m) && v < Pow128(k) && g < 128
    ensures v + g * Pow128(k) < Pow128(k + 1) <= m
  {
    assert Pow128(k + 1) == 128 * Pow128(k);
    PowMonotone(k + 1, Whole(m));
    Powers();
    hide Pow128;
    MulBound(g, 127, Pow128(k));
  }

  lemma CutGroup32(v: nat, g: nat)
    requires v < 0x1000_0000
    ensures (v + g * 0x1000_0000) % TWO32 == v + g * 0x1000_0000 % TWO32
  {
  }

  lemma CutGroup64(v: nat, g: nat)
    requires v < TWO63
    ensures (v + g * TWO63) % TWO64 == v + g * TWO63 % TWO64
  {
  }

  lemma {:induction false} LostGroup32(g: nat, k: nat)
    requires k >= 5
    ensures exists t: nat :: g * Pow128(k) == t * TWO32
  {
    if k == 5 {
      Powers();
      assert g * Pow128(5) == g * 8 * TWO32;
    } else {
      LostGroup32(g, k - 1);
      var t: nat :| g * Pow128(k - 1) == t * TWO32;
      var p := Pow128(k - 1);
      assert g * (128 * p) == 128 * (g * p);
      assert g * Pow128(k) == (128 * t) * TWO32;
    }
  }

  lemma LostMultiple(v: nat, x: nat, t: nat)
    requires x == t * TWO32
    ensures x % TWO32 == 0 && (v + x) % TWO32 == v % TWO32
  {
  }

  /** Or-ing in one more group keeps the low bits right. */
  lemma GroupAdds(v: nat, b: byte, k: nat, m: int)
    requires m == TWO32 || m == TWO64
    requires k <= Whole(m) ==> v < Pow128(k)
    requires m == TWO64 ==> k < 10
    ensures (v + b % 128 * Pow128(k)) % m == v % m + Group(b, k, m)
    ensures k < Whole(m) ==> v + b % 128 * Pow128(k) < Pow128(k + 1)
  {
    var g := b % 128;
    hide Pow128;
    if k < Whole(m) {
      WholeGroup(v, g, k, m);
      MulBound(0, g, Pow128(k));
      SmallMod(v, g * Pow128(k), m);
    } else if k > Whole(m) {
      LostGroup32(g, k);
      var t: nat :| g * Pow128(k) == t * TWO32;
      LostMultiple(v, g * Pow128(k), t);
    } else {
      EdgeGroup(v, g, m);
    }
  }

  /** The group that straddles the width. */
  lemma EdgeGroup(v: nat, g: nat, m: int)
    requires m == TWO32 || m == TWO64
    requires v < Pow128(Whole(m))
    ensures (v + g * Pow128(Whole(m))) % m == v % m + g * Pow128(Whole(m)) % m
  {
    Powers();
    hide Pow128;
    if m == TWO32 { CutGroup32(v, g); } else { CutGroup64(v, g); }
  }

  lemma SmallMod(v: nat, x: nat, m: int)
    requires v + x < m
    ensures v % m == v && x % m == x && (v + x) % m == v + x
  {
  }

  lemma {:induction false} LowIsValue(s: seq<byte>, n: nat, m: int)
    requires m == TWO32 || m == TWO64
    requires n <= |s| && n <= 10
    ensures Value(s[..n]) % m == Low(s, n, m)
    ensures n <= Whole(m) ==> Value(s[..n]) < Pow128(n)
  {
    hide Group;
    if n > 0 {
      LowIsValue(s, n - 1, m);
      assert s[..n] == s[..n - 1] + [s[n - 1]];
      ValueSnoc(s[..n - 1], s[n - 1]);
      GroupAdds(Value(s[..n - 1]), s[n - 1], n - 1, m);
    }
  }

  /** What the specification says once `k` continuation bytes have been seen. */
  lemma VarintHead(s: seq<byte>, k: nat, m: int)
    requires m == TWO32 || m == TWO64
    requires k <= 10 && k <= |s| && AllContinue(s[..k])
    ensures k == 10 ==> ReadVarint(s, m) == Err(Malformed)
    ensures k < 10 && |s| == k ==> ReadVarint(s, m) == Err(Truncated)
    ensures k < 10 && |s| > k && s[k] < 128 ==> ReadVarint(s, m) == Ok((Low(s, k + 1, m), k + 1))
    ensures k < 10 && |s| > k && s[k] >= 128 ==> AllContinue(s[..k + 1])
  {
    RawVarintSplits(s, 10, s[..k]);
    if k < 10 && |s| > k {
      LowIsValue(s, k + 1, m);
    }
  }

  /** The five shifts of the 32-bit readers: by 0, 7, 14, 21 and 28. */
  const WEIGHTS := [1, 0x80, 0x4000, 0x20_0000, 0x1000_0000]

  /** The last group is shifted unmasked; its continuation bit falls off the end. */
  lemma Groups32(b: byte, k: nat)
    ensures k < 4 ==> Group(b, k, TWO32) == b % 128 * WEIGHTS[k]
    ensures k == 4 ==> Group(b, k, TWO32) == b * WEIGHTS[k] % TWO32
    ensures k >= 5 ==> Group(b, k, TWO32) == 0
  {
    Powers();
    if k >= 5 {
      LostGroup32(b % 128, k);
      var t: nat :| b % 128 * Pow128(k) == t * TWO32;
      LostMultiple(0, b % 128 * Pow128(k), t);
    }
  }

  /** The reader of bare streams masks every group before it shifts. */
  lemma Shifted32(b: byte, k: nat)
    requires k < 5
    ensures Group(b, k, TWO32) == b % 128 * WEIGHTS[k] % TWO32
  {
    Powers();
  }
}
