/** The 64-packet sliding replay filter (pkg/security/session.go:434-467), a bitmap
    refining a plain set of accepted sequence numbers. */
module Replay {

  const WINDOW: nat := 64

  type Seq32 = n: nat | n < 0x1_0000_0000

  /** The filter's meaning: `n` passes unless it was accepted before or some accepted
      number is a whole window ahead of it. */
  ghost predicate Fresh(accepted: set<nat>, n: nat)
  {
    forall x | x in accepted :: x != n && x < n + WINDOW
  }

  /** Numbers accepted after the arrivals `h`, in order. */
  ghost function Accepted(h: seq<nat>): set<nat>
  {
    if h == [] then {}
    else
      var before := Accepted(h[..|h| - 1]);
      var n := h[|h| - 1];
      if Fresh(before, n) then before + {n} else before
  }

  ghost function Arrived(h: seq<nat>): set<nat>
  {
    set x | x in h
  }

  /** Refused arrivals leave no trace that matters: the verdict depends on what arrived,
      whether or not it was accepted. */
  lemma {:induction false} VerdictFromArrivals(h: seq<nat>, n: nat)
    ensures Fresh(Accepted(h), n) <==> Fresh(Arrived(h), n)
  {
    if h != [] {
      var before, last := h[..|h| - 1], h[|h| - 1];
      assert h == before + [last];
      VerdictFromArrivals(before, n);
      assert Arrived(h) == Arrived(before) + {last};
      if !Fresh(Accepted(before), last) && Fresh(Arrived(before), n) {
        // `last` was refused, so an accepted number equals it or is a window ahead of it.
        VerdictFromArrivals(before, last);
        var x :| x in Arrived(before) && !(x != last && x < last + WINDOW);
        assert x != n && x < n + WINDOW;
      }
    }
  }

  // ----- Go's uint64 operators, by binary digits ------------------------------------

  const TWO64: nat := 0x1_0000_0000_0000_0000

  type Word64 = n: nat | n < TWO64

  function Pow2(k: nat): nat
    ensures Pow2(k) > 0
  {
    if k == 0 then 1 else 2 * Pow2(k - 1)
  }

  /** Digit d of b, counted from the low end. */
  predicate Bit(b: nat, d: nat)
  {
    if d == 0 then b % 2 == 1 else Bit(b / 2, d - 1)
  }

  function Or(x: nat, y: nat): nat
  {
    if x == 0 && y == 0 then 0
    else 2 * Or(x / 2, y / 2) + if x % 2 == 1 || y % 2 == 1 then 1 else 0
  }

  function And(x: nat, y: nat): nat
  {
    if x == 0 && y == 0 then 0
    else 2 * And(x / 2, y / 2) + if x % 2 == 1 && y % 2 == 1 then 1 else 0
  }

  /** `b << n`: as if b were shifted n times by one, dropping the digit that leaves. */
  function Shl(b: Word64, n: nat): Word64
  {
    if n == 0 then b else 2 * Shl(b, n - 1) % TWO64
  }

  lemma {:induction false} NoDigits(d: nat)
    ensures !Bit(0, d)
  {
    if d > 0 {
      NoDigits(d - 1);
    }
  }

  lemma {:induction false} OrDigit(x: nat, y: nat, d: nat)
    ensures Bit(Or(x, y), d) <==> Bit(x, d) || Bit(y, d)
  {
    if x == 0 && y == 0 {
      NoDigits(d);
    } else if d > 0 {
      assert Or(x, y) / 2 == Or(x / 2, y / 2);
      OrDigit(x / 2, y / 2, d - 1);
    }
  }

  lemma {:induction false} OrBound(x: nat, y: nat, k: nat)
    requires x < Pow2(k) && y < Pow2(k)
    ensures Or(x, y) < Pow2(k)
  {
    if k > 0 {
      OrBound(x / 2, y / 2, k - 1);
    }
  }

  lemma {:induction false} AndZero(x: nat)
    ensures And(x, 0) == 0
  {
    if x > 0 {
      AndZero(x / 2);
    }
  }

  /** Masking with 1 << d reads digit d. */
  lemma {:induction false} MaskReadsDigit(b: nat, d: nat)
    ensures And(b, Pow2(d)) != 0 <==> Bit(b, d)
  {
    if d == 0 {
      AndZero(b / 2);
    } else {
      assert Pow2(d) / 2 == Pow2(d - 1);
      MaskReadsDigit(b / 2, d - 1);
    }
  }

  /** Reducing modulo 2^k keeps the low k digits. */
  lemma {:induction false} LowDigits(x: nat, k: nat, d: nat)
    requires d < k
    ensures Bit(x % Pow2(k), d) <==> Bit(x, d)
  {
    var p := Pow2(k - 1);
    var q, r := x / 2 / p, x / 2 % p;
    assert x == 2 * p * q + (2 * r + x % 2);
    assert x % Pow2(k) == 2 * r + x % 2 by {
      Remainder(x, 2 * p, q, 2 * r + x % 2);
    }
    if d > 0 {
      LowDigits(x / 2, k - 1, d - 1);
    }
  }

  lemma Multiple(m: int, e: int)
    requires m > 0
    ensures e >= 1 ==> m * e >= m
    ensures e <= -1 ==> m * e <= -m
  {
  }

  lemma Remainder(x: nat, m: nat, q: nat, r: nat)
    requires m > 0 && r < m && x == m * q + r
    ensures x % m == r
  {
    var e := x / m - q;
    assert m * e == r - x % m;
    Multiple(m, e);
  }

  lemma {:induction false} PowersMultiply(m: nat, n: nat)
    ensures Pow2(m + n) == Pow2(m) * Pow2(n)
  {
    if m > 0 {
      PowersMultiply(m - 1, n);
    }
  }

  lemma Width()
    ensures Pow2(WINDOW) == TWO64
  {
    assert Pow2(2) == 4;
    PowersMultiply(2, 2);
    PowersMultiply(4, 4);
    PowersMultiply(8, 8);
    PowersMultiply(16, 16);
    PowersMultiply(32, 32);
  }

  lemma {:induction false} ShiftDigit(b: Word64, s: nat, d: nat)
    requires d < WINDOW
    ensures Bit(Shl(b, s), d) <==> s <= d && Bit(b, d - s)
  {
    if s > 0 {
      var h: nat := Shl(b, s - 1);
      Width();
      LowDigits(2 * h, WINDOW, d);
      if d > 0 {
        ShiftDigit(b, s - 1, d - 1);
      }
    }
  }

  lemma {:induction false} PowersGrow(k: nat, n: nat)
    requires k <= n
    ensures Pow2(k) <= Pow2(n)
  {
    if k < n {
      PowersGrow(k, n - 1);
    }
  }

  lemma {:induction false} ShiftedOne(d: nat)
    requires d < WINDOW
    ensures Shl(1, d) == Pow2(d)
  {
    if d > 0 {
      ShiftedOne(d - 1);
      Width();
      PowersGrow(d + 1, WINDOW);
    }
  }

  lemma {:induction false} OneDigit(d: nat)
    ensures Bit(1, d) <==> d == 0
  {
    if d > 0 {
      NoDigits(d - 1);
    }
  }

  lemma OrFits(x: Word64, y: Word64)
    ensures Or(x, y) < TWO64
  {
    Width();
    OrBound(x, y, WINDOW);
  }

  /** Sliding the window by s. */
  lemma Slid(bits: Word64, s: nat)
    requires 0 < s
    ensures Or(Shl(bits, s), 1) < TWO64
    ensures forall d: nat | d < WINDOW ::
              Bit(Or(Shl(bits, s), 1), d) <==> d == 0 || (s <= d && Bit(bits, d - s))
  {
    OrFits(Shl(bits, s), 1);
    forall d: nat | d < WINDOW
      ensures Bit(Or(Shl(bits, s), 1), d) <==> d == 0 || (s <= d && Bit(bits, d - s))
    {
      OrDigit(Shl(bits, s), 1, d);
      ShiftDigit(bits, s, d);
      OneDigit(d);
    }
  }

  /** Marking one number. */
  lemma Marked(bits: Word64, s: nat)
    requires s < WINDOW
    ensures Or(bits, Shl(1, s)) < TWO64
    ensures And(bits, Shl(1, s)) != 0 <==> Bit(bits, s)
    ensures forall d: nat | d < WINDOW :: Bit(Or(bits, Shl(1, s)), d) <==> d == s || Bit(bits, d)
  {
    OrFits(bits, Shl(1, s));
    ShiftedOne(s);
    MaskReadsDigit(bits, s);
    forall d: nat | d < WINDOW ensures Bit(Or(bits, Shl(1, s)), d) <==> d == s || Bit(bits, d) {
      OrDigit(bits, Shl(1, s), d);
      ShiftDigit(1, s, d);
      if s <= d {
        OneDigit(d - s);
      }
    }
  }

  lemma Reset()
    ensures forall d: nat | d < WINDOW :: Bit(1, d) <==> d == 0
  {
    forall d: nat | d < WINDOW ensures Bit(1, d) <==> d == 0 {
      OneDigit(d);
    }
  }

  // ----- The filter ---------------------------------------------------------------------

  class ReplayWindow {
    var initialized: bool
    var max: Seq32
    var bits: Word64
    /** What the bitmap stands for. */
    ghost var accepted: set<nat>

    ghost predicate Valid()
      reads this
    {
      if !initialized then accepted == {}
      else
        && max in accepted
        && (forall x | x in accepted :: x <= max)
        && (forall d: nat | d < WINDOW :: Bit(bits, d) <==> d <= max && max - d in accepted)
    }

    constructor ()
      ensures Valid() && accepted == {}
    {
      initialized, max, bits := false, 0, 0;
      accepted := {};
    }

    /** Accepts exactly the fresh numbers and remembers exactly the accepted ones. */
    method Accept(n: Seq32) returns (ok: bool)
      requires Valid()
      modifies this
      ensures Valid()
      ensures ok <==> Fresh(old(accepted), n)
      ensures accepted == if ok then old(accepted) + {n} else old(accepted)
    {
      if !initialized {
        initialized, max, bits := true, n, 1;
        accepted := {n};
        Reset();
        return true;
      }
      if n > max {
        var shift := n - max;
        if shift >= WINDOW {
          bits := 1;
          Reset();
        } else {
          Slid(bits, shift);
          bits := Or(Shl(bits, shift), 1);
        }
        max := n;
        accepted := accepted + {n};
        return true;
      }
      var delta := max - n;
      if delta >= WINDOW {
        return false;
      }
      Marked(bits, delta);
      if And(bits, Shl(1, delta)) != 0 {
        return false;
      }
      bits := Or(bits, Shl(1, delta));
      accepted := accepted + {n};
      return true;
    }
  }

  /** The bitmap filter over a whole history of arrivals: arrival i passes exactly when
      its number never arrived before and nothing a window ahead of it arrived before. */
  method Filter(h: seq<Seq32>) returns (verdicts: seq<bool>)
    ensures |verdicts| == |h|
    ensures forall i | 0 <= i < |h| :: verdicts[i] <==> Fresh(Arrived(h[..i]), h[i])
    ensures forall i, j | 0 <= i < j < |h| && verdicts[i] && verdicts[j] :: h[i] != h[j]
  {
    var w := new ReplayWindow();
    verdicts := [];
    assert h[..0] == [];
    while |verdicts| < |h|
      invariant |verdicts| <= |h|
      invariant fresh(w) && w.Valid()
      invariant w.accepted == Accepted(h[..|verdicts|])
      invariant forall i | 0 <= i < |verdicts| :: verdicts[i] <==> Fresh(Arrived(h[..i]), h[i])
    {
      var k := |verdicts|;
      var ok := w.Accept(h[k]);
      VerdictFromArrivals(h[..k], h[k]);
      assert h[..k + 1][..k] == h[..k];
      verdicts := verdicts + [ok];
    }
    forall i, j | 0 <= i < j < |h| && verdicts[i] && verdicts[j] ensures h[i] != h[j] {
      assert h[..j][i] == h[i];
      assert h[i] in Arrived(h[..j]);
    }
  }
}
