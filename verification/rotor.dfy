/** A pointer that advances one slot at a time round a wheel of `total` slots, how often it stands
    inside a block of `width` slots, and blocks laid side by side round the wheel. */
module Rotor {
  function Advance(s: nat, total: nat): nat {
    if s + 1 == total then 0 else s + 1
  }

  /** The pointer `t` steps after `s`. */
  function Wheel(s: nat, t: nat, total: nat): (r: nat)
    requires s < total
    ensures r < total
  {
    if t == 0 then s else Advance(Wheel(s, t - 1, total), total)
  }

  /** How many of the `t` pointer positions from `s` on fall in the block `[off, off + width)`. */
  function Hits(s: nat, t: nat, total: nat, off: nat, width: nat): nat
    requires s < total
  {
    if t == 0 then 0
    else Hits(s, t - 1, total, off, width) + if off <= Wheel(s, t - 1, total) < off + width then 1 else 0
  }

  /** How far a pointer at `s` is into the block. */
  function Into(s: nat, off: nat, width: nat): int {
    if s < off then 0 else if s < off + width then s - off else width
  }

  /** The hits since slot 0 against the even rate `width / total`, scaled by `total`. */
  function Lead(s: nat, total: nat, off: nat, width: nat): int {
    total * Into(s, off, width) - s * width
  }

  lemma LeadStep(s: nat, total: nat, off: nat, width: nat)
    requires s < total && off + width <= total
    ensures Lead(Advance(s, total), total, off, width) ==
            Lead(s, total, off, width) + (if off <= s < off + width then total else 0) - width
  {
    var c := Into(s, off, width);
    if s + 1 == total {
      assert s * width == total * width - width;
      if off <= s < off + width {
        assert c == width - 1 && total * c == total * width - total;
      } else {
        assert c == width;
      }
    } else {
      assert (s + 1) * width == s * width + width;
      assert off <= s < off + width ==> Into(s + 1, off, width) == c + 1 && total * (c + 1) == total * c + total;
    }
  }

  /** How far `count` hits in `t` steps are from the even rate `width / total`, scaled by `total`. */
  function Error(total: nat, count: nat, t: nat, width: nat): int {
    total * count - t * width
  }

  lemma ErrorStep(total: nat, count: nat, t: nat, width: nat, hit: nat)
    requires hit <= 1
    ensures Error(total, count + hit, t + 1, width) == Error(total, count, t, width) + hit * total - width
  {
    assert total * (count + hit) == total * count + total * hit;
    assert (t + 1) * width == t * width + width;
  }

  lemma {:induction false} HitsAreLead(s: nat, t: nat, total: nat, off: nat, width: nat)
    requires s < total && off + width <= total
    ensures Error(total, Hits(s, t, total, off, width), t, width)
            == Lead(Wheel(s, t, total), total, off, width) - Lead(s, total, off, width)
  {
    hide Lead;
    if t > 0 {
      hide Error;
      HitsAreLead(s, t - 1, total, off, width);
      var at := Wheel(s, t - 1, total);
      LeadStep(at, total, off, width);
      ErrorStep(total, Hits(s, t - 1, total, off, width), t - 1, width, if off <= at < off + width then 1 else 0);
    }
  }

  lemma MulLe(a: int, b: int, c: int)
    requires a <= b && 0 <= c
    ensures a * c <= b * c
  {
  }

  lemma LeadBand(s: nat, total: nat, off: nat, width: nat)
    requires s < total && off + width <= total
    ensures -(off * width) <= Lead(s, total, off, width) <= (total - width) * width - off * width
  {
    MulLe(off, total - width, width);
    if s < off {
      MulLe(s, off, width);
    } else if s < off + width {
      LeadInside(s - off, total, off, width);
    } else {
      LeadBeyond(s, total, off, width);
    }
  }

  lemma LeadInside(d: nat, total: nat, off: nat, width: nat)
    requires d < width && off + width <= total
    ensures -(off * width) <= total * d - (off + d) * width <= (total - width) * width - off * width
  {
    assert (off + d) * width == off * width + d * width;
    assert (total - width) * d == total * d - width * d;
    MulLe(d, width, total - width);
    MulLe(0, d, total - width);
  }

  lemma LeadBeyond(s: nat, total: nat, off: nat, width: nat)
    requires off + width <= s < total
    ensures -(off * width) <= total * width - s * width <= (total - width) * width - off * width
  {
    MulLe(off + width, s, width);
    MulLe(s, total, width);
    assert (off + width) * width == off * width + width * width;
    assert (total - width) * width == total * width - width * width;
  }

  lemma HitsError(s: nat, t: nat, total: nat, off: nat, width: nat)
    requires s < total && off + width <= total
    ensures var error := Error(total, Hits(s, t, total, off, width), t, width);
            -((total - width) * width) <= error <= (total - width) * width
  {
    hide Error;
    hide Lead;
    HitsAreLead(s, t, total, off, width);
    LeadBand(s, total, off, width);
    LeadBand(Wheel(s, t, total), total, off, width);
  }

  lemma ErrorIs(total: nat, count: nat, t: nat, width: nat)
    ensures Error(total, count, t, width) == total * count - t * width
  {
  }

  /** Over any `t` consecutive positions the block's part of the wheel is met to within
      `width * (1 - width / total)`. */
  lemma HitsNearShare(s: nat, t: nat, total: nat, off: nat, width: nat)
    requires s < total && off + width <= total
    ensures -((total - width) * width) <= total * Hits(s, t, total, off, width) - t * width <= (total - width) * width
  {
    hide *;
    HitsError(s, t, total, off, width);
    ErrorIs(total, Hits(s, t, total, off, width), t, width);
  }

  lemma {:induction false} WheelIs(s: nat, t: nat, total: nat)
    requires s < total && t <= total
    ensures Wheel(s, t, total) == if s + t < total then s + t else s + t - total
  {
    if t > 0 {
      WheelIs(s, t - 1, total);
    }
  }

  /** One full turn of the wheel passes the whole block once. */
  lemma HitsFullTurn(s: nat, total: nat, off: nat, width: nat)
    requires s < total && off + width <= total
    ensures Hits(s, total, total, off, width) == width
  {
    HitsAreLead(s, total, total, off, width);
    WheelIs(s, total, total);
    var h := Hits(s, total, total, off, width);
    assert total * h == total * width;
    MulCancel(total, h, width);
  }

  lemma MulCancel(c: nat, a: int, b: int)
    requires c > 0 && c * a == c * b
    ensures a == b
  {
    if a < b {
      MulLe(a + 1, b, c);
    } else if b < a {
      MulLe(b + 1, a, c);
    }
  }

  // ----- Blocks laid out round the wheel -----

  /** Where block `p` starts when block `q` has width `ws[q]`. */
  function Off(ws: seq<nat>, p: nat): nat
    requires p <= |ws|
  {
    if p == 0 then 0 else Off(ws, p - 1) + ws[p - 1]
  }

  lemma {:induction false} OffMonotone(ws: seq<nat>, a: nat, b: nat)
    requires a <= b <= |ws|
    ensures Off(ws, a) <= Off(ws, b)
    ensures (forall q | a <= q < b :: ws[q] == 0) ==> Off(ws, a) == Off(ws, b)
  {
    if a < b {
      OffMonotone(ws, a, b - 1);
    }
  }

  /** Every block lies on the wheel. */
  lemma BlockFits(ws: seq<nat>, p: nat)
    requires p < |ws|
    ensures Off(ws, p) + ws[p] <= Off(ws, |ws|)
  {
    OffMonotone(ws, p + 1, |ws|);
  }

  /** A slot lies in one block only. */
  lemma OneBlock(ws: seq<nat>, p: nat, q: nat, slot: nat)
    requires p < |ws| && q < |ws|
    requires Off(ws, p) <= slot < Off(ws, p) + ws[p]
    ensures Off(ws, q) <= slot < Off(ws, q) + ws[q] <==> p == q
  {
    if p < q {
      OffMonotone(ws, p + 1, q);
    } else if q < p {
      OffMonotone(ws, q + 1, p);
    }
  }
}
