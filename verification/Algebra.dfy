/** Real arithmetic behind constant-product pricing, kept apart from the pools it is about. */
module Algebra {

  /** `out` is what `a` buys from a pool with input reserve `x` and net output reserve `k`. */
  ghost predicate Pays(out: real, a: real, x: real, k: real) {
    out * (x + a) == a * k
  }

  /** `q` is the quoted input for `b` from reserves `x`, `y` with the fee `f` charged on `b`. */
  ghost predicate Quotes(q: real, b: real, x: real, y: real, f: real) {
    q * (y - b) == b * x + b * f * (y - b)
  }

  lemma {:induction false} TimesKeepsOrder(p: real, q: real, k: real)
    requires k >= 0.0
    ensures p <= q ==> p * k <= q * k
    ensures p < q && k > 0.0 ==> p * k < q * k
  {
  }

  lemma {:induction false} ScaleCompare(p: real, q: real, k: real)
    requires k > 0.0
    ensures p < q <==> p * k < q * k
    ensures p == q <==> p * k == q * k
  {
    TimesKeepsOrder(p, q, k);
    TimesKeepsOrder(q, p, k);
  }

  lemma {:induction false} QuotientBelow(a: real, b: real, bound: real)
    requires b > 0.0
    ensures a / b < bound <==> a < bound * b
  {
    var q := a / b;
    assert q * b == a;
    ScaleCompare(q, bound, b);
  }

  lemma {:induction false} CancelFactor(b: real, s: real, t: real)
    requires b != 0.0
    ensures b * s == b * t <==> s == t
  {
    assert b * s - b * t == b * (s - t);
  }

  lemma {:induction false} QuotientPays(a: real, x: real, y: real, f: real)
    requires x + a > 0.0
    ensures var before := a / (x + a) * y; Pays(before - before * f, a, x, y - y * f)
  {
    var q := a / (x + a);
    assert q * (x + a) == a;
    calc {
      (q * y - q * y * f) * (x + a);
      q * (x + a) * (y - y * f);
    }
  }

  lemma {:induction false} QuotientQuotes(b: real, x: real, y: real, f: real)
    requires 0.0 < b < y && x > 0.0 && f >= 0.0
    ensures var q := b / (y - b) * x + b * f; q > 0.0 && Quotes(q, b, x, y, f)
  {
    var q := b / (y - b);
    assert q * (y - b) == b;
    TimesKeepsOrder(q, 0.0, y - b);
    TimesKeepsOrder(0.0, q, x);
    TimesKeepsOrder(0.0, b, f);
    calc {
      (q * x + b * f) * (y - b);
      q * (y - b) * x + b * f * (y - b);
    }
  }

  lemma {:induction false} PaysShare(out: real, a: real, x: real, k: real)
    ensures Pays(out, a, x, k) <==> out * x == a * (k - out)
  {
    assert out * (x + a) - a * k == out * x - a * (k - out);
  }

  lemma {:induction false} PaysWithin(out: real, a: real, x: real, k: real)
    requires Pays(out, a, x, k) && a > 0.0 && x > 0.0 && k > 0.0
    ensures 0.0 < out < k
  {
    PaysShare(out, a, x, k);
    var rest := k - out;
    assert out * x == rest * a;
    TimesKeepsOrder(out, 0.0, x);
    TimesKeepsOrder(0.0, out, x);
    TimesKeepsOrder(rest, 0.0, a);
    TimesKeepsOrder(0.0, rest, a);
  }

  lemma {:induction false} PaysMore(u: real, a: real, v: real, b: real, x: real, k: real)
    requires Pays(u, a, x, k) && Pays(v, b, x, k)
    requires 0.0 <= a < b && x > 0.0 && u < k
    ensures u < v
  {
    PaysShare(u, a, x, k);
    PaysShare(v, b, x, k);
    var gain, left := v - u, k - u;
    assert gain * (x + b) == (b - a) * left;
    TimesKeepsOrder(0.0, b - a, left);
    ScaleCompare(0.0, gain, x + b);
  }

  lemma {:induction false} SplitPaysMore(u: real, a: real, v: real, b: real, w: real, x: real, k: real)
    requires Pays(u, a, x, k) && Pays(v, b, x, k) && Pays(w, a + b, x, k)
    requires u < w && v < w && a > 0.0 && b > 0.0 && x > 0.0
    ensures w < u + v
  {
    PaysShare(u, a, x, k);
    PaysShare(v, b, x, k);
    PaysShare(w, a + b, x, k);
    var p, q, r := k - u, k - v, k - w;
    assert u * x == p * a && v * x == q * b && w * x == r * a + r * b;
    TimesKeepsOrder(r, p, a);
    TimesKeepsOrder(r, q, b);
    assert w * x < u * x + v * x == (u + v) * x;
    ScaleCompare(w, u + v, x);
  }

  lemma {:induction false} PaysAtLeast(out: real, a: real, x: real, k: real, b: real)
    requires Pays(out, a, x, k) && x + a > 0.0
    ensures b <= out <==> b * (x + a) <= a * k
  {
    ScaleCompare(out, b, x + a);
  }

  /** Without a fee the quote and the payment are inverse to each other. */
  lemma {:induction false} QuoteInvertsPayment(out: real, a: real, q: real, x: real, y: real)
    requires Pays(out, a, x, y) && Quotes(q, out, x, y, 0.0) && out < y
    ensures q == a
  {
    PaysShare(out, a, x, y);
    assert out * 0.0 * (y - out) == 0.0;
    ScaleCompare(q, a, y - out);
  }

  lemma {:induction false} PaymentInvertsQuote(b: real, q: real, out: real, x: real, y: real)
    requires Quotes(q, b, x, y, 0.0) && Pays(out, q, x, y) && x + q > 0.0
    ensures out == b
  {
    assert b * 0.0 * (y - b) == 0.0;
    PaysShare(b, q, x, y);
    ScaleCompare(out, b, x + q);
  }

  lemma {:induction false} QuoteMargin(x: real, y: real, f: real, a: real, b: real)
    requires Quotes(a, b, x, y, f)
    ensures var k := y - y * f;
            (a * k - b * (x + a)) * (y - b) == b * f * ((k - b) * (y - b) - x * y)
  {
    var k := y - y * f;
    calc {
      (a * k - b * (x + a)) * (y - b);
      a * (y - b) * (k - b) - b * x * (y - b);
      (b * x + b * f * (y - b)) * (k - b) - b * x * (y - b);
      b * x * (k - y) + b * f * ((y - b) * (k - b));
      { assert k - y == -(y * f); }
      b * f * ((k - b) * (y - b) - x * y);
    }
  }

  lemma {:induction false} MarginDecides(x: real, y: real, f: real, a: real, b: real)
    requires Quotes(a, b, x, y, f) && 0.0 < b < y && f >= 0.0
    ensures var k := y - y * f;
            b * (x + a) <= a * k <==> f == 0.0 || x * y <= (k - b) * (y - b)
  {
    var k := y - y * f;
    var need, slack := a * k - b * (x + a), (k - b) * (y - b) - x * y;
    QuoteMargin(x, y, f, a, b);
    SignOfProduct(need, y - b, b, f, slack);
  }

  lemma {:induction false} SignOfProduct(need: real, d: real, b: real, f: real, slack: real)
    requires need * d == b * f * slack && d > 0.0 && b > 0.0 && f >= 0.0
    ensures need >= 0.0 <==> f == 0.0 || slack >= 0.0
  {
    ScaleCompare(need, 0.0, d);
    if f > 0.0 {
      TimesKeepsOrder(0.0, b, f);
      ScaleCompare(slack, 0.0, b * f);
    } else {
      assert b * f * slack == 0.0;
    }
  }

  lemma {:induction false} QuoteSuffices(out: real, q: real, b: real, x: real, y: real, f: real, k: real)
    requires Pays(out, q, x, k) && Quotes(q, b, x, y, f) && k == y - y * f
    requires 0.0 < b < y && f >= 0.0 && x + q > 0.0
    ensures b <= out <==> f == 0.0 || x * y <= (k - b) * (y - b)
  {
    hide Pays, Quotes;
    PaysAtLeast(out, q, x, k, b);
    MarginDecides(x, y, f, q, b);
  }

  lemma {:induction false} SmallQuote(q: real, b: real, y: real)
    requires Quotes(q, b, 100.0, y, 0.0) && y >= 300.0 && 0.0 < b <= 1.0
    ensures q < 1.0
  {
    assert b * 0.0 * (y - b) == 0.0;
    TimesKeepsOrder(1.0, q, y - b);
  }

  /** A swap that keeps the fee `f` of the output in the pool never lowers the product. */
  lemma {:induction false} SwapKeepsProduct(out: real, a: real, x: real, y: real, f: real)
    requires Pays(out, a, x, y - f) && a > 0.0 && f >= 0.0
    ensures (x + a) * (y - out) >= x * y
  {
    TimesKeepsOrder(0.0, a, f);
    calc {
      (x + a) * (y - out);
      (x + a) * y - out * (x + a);
      (x + a) * y - a * (y - f);
      x * y + a * f;
    }
  }

  lemma {:induction false} SignCarries(u: real, d: real, b: real, c: real)
    requires u * d == b * c && d > 0.0 && b > 0.0
    ensures u > 0.0 <==> c > 0.0
  {
    ScaleCompare(0.0, u, d);
    ScaleCompare(0.0, c, b);
    assert 0.0 * d == 0.0 && 0.0 * b == 0.0 && c * b == b * c;
  }

  lemma {:induction false} QuoteSign(b: real, x: real, y: real, f: real)
    requires x > 0.0 && y > 0.0 && f >= 0.0 && b != y
    ensures b / (y - b) * x + b * f > 0.0 <==> b > 0.0 && (b < y || f * (b - y) > x)
  {
    var q, u := b / (y - b), b / (y - b) * x + b * f;
    assert q * (y - b) == b;
    if b < y {
      QuoteSignBelow(q, u, b, x, y, f);
    } else {
      QuoteSignAbove(q, u, b, x, y, f);
    }
  }

  lemma {:induction false} QuoteSignBelow(q: real, u: real, b: real, x: real, y: real, f: real)
    requires q * (y - b) == b && u == q * x + b * f && b < y && x > 0.0 && f >= 0.0
    ensures u > 0.0 <==> b > 0.0
  {
    var d := y - b;
    TimesKeepsOrder(0.0, f, d);
    calc {
      u * d;
      q * d * x + b * (f * d);
      (x + f * d) * b;
    }
    assert 0.0 * d == 0.0;
    SignCarries(u, d, x + f * d, b);
  }

  lemma {:induction false} QuoteSignAbove(q: real, u: real, b: real, x: real, y: real, f: real)
    requires q * (y - b) == b && u == q * x + b * f && b > y > 0.0
    ensures u > 0.0 <==> f * (b - y) > x
  {
    var d := b - y;
    assert q * d == -b;
    calc {
      u * d;
      q * d * x + b * (f * d);
      b * (f * d - x);
    }
    SignCarries(u, d, b, f * d - x);
  }

  /** `b` is bought by `a` or more exactly when the net reserve exceeds it and `a` is at least this much. */
  lemma {:induction false} PaysEnoughIff(out: real, a: real, x: real, k: real, b: real)
    requires Pays(out, a, x, k) && a > 0.0 && x > 0.0 && b > 0.0
    ensures b <= out <==> b < k && b * x / (k - b) <= a
  {
    PaysAtLeast(out, a, x, k, b);
    var need, rest := b * x, (k - b) * a;
    assert b * (x + a) - a * k == need - rest;
    TimesKeepsOrder(0.0, b, x);
    assert 0.0 * x == 0.0 && need > 0.0;
    if b < k {
      var q := need / (k - b);
      assert q * (k - b) == need && a * (k - b) == rest;
      ScaleCompare(a, q, k - b);
    } else {
      TimesKeepsOrder(k - b, 0.0, a);
      assert 0.0 * a == 0.0 && rest <= 0.0;
    }
  }

  lemma {:induction false} NeedPays(b: real, x: real, k: real)
    requires x > 0.0 && 0.0 < b < k
    ensures b * x / (k - b) > 0.0
  {
    var need := b * x / (k - b);
    assert need * (k - b) == b * x;
    TimesKeepsOrder(0.0, b, x);
    ScaleCompare(0.0, need, k - b);
  }

  lemma {:induction false} NeedIsExact(out: real, b: real, x: real, k: real)
    requires x > 0.0 && 0.0 < b < k && Pays(out, b * x / (k - b), x, k)
    ensures out == b
  {
    var need := b * x / (k - b);
    assert need * (k - b) == b * x;
    NeedPays(b, x, k);
    assert b * (x + need) == need * k;
    ScaleCompare(out, b, x + need);
  }

  // ----- Quotes folded over several hops --------------------------------------------------------

  /** `u` is the quote for `b` over hops whose input and output products are `x`, `y`, with slope `s`. */
  ghost predicate Folds(u: real, b: real, x: real, y: real, s: real) {
    u * (y - b * s) == b * x
  }

  lemma {:induction false} FoldsStep(v: real, b: real, x: real, y: real, s: real, hx: real, hy: real)
    requires Folds(v, b, x, y, s) && hy != v
    ensures Folds(v / (hy - v) * hx + v * 0.0, b, x * hx, y * hy, s * hy + x)
  {
    var q := v / (hy - v);
    assert q * (hy - v) == v;
    calc {
      y * hy - b * (s * hy + x);
      hy * (y - b * s) - b * x;
      (hy - v) * (y - b * s);
    }
    calc {
      q * hx * ((hy - v) * (y - b * s));
      q * (hy - v) * (y - b * s) * hx;
      b * x * hx;
    }
  }

  lemma {:induction false} FoldsDecide(u: real, v: real, b: real, x: real, y: real, s: real, t: real)
    requires Folds(u, b, x, y, s) && Folds(v, b, x, y, t)
    requires b > 0.0 && x > 0.0
    ensures u == v <==> s == t
  {
    var d, e := y - b * s, y - b * t;
    TimesKeepsOrder(0.0, b, x);
    assert b * x > 0.0 && u * d == b * x && v * e == b * x;
    CancelFactor(u, d, e);
    CancelFactor(d, u, v);
    CancelFactor(b, s, t);
  }
}
