/** The one-byte time code of section 18.3 of RFC 3626 (src/olsr_clock.c): four bits of mantissa, four of exponent. */
module TimeCode {

  function Pow2(k: nat): (r: nat)
    ensures r >= 1
  {
    if k == 0 then 1 else 2 * Pow2(k - 1)
  }

  // How often t can be halved before it is below 62.
  function Halvings(t: nat): nat
  {
    if t < 62 then 0 else 1 + Halvings(t / 2)
  }

  // olsr_clock_encode_olsrv1, as a function of the number of halvings
  function Encode(t: nat): (r: nat)
    ensures r <= 0xff
  {
    var h := Halvings(t);
    if h == 0 then 0
    else if h - 1 > 15 then 0xff
    else
      MantissaOf(t);
      (t / Pow2(h + 1) - 15) * 16 + (h - 1)
  }

  // olsr_clock_decode_olsrv1
  function Decode(code: nat): nat
  {
    var a, b := code / 16, code % 16;
    if b >= 8 then (16 + a) * Pow2(b - 8) * 1000 else (16 + a) * 1000 / Pow2(8 - b)
  }

  lemma {:induction false} HalvingsMeans(t: nat)
    ensures t < 62 * Pow2(Halvings(t))
    ensures Halvings(t) > 0 ==> 62 * Pow2(Halvings(t) - 1) <= t
  {
    if t >= 62 {
      HalvingsMeans(t / 2);
    }
  }

  // The number of halvings is the only exponent that fits.
  lemma {:induction false} HalvingsUnique(t: nat, b: nat)
    requires 62 * Pow2(b) <= t < 124 * Pow2(b)
    ensures Halvings(t) == b + 1
  {
    if b > 0 {
      HalvingsUnique(t / 2, b - 1);
    } else {
      assert Halvings(t / 2) == 0;
    }
  }

  lemma {:induction false} PowSplit(i: nat, j: nat)
    ensures Pow2(i) * Pow2(j) == Pow2(i + j)
  {
    if i > 0 {
      PowSplit(i - 1, j);
    }
  }

  lemma Cancel(x: int, y: int, p: int)
    requires p >= 1
    ensures x * p < y * p ==> x < y
  {
  }

  // The mantissa u = 15 + a of a time t with exponent b, for p == 2^b.
  ghost predicate Mantissa(t: nat, p: nat, u: int)
  {
    15 <= u <= 30 && 4 * (u * p) <= t < 4 * (u * p) + 4 * p && 62 * p <= t < 124 * p
  }

  lemma {:induction false} Quotient(t: nat, m: nat)
    requires m >= 1
    ensures (t / m) * m <= t < (t / m) * m + m
  {
  }

  lemma {:induction false} MantissaFits(t: nat, p: nat)
    requires p >= 1 && 62 * p <= t < 124 * p
    ensures Mantissa(t, p, t / (4 * p))
  {
    var u := t / (4 * p);
    Quotient(t, 4 * p);
    assert u * (4 * p) == 4 * (u * p);
    Cancel(58, 4 * u, p);
    Cancel(4 * u, 124, p);
    assert (4 * u) * p == 4 * (u * p);
  }

  lemma {:induction false} MantissaOf(t: nat)
    requires Halvings(t) >= 1
    ensures Mantissa(t, Pow2(Halvings(t) - 1), t / Pow2(Halvings(t) + 1))
  {
    var h := Halvings(t);
    HalvingsMeans(t);
    MantissaFits(t, Pow2(h - 1));
    assert Pow2(h + 1) == 4 * Pow2(h - 1);
  }

  lemma {:induction false} CodeMantissa(t: nat, u: int, b: nat)
    requires b <= 15 && Mantissa(t, Pow2(b), u)
    ensures var code := (u - 15) * 16 + b; Mantissa(t, Pow2(code % 16), code / 16 + 15)
  {
    var code := (u - 15) * 16 + b;
    assert code / 16 == u - 15 && code % 16 == b;
  }

  lemma {:induction false} LongTime(t: nat)
    ensures t < 62 * Pow2(16) <==> Halvings(t) <= 16
  {
    HalvingsMeans(t);
    var h := Halvings(t);
    PowRises(h, 16);
    if h > 0 {
      PowRises(16, h - 1);
    }
  }

  ghost predicate Means(t: nat, code: nat)
  {
    if t < 62 then code == 0
    else if t < 62 * Pow2(16) then Mantissa(t, Pow2(code % 16), code / 16 + 15)
    else code == 0xff
  }

  // The mantissa fits four bits, the byte is exponent and mantissa, times below 62 are code 0 and long ones code 255.
  lemma {:induction false} EncodeMeans(t: nat)
    ensures Means(t, Encode(t))
  {
    LongTime(t);
    if 62 <= t < 62 * Pow2(16) {
      EncodeShort(t);
    }
  }

  lemma {:induction false} EncodeShort(t: nat)
    requires 1 <= Halvings(t) <= 16
    ensures Mantissa(t, Pow2(Encode(t) % 16), Encode(t) / 16 + 15)
  {
    MantissaOf(t);
    CodeMantissa(t, t / Pow2(Halvings(t) + 1), Halvings(t) - 1);
  }

  lemma {:induction false} PowRises(i: nat, j: nat)
    ensures i <= j ==> Pow2(i) <= Pow2(j)
    ensures i < j ==> 2 * Pow2(i) <= Pow2(j)
  {
    if i < j {
      PowRises(i, j - 1);
    }
  }

  // ---- what a code stands for ----

  // value is (16 + a) * 1000 / 256 scaled by p, rounded down.
  ghost predicate Scaled(value: nat, m: int, p: nat)
  {
    256 * value <= 1000 * (m * p) < 256 * value + 256
  }

  lemma {:induction false} ScaledDown(m: nat, r: nat, p: nat)
    requires r * p == 256 && r >= 1 && p >= 1
    ensures Scaled(m * 1000 / r, m, p)
  {
    var v := m * 1000 / r;
    Quotient(m * 1000, r);
    assert v * r * p == 256 * v;
    assert (v * r + r) * p == 256 * v + 256;
    assert m * 1000 * p == 1000 * (m * p);
    Times(v * r, m * 1000, p);
    Times(m * 1000 + 1, v * r + r, p);
  }

  lemma Times(x: int, y: int, p: int)
    requires p >= 1
    ensures x <= y ==> x * p <= y * p
  {
  }

  lemma {:induction false} DecodeMeans(code: nat)
    requires code <= 0xff
    ensures Scaled(Decode(code), code / 16 + 16, Pow2(code % 16))
  {
    var a, b := code / 16, code % 16;
    if b >= 8 {
      PowSplit(b - 8, 8);
      assert Pow2(8) == 256;
      var q, m := Pow2(b - 8), 16 + a;
      assert m * q * 1000 == 1000 * (m * q);
      assert m * (q * 256) == 256 * (m * q);
    } else {
      PowSplit(8 - b, b);
      assert Pow2(8) == 256;
      ScaledDown(16 + a, Pow2(8 - b), Pow2(b));
    }
  }

  // ---- the laws ----

  lemma {:induction false} DivIs(v: nat, q: nat, d: nat)
    requires d >= 1 && q * d <= v < q * d + d
    ensures v / d == q
  {
    var k := v / d;
    Quotient(v, d);
    assert (q + 1) * d == q * d + d && (k + 1) * d == k * d + d;
    Cancel(k, q + 1, d);
    Cancel(q, k + 1, d);
  }

  lemma {:induction false} ScaledRange(v: nat, m: int, p: nat)
    requires Scaled(v, m, p) && 16 <= m <= 31 && p >= 1
    ensures 62 * p <= v < 124 * p && 4 * (m * p) - 4 * p <= v < 4 * (m * p)
  {
    Times(16, m, p);
    Times(m, 31, p);
  }

  lemma {:induction false} MantissaBack(v: nat, a: nat, p: nat)
    requires a <= 15 && p >= 1 && Scaled(v, a + 16, p)
    ensures v / (4 * p) == a + 15
  {
    ScaledRange(v, a + 16, p);
    assert (a + 16) * p == (a + 15) * p + p;
    assert (a + 15) * (4 * p) == 4 * ((a + 15) * p);
    DivIs(v, a + 15, 4 * p);
  }

  // Encoding undoes decoding.
  lemma {:induction false} EncodeDecode(code: nat)
    requires code <= 0xff
    ensures Encode(Decode(code)) == code
  {
    var a, b, v := code / 16, code % 16, Decode(code);
    DecodeMeans(code);
    ScaledRange(v, a + 16, Pow2(b));
    HalvingsUnique(v, b);
    assert Pow2(b + 2) == 4 * Pow2(b);
    MantissaBack(v, a, Pow2(b));
  }

  // Times the code can hold come back within 5 percent.
  lemma {:induction false} WithinFivePercent(t: nat)
    requires 62 <= t < 62 * Pow2(16)
    ensures 95 * t <= 100 * Decode(Encode(t)) <= 105 * t
  {
    EncodeMeans(t);
    CloseCode(t, Encode(t));
  }

  lemma {:induction false} CloseCode(t: nat, code: nat)
    requires 62 <= t < 62 * Pow2(16) && code <= 0xff && Means(t, code)
    ensures 95 * t <= 100 * Decode(code) <= 105 * t
  {
    DecodeMeans(code);
    Close(t, Decode(code), code / 16 + 15, Pow2(code % 16));
  }

  lemma {:induction false} Close(t: nat, v: nat, u: int, p: nat)
    requires p >= 1 && Mantissa(t, p, u) && Scaled(v, u + 1, p)
    ensures 95 * t <= 100 * v <= 105 * t
  {
    var x := u * p;
    assert (u + 1) * p == x + p;
    Times(15, u, p);
  }

  // The value of a code before rounding, in units of 1000/256.
  ghost function Weight(code: nat): nat
  {
    (code / 16 + 16) * Pow2(code % 16)
  }

  lemma {:induction false} WeightRange(code: nat)
    requires code <= 0xff
    ensures 16 * Pow2(code % 16) <= Weight(code) <= 31 * Pow2(code % 16) <= Weight(0xff) && 16 <= Weight(code)
  {
    PowRises(code % 16, 15);
    Times(16, code / 16 + 16, Pow2(code % 16));
    Times(code / 16 + 16, 31, Pow2(code % 16));
  }

  lemma {:induction false} SameExponent(s: nat, t: nat, u: int, w: int, p: nat)
    requires p >= 1 && s <= t && Mantissa(s, p, u) && Mantissa(t, p, w)
    ensures u <= w && (u + 1) * p <= (w + 1) * p
  {
    assert (w + 1) * p == w * p + p;
    Cancel(u, w + 1, p);
    Times(u + 1, w + 1, p);
  }

  lemma {:induction false} WeightOrder(s: nat, t: nat, u: int, w: int, p: nat, q: nat)
    requires p >= 1 && q >= 1 && s <= t && Mantissa(s, p, u) && Mantissa(t, q, w)
      && (p == q || 2 * p <= q || 2 * q <= p)
    ensures (u + 1) * p <= (w + 1) * q
  {
    Times(u + 1, 31, p);
    Times(16, w + 1, q);
    if p == q {
      SameExponent(s, t, u, w, p);
    }
  }

  lemma {:induction false} WeightBoth(s: nat, t: nat, c: nat, d: nat)
    requires s <= t && Mantissa(s, Pow2(c % 16), c / 16 + 15) && Mantissa(t, Pow2(d % 16), d / 16 + 15)
    ensures Weight(c) <= Weight(d)
  {
    PowRises(c % 16, d % 16);
    PowRises(d % 16, c % 16);
    WeightOrder(s, t, c / 16 + 15, d / 16 + 15, Pow2(c % 16), Pow2(d % 16));
  }

  lemma {:induction false} WeightCases(s: nat, t: nat, c: nat, d: nat)
    requires s <= t && c <= 0xff && d <= 0xff && Means(s, c) && Means(t, d)
    ensures Weight(c) <= Weight(d)
  {
    if s < 62 {
      WeightRange(d);
    } else if 62 * Pow2(16) <= t {
      WeightRange(c);
    } else {
      WeightBoth(s, t, c, d);
    }
  }

  lemma {:induction false} WeightMonotone(s: nat, t: nat)
    requires s <= t
    ensures Weight(Encode(s)) <= Weight(Encode(t))
  {
    EncodeMeans(s);
    EncodeMeans(t);
    WeightCases(s, t, Encode(s), Encode(t));
  }

  // A longer time never comes back shorter.
  lemma {:induction false} Monotone(s: nat, t: nat)
    requires s <= t
    ensures Decode(Encode(s)) <= Decode(Encode(t))
  {
    DecodeMeans(Encode(s));
    DecodeMeans(Encode(t));
    WeightMonotone(s, t);
  }

  // A time that went through the code once comes back unchanged from then on.
  lemma {:induction false} Idempotent(t: nat)
    ensures Decode(Encode(Decode(Encode(t)))) == Decode(Encode(t))
  {
    EncodeDecode(Encode(t));
  }

  // The code saturates a little above an hour.
  lemma {:induction false} Saturates(t: nat)
    ensures t >= 62 * Pow2(16) ==> Encode(t) == 0xff
    ensures Decode(0xff) == 3_968_000
  {
    LongTime(t);
    assert Pow2(7) == 128;
  }

  // The loop of olsr_clock_encode_olsrv1
  method EncodeTime(interval: nat) returns (code: nat)
    ensures code == Encode(interval)
  {
    var a, b, unscaled := 0, 0, interval;
    while unscaled >= 62
      invariant b + Halvings(unscaled) == Halvings(interval)
      decreases unscaled
    {
      unscaled, b := unscaled / 2, b + 1;
    }
    if 0 < b {
      MantissaOf(interval);
      b := b - 1;
      if 15 < b {
        a, b := 15, 15;
      } else {
        a := interval / Pow2(b + 2) - 15;
      }
    }
    code := a * 16 + b;
  }
}
