/** `_pydrofoil.bitvector`: an unsigned value of an exact width, and Sail's
    append operator `@`. */
module Bitvectors {

  function Pow2(n: nat): (r: nat)
    ensures r >= 1
  {
    if n == 0 then 1 else 2 * Pow2(n - 1)
  }

  lemma {:induction false} Pow2Add(a: nat, b: nat)
    ensures Pow2(a + b) == Pow2(a) * Pow2(b)
  {
    if a > 0 {
      Pow2Add(a - 1, b);
    }
  }

  /** `_pydrofoil.bitvector(width, value)`; `len(bv)` is `width` and
      `bv.unsigned()` is `value`. */
  datatype Bits = Bits(width: nat, value: nat)

  /** The value fits in the width: `0 <= value <= 2^width - 1`. */
  predicate Valid(b: Bits) {
    b.value < Pow2(b.width)
  }

  /** `2 ** 64`: the number of values of one 64-bit segment. */
  const SegmentSpan: nat := 0x1_0000_0000_0000_0000

  lemma SegmentSpanIsPow2()
    ensures Pow2(64) == SegmentSpan
  {
    Pow2Of32();
    Pow2Add(32, 32);
  }

  lemma Pow2Of32()
    ensures Pow2(32) == 0x1_0000_0000
  {
    Pow2Of16();
    Pow2Add(16, 16);
  }

  lemma Pow2Of16()
    ensures Pow2(16) == 0x1_0000
  {
    Pow2Of8();
    Pow2Add(8, 8);
  }

  lemma Pow2Of8()
    ensures Pow2(8) == 0x100
  {
    assert Pow2(4) == 16;
    Pow2Add(4, 4);
  }

  /** Every value below `2 ** 64` fits in a 64-bit vector. */
  lemma SegmentValid(value: nat)
    requires value < SegmentSpan
    ensures Valid(Bits(64, value))
  {
    SegmentSpanIsPow2();
  }

  /** `hi @ lo`: the bits of `hi` above the bits of `lo`. */
  function Concat(hi: Bits, lo: Bits): Bits {
    Bits(hi.width + lo.width, hi.value * Pow2(lo.width) + lo.value)
  }

  /** The low `k` bits of `b`. */
  function Low(b: Bits, k: nat): Bits
    requires k <= b.width
  {
    Bits(k, b.value % Pow2(k))
  }

  /** The bits of `b` above the low `k`. */
  function High(b: Bits, k: nat): Bits
    requires k <= b.width
  {
    DivNonNegative(b.value, Pow2(k));
    Bits(b.width - k, b.value / Pow2(k))
  }

  /** Euclidean division of a natural by a positive number is a natural. */
  lemma DivNonNegative(v: nat, p: nat)
    requires p > 0
    ensures v / p >= 0
  {
  }

  lemma MulLeq(a: nat, b: nat, c: nat)
    requires a <= b
    ensures a * c <= b * c
  {
    var d := b - a;
    assert b * c == a * c + d * c;
  }

  lemma FitsBelow(h: nat, l: nat, hb: nat, lb: nat)
    requires h < hb && l < lb
    ensures h * lb + l < hb * lb
  {
    MulLeq(h + 1, hb, lb);
  }

  /** Appending keeps both widths and the result fits in the summed width. */
  lemma ConcatValid(hi: Bits, lo: Bits)
    requires Valid(hi) && Valid(lo)
    ensures Concat(hi, lo).width == hi.width + lo.width
    ensures Valid(Concat(hi, lo))
  {
    Pow2Add(hi.width, lo.width);
    FitsBelow(hi.value, lo.value, Pow2(hi.width), Pow2(lo.width));
  }

  /** Splitting an appended vector at the width of its low part gives the
      two parts back: `@` loses nothing. */
  lemma SplitConcat(hi: Bits, lo: Bits)
    requires Valid(lo)
    ensures High(Concat(hi, lo), lo.width) == hi
    ensures Low(Concat(hi, lo), lo.width) == lo
  {
    DivModUnique(hi.value * Pow2(lo.width) + lo.value, Pow2(lo.width), hi.value, lo.value);
  }

  /** Quotient and remainder are determined by any decomposition. */
  lemma DivModUnique(v: nat, p: nat, q: nat, r: nat)
    requires p > 0 && r < p && v == q * p + r
    ensures v / p == q && v % p == r
  {
    var q', r' := v / p, v % p;
    assert v == q' * p + r';
    if q' < q {
      MulLeq(q' + 1, q, p);
    } else if q < q' {
      MulLeq(q + 1, q', p);
    }
  }

  /** Splitting and re-appending rebuilds the vector. */
  lemma ConcatSplit(b: Bits, k: nat)
    requires k <= b.width && Valid(b)
    ensures Valid(High(b, k)) && Valid(Low(b, k))
    ensures Concat(High(b, k), Low(b, k)) == b
  {
    Pow2Add(b.width - k, k);
    DivModParts(b.value, Pow2(k), Pow2(b.width - k));
  }

  lemma DivModParts(v: nat, p: nat, q: nat)
    requires p > 0 && v < q * p
    ensures v / p < q && v % p < p
    ensures (v / p) * p + v % p == v
  {
    if v / p >= q {
      MulLeq(q, v / p, p);
    }
  }

  /** The empty vector is a left unit of `@`: this is how the segment loops'
      first segment stands in for `result = None`. */
  lemma ConcatEmpty(b: Bits)
    ensures Concat(Bits(0, 0), b) == b
  {
  }

  /** Appending zero vectors gives a zero vector. */
  lemma ConcatZero(hi: Bits, lo: Bits)
    requires hi.value == 0 && lo.value == 0
    ensures Concat(hi, lo) == Bits(hi.width + lo.width, 0)
  {
  }

  /** `@` is associative, so appending segments one at a time builds the
      same vector whichever way the appends are grouped. */
  lemma ConcatAssoc(a: Bits, b: Bits, c: Bits)
    ensures Concat(Concat(a, b), c) == Concat(a, Concat(b, c))
  {
    Pow2Add(b.width, c.width);
    var pb, pc := Pow2(b.width), Pow2(c.width);
    Distribute(a.value * pb, b.value, pc);
    assert a.value * pb * pc == a.value * (pb * pc);
  }

  lemma Distribute(x: int, y: int, z: int)
    ensures (x + y) * z == x * z + y * z
  {
  }
}
