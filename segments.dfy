/** Big bit-vectors composed from 64-bit segments: `_help_gen_bigbitvector`
    draws them, `_gen_huge_bitvector_default` fills them with zeros. Both
    loops start from `result = None` and append with `@`, so the first
    segment drawn is the most significant one. */
module Segments {
  import opened Results
  import opened Bitvectors
  import opened Entropy

  /** The number of segments a loop appends for `remaining` bits: whole
      64-bit segments, then one of 1 to 63 bits if any are left. */
  function SegmentCount(remaining: nat): nat {
    if remaining >= 64 then 1 + SegmentCount(remaining - 64)
    else if remaining > 0 then 1
    else 0
  }

  function WidthOf(acc: Option<Bits>): nat {
    if acc.None? then 0 else acc.value.width
  }

  predicate ValidOpt(acc: Option<Bits>) {
    acc.None? || Valid(acc.value)
  }

  /** `result = bv if result is None else result @ bv`. */
  function Append(acc: Option<Bits>, bv: Bits): Bits {
    if acc.None? then bv else Concat(acc.value, bv)
  }

  lemma AppendValid(acc: Option<Bits>, bv: Bits)
    requires ValidOpt(acc) && Valid(bv)
    ensures Append(acc, bv).width == WidthOf(acc) + bv.width
    ensures Valid(Append(acc, bv))
  {
    if acc.Some? {
      ConcatValid(acc.value, bv);
    }
  }

  /** What `_help_gen_bigbitvector` returns when its loop holds `acc` and
      has `remaining` bits left to draw. A final partial segment appended
      to `None`, and `len(None)`, raise `TypeError`. */
  function DrawSegments(acc: Option<Bits>, remaining: nat, cs: Choices): (r: Result<Drawn<Bits>>)
    requires ValidOpt(acc)
    ensures r.Ok? <==> (acc.Some? || remaining >= 64) && |cs| >= SegmentCount(remaining)
    ensures r.Err? && (acc.Some? || remaining >= 64) ==> r.error == Overrun
    ensures r.Ok? ==> r.value.value.width == WidthOf(acc) + remaining && Valid(r.value.value)
    ensures r.Ok? ==> r.value.rest == cs[SegmentCount(remaining)..]
    decreases remaining
  {
    if remaining >= 64 then
      var d :- DrawInt(0, SegmentSpan - 1, cs);
      SegmentValid(d.value);
      AppendValid(acc, Bits(64, d.value));
      DrawSegments(Some(Append(acc, Bits(64, d.value))), remaining - 64, d.rest)
    else if remaining > 0 then
      var d :- DrawInt(0, Pow2(remaining) - 1, cs);
      if acc.None? then Err(TypeError)
      else
        AppendValid(acc, Bits(remaining, d.value));
        Ok(Drawn(Append(acc, Bits(remaining, d.value)), d.rest))
    else if acc.None? then Err(TypeError)
    else Ok(Drawn(acc.value, cs))
  }

  /** The value `_help_gen_bigbitvector(draw, width)` returns. */
  function BigBits(width: nat, cs: Choices): Result<Drawn<Bits>> {
    DrawSegments(None, width, cs)
  }

  /** A big bit-vector has exactly the requested width, fits in it, and
      consumes one choice per segment; it fails only by running out of
      choices. Below 64 bits the loop never leaves `None` and fails. */
  lemma BigBitsShape(width: nat, cs: Choices)
    ensures width >= 64 ==> (BigBits(width, cs).Ok? <==> |cs| >= SegmentCount(width))
    ensures width >= 64 && BigBits(width, cs).Err? ==> BigBits(width, cs).error == Overrun
    ensures width < 64 ==> BigBits(width, cs).Err?
    ensures BigBits(width, cs).Ok? ==>
      var b := BigBits(width, cs).value.value;
      b.width == width && b.value < Pow2(width)
  {
  }

  /** `_help_gen_bigbitvector`: the loop itself. */
  method HelpGenBigBitvector(width: nat, cs: Choices) returns (r: Result<Drawn<Bits>>)
    ensures r == BigBits(width, cs)
    ensures r.Ok? ==> r.value.value.width == width && Valid(r.value.value)
  {
    var remainingWidth := width;
    var result: Option<Bits> := None;
    var rest := cs;
    ghost var segments := 0;
    while remainingWidth >= 64
      invariant width == 64 * segments + remainingWidth
      invariant result.None? <==> segments == 0
      invariant result.Some? ==> result.value.width == width - remainingWidth && Valid(result.value)
      invariant DrawSegments(result, remainingWidth, rest) == DrawSegments(None, width, cs)
      decreases remainingWidth
    {
      var d := DrawInt(0, SegmentSpan - 1, rest);
      if d.Err? {
        return Err(d.error);
      }
      var bv := Bits(64, d.value.value);
      SegmentValid(bv.value);
      ConcatValid(if result.Some? then result.value else bv, bv);
      if result.None? {
        result := Some(bv);
      } else {
        result := Some(Concat(result.value, bv));
      }
      remainingWidth := remainingWidth - 64;
      rest := d.value.rest;
      segments := segments + 1;
    }
    if remainingWidth != 0 {
      var d := DrawInt(0, Pow2(remainingWidth) - 1, rest);
      if d.Err? {
        return Err(d.error);
      }
      if result.None? {
        return Err(TypeError);
      }
      var bv := Bits(remainingWidth, d.value.value);
      ConcatValid(result.value, bv);
      result := Some(Concat(result.value, bv));
      rest := d.value.rest;
      remainingWidth := 0;
    }
    if result.None? {
      return Err(TypeError);
    }
    r := Ok(Drawn(result.value, rest));
  }

  /** What `_gen_huge_bitvector_default` returns when its loop holds `acc`
      and has `remaining` bits left to fill with zeros. */
  function ZeroSegments(acc: Option<Bits>, remaining: nat): (r: Result<Bits>)
    ensures r.Ok? <==> acc.Some? || remaining >= 64
    ensures r.Err? ==> r.error == TypeError
    ensures r.Ok? && (acc.None? || acc.value.value == 0) ==> r.value == Bits(WidthOf(acc) + remaining, 0)
    decreases remaining
  {
    if remaining >= 64 then ZeroSegments(Some(Append(acc, Bits(64, 0))), remaining - 64)
    else if remaining > 0 then
      if acc.None? then Err(TypeError) else Ok(Append(acc, Bits(remaining, 0)))
    else if acc.None? then Err(TypeError)
    else Ok(acc.value)
  }

  /** The value `_gen_huge_bitvector_default(width)` returns. */
  function HugeZero(width: nat): Result<Bits> {
    ZeroSegments(None, width)
  }

  /** `_gen_huge_bitvector_default`: the loop itself. */
  method HugeBitvectorDefault(width: nat) returns (r: Result<Bits>)
    ensures r == HugeZero(width)
    ensures r.Ok? <==> width >= 64
    ensures r.Ok? ==> r.value == Bits(width, 0)
  {
    var remainingWidth := width;
    var result: Option<Bits> := None;
    ghost var segments := 0;
    while remainingWidth >= 64
      invariant width == 64 * segments + remainingWidth
      invariant result.None? <==> segments == 0
      invariant result.Some? ==> result.value == Bits(width - remainingWidth, 0)
      invariant ZeroSegments(result, remainingWidth) == ZeroSegments(None, width)
      decreases remainingWidth
    {
      var bv := Bits(64, 0);
      if result.None? {
        result := Some(bv);
      } else {
        result := Some(Concat(result.value, bv));
      }
      remainingWidth := remainingWidth - 64;
      segments := segments + 1;
    }
    if remainingWidth != 0 {
      if result.None? {
        return Err(TypeError);
      }
      result := Some(Concat(result.value, Bits(remainingWidth, 0)));
      remainingWidth := 0;
    }
    if result.None? {
      return Err(TypeError);
    }
    r := Ok(result.value);
  }

  function Zeros(n: nat): (r: Choices)
    ensures |r| == n && forall i :: 0 <= i < n ==> r[i] == 0
  {
    if n == 0 then [] else [0] + Zeros(n - 1)
  }

  /** Both loops append in the same order: drawing every segment as zero
      builds exactly the default. */
  lemma {:induction false} ZeroDrawIsDefault(acc: Option<Bits>, remaining: nat, rest: Choices)
    requires ValidOpt(acc)
    requires acc.Some? || remaining >= 64
    ensures ZeroSegments(acc, remaining).Ok?
    ensures DrawSegments(acc, remaining, Zeros(SegmentCount(remaining)) + rest)
         == Ok(Drawn(ZeroSegments(acc, remaining).value, rest))
    decreases remaining
  {
    var cs := Zeros(SegmentCount(remaining)) + rest;
    if remaining >= 64 {
      assert cs[0] == 0 && cs[1..] == Zeros(SegmentCount(remaining - 64)) + rest;
      AppendValid(acc, Bits(64, 0));
      ZeroDrawIsDefault(Some(Append(acc, Bits(64, 0))), remaining - 64, rest);
    } else if remaining > 0 {
      assert cs[0] == 0 && cs[1..] == rest;
    } else {
      assert cs == rest;
    }
  }
}
