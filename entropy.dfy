/** Hypothesis's `draw`, made explicit: every draw consumes choices from the
    front of a finite sequence of naturals and turns them into a value of the
    requested strategy. Running out of choices is an overrun. */
module Entropy {
  import opened Results

  type Choices = seq<nat>

  /** A drawn value together with the choices left after drawing it. */
  datatype Drawn<+T> = Drawn(value: T, rest: Choices)

  /** `rest` is what remains of `cs` after some choices were consumed from
      its front. */
  predicate Consumed(rest: Choices, cs: Choices) {
    |rest| <= |cs| && cs[|cs| - |rest|..] == rest
  }

  lemma ConsumedTrans(c: Choices, b: Choices, a: Choices)
    requires Consumed(c, b) && Consumed(b, a)
    ensures Consumed(c, a)
  {
    assert a[|a| - |c|..] == a[|a| - |b|..][|b| - |c|..];
  }

  /** `draw(st.integers(lo, hi))`. */
  function DrawInt(lo: int, hi: int, cs: Choices): (r: Result<Drawn<int>>)
    ensures r.Ok? <==> lo <= hi && |cs| > 0
    ensures r.Err? ==> r.error == (if lo <= hi then Overrun else InvalidArgument)
    ensures r.Ok? ==> lo <= r.value.value <= hi && r.value.rest == cs[1..]
  {
    if hi < lo then Err(InvalidArgument)
    else if |cs| == 0 then Err(Overrun)
    else Ok(Drawn(lo + cs[0] % (hi - lo + 1), cs[1..]))
  }

  /** `draw(st.integers(0))`: a natural with no upper bound. */
  function DrawNat(cs: Choices): (r: Result<Drawn<nat>>)
    ensures r.Ok? <==> |cs| > 0
    ensures r.Err? ==> r.error == Overrun
    ensures r.Ok? ==> r.value.value == cs[0] && r.value.rest == cs[1..]
  {
    if |cs| == 0 then Err(Overrun) else Ok(Drawn(cs[0], cs[1..]))
  }

  /** `draw(st.booleans())`. */
  function DrawBool(cs: Choices): (r: Result<Drawn<bool>>)
    ensures r.Ok? <==> |cs| > 0
    ensures r.Err? ==> r.error == Overrun
    ensures r.Ok? ==> r.value.rest == cs[1..]
  {
    if |cs| == 0 then Err(Overrun) else Ok(Drawn(cs[0] % 2 == 1, cs[1..]))
  }

  /** Every value of the range is reachable: the choice `v - lo` draws `v`. */
  lemma DrawIntReaches(lo: int, hi: int, v: int, rest: Choices)
    requires lo <= v <= hi
    ensures DrawInt(lo, hi, [v - lo] + rest) == Ok(Drawn(v, rest))
  {
    assert ([v - lo] + rest)[1..] == rest;
  }
}
