/** The type-directed generator: `hypothesis_from_pydrofoil_type` and the
    default `gen_*` rules of `BasePydrofoilStrategies`. A strategy drawn
    with `draw` becomes a function from the remaining choices to a value and
    the choices left over. */
module Generator {
  import opened Results
  import opened Bitvectors
  import opened Entropy
  import opened SailTypes
  import opened Simulator
  import opened Segments

  /** `hypothesis_from_pydrofoil_type(t)` returns a strategy rather than
      failing its `assert False`. Element, field and constructor strategies
      are built eagerly, before anything is drawn; the element strategy of
      a fixed vector is built inside `gen_FVec`, once per element drawn. */
  predicate Buildable(t: Ty) {
    match t
    case Tuple(ts) => forall i :: 0 <= i < |ts| ==> Buildable(ts[i])
    case Struct(_, fs) => forall i :: 0 <= i < |fs| ==> Buildable(fs[i].typ)
    case Union(_, cs) => forall i :: 0 <= i < |cs| ==> Buildable(cs[i].payload)
    case Vec(of) => Buildable(of)
    case Other(_) => false
    case _ => true
  }

  lemma {:induction false} WellFormedBuildable(t: Ty)
    requires WellFormed(t)
    ensures Buildable(t)
  {
    match t
    case Tuple(ts) =>
      forall i | 0 <= i < |ts| ensures Buildable(ts[i]) {
        WellFormedBuildable(ts[i]);
      }
    case Struct(_, fs) =>
      forall i | 0 <= i < |fs| ensures Buildable(fs[i].typ) {
        WellFormedBuildable(fs[i].typ);
      }
    case Union(_, cs) =>
      forall i | 0 <= i < |cs| ensures Buildable(cs[i].payload) {
        WellFormedBuildable(cs[i].payload);
      }
    case Vec(of) =>
      WellFormedBuildable(of);
    case Other(_) =>
      assert false;
    case _ =>
  }

  /** The postcondition every generating function keeps: a value of the
      type, within the generator's value policy, drawn from the front of
      the choices. */
  ghost predicate Generated(m: Machine, r: Result<Drawn<Val>>, t: Ty, cs: Choices) {
    r.Ok? ==> Inhabits(m, r.value.value, t) && GenBounded(r.value.value) && Consumed(r.value.rest, cs)
  }

  /** Module-level `hypothesis_from_pydrofoil_type(typ, machine)`, drawn
      once. It builds a fresh `BasePydrofoilStrategies`, so no override
      applies here or to any nested type. */
  function Generate(m: Machine, t: Ty, cs: Choices): (r: Result<Drawn<Val>>)
    ensures Generated(m, r, t, cs)
    ensures !Buildable(t) ==> r == Err(Unsupported)
    ensures WellFormed(t) && r.Err? ==> r.error == Overrun
    decreases t, 2, 0
  {
    if WellFormed(t) then WellFormedBuildable(t); Draw(m, t, cs)
    else if Buildable(t) then Draw(m, t, cs)
    else Err(Unsupported)
  }

  /** Drawing from the strategy of the dispatch chain (lines 36-88): the
      rule of the one branch that matches. The branches test disjoint
      kinds of type, so their order does not matter here. */
  function Draw(m: Machine, t: Ty, cs: Choices): (r: Result<Drawn<Val>>)
    requires Buildable(t)
    ensures Generated(m, r, t, cs)
    ensures WellFormed(t) && r.Err? ==> r.error == Overrun
    decreases t, 1, 0
  {
    match t
    case FVec(_, _) => GenFVecValue(m, t, cs)
    case Tuple(_) => GenTuple(m, t, cs)
    case Struct(_, fs) =>
      if |fs| == 1 then Draw(m, fs[0].typ, cs) else GenStruct(m, t, cs)
    case Union(_, _) => GenUnion(m, t, cs)
    case Vec(_) => GenVec(m, t, cs)
    case Other(_) => Err(Unsupported)
    case _ => DrawScalar(m, t, cs)
  }

  /** A record with exactly one field is drawn exactly as its field's type
      (line 63): the same result from the same choices, error included. */
  lemma OneFieldDraw(m: Machine, name: string, f: Field, cs: Choices)
    ensures Generate(m, Struct(name, [f]), cs) == Generate(m, f.typ, cs)
  {
  }

  /** The branches of the dispatch chain for scalar types. */
  function DrawScalar(m: Machine, t: Ty, cs: Choices): (r: Result<Drawn<Val>>)
    requires Scalar(t)
    ensures Generated(m, r, t, cs)
    ensures WellFormed(t) && r.Err? ==> r.error == Overrun
  {
    match t
    case Bool =>
      var d :- GenBool(cs);
      Ok(Drawn(BoolVal(d.value), d.rest))
    case MachineInt =>
      var d :- GenMachineInt(cs);
      Ok(Drawn(IntVal(d.value), d.rest))
    case Int =>
      var d :- GenInt(cs);
      Ok(Drawn(IntVal(d.value), d.rest))
    case String =>
      var d :- GenString(cs);
      Ok(Drawn(StrVal(d.value), d.rest))
    case Enum(elements) =>
      var d :- GenEnum(elements, cs);
      Ok(Drawn(EnumVal(d.value), d.rest))
    case Unit => GenUnit(cs)
    case SmallFixedBitVector(_) => DrawBitVector(m, t, cs)
    case BigFixedBitVector(_) => DrawBitVector(m, t, cs)
    case GenericBitVector => DrawBitVector(m, t, cs)
  }

  /** The branches of the dispatch chain for the three bit-vector kinds. */
  function DrawBitVector(m: Machine, t: Ty, cs: Choices): (r: Result<Drawn<Val>>)
    requires t.SmallFixedBitVector? || t.BigFixedBitVector? || t.GenericBitVector?
    ensures Generated(m, r, t, cs)
    ensures WellFormed(t) && r.Err? ==> r.error == Overrun
  {
    match t
    case SmallFixedBitVector(w) =>
      var d :- GenBitvector(w, cs);
      Ok(Drawn(BV(d.value), d.rest))
    case BigFixedBitVector(w) =>
      var d :- GenBigBitvector(w, cs);
      Ok(Drawn(BV(d.value), d.rest))
    case GenericBitVector =>
      var d :- GenGenericBitvector(cs);
      Ok(Drawn(BV(d.value), d.rest))
  }

  /** `gen_bitvector`: a value in [0, 2^width - 1] at exactly that width. */
  function GenBitvector(width: nat, cs: Choices): (r: Result<Drawn<Bits>>)
    ensures r.Ok? <==> |cs| > 0
    ensures r.Err? ==> r.error == Overrun
    ensures r.Ok? ==> r.value.value.width == width && r.value.value.value <= Pow2(width) - 1
    ensures r.Ok? ==> r.value.rest == cs[1..]
  {
    var d :- DrawInt(0, Pow2(width) - 1, cs);
    Ok(Drawn(Bits(width, d.value), d.rest))
  }

  /** `gen_bigbitvector` as the evidently intended
      `self._help_gen_bigbitvector(draw, typ.width)`. */
  function GenBigBitvector(width: nat, cs: Choices): (r: Result<Drawn<Bits>>)
    ensures r.Ok? ==> r.value.value.width == width && Valid(r.value.value)
    ensures r.Ok? ==> |cs| >= SegmentCount(width) && r.value.rest == cs[SegmentCount(width)..]
    ensures width >= 64 ==> (r.Ok? <==> |cs| >= SegmentCount(width))
    ensures width >= 64 && r.Err? ==> r.error == Overrun
  {
    BigBits(width, cs)
  }

  /** What `gen_bigbitvector` receives: its type descriptor (a big
      bit-vector of some width), or the int it passes to itself at line 182. */
  datatype BigArg = TypeArg(width: nat) | IntArg(n: int)

  /** `gen_bigbitvector` as written: it calls itself with `typ.width`, and
      the nested call's `typ.width` is looked up on an int. */
  function GenBigBitvectorAsWritten(arg: BigArg, cs: Choices): (r: Result<Drawn<Bits>>)
    decreases arg.TypeArg?
  {
    match arg
    case TypeArg(w) => GenBigBitvectorAsWritten(IntArg(w), cs)
    case IntArg(_) => Err(AttributeError)
  }

  /** As written, no big bit-vector is ever generated; the intended rule
      generates the 80-bit vector from two segment choices. */
  lemma BigBitvectorAsWrittenFails(width: nat, cs: Choices)
    ensures GenBigBitvectorAsWritten(TypeArg(width), cs) == Err(AttributeError)
    ensures GenBigBitvector(80, [0, 0]) == Ok(Drawn(Bits(80, 0), []))
  {
    ZeroDrawIsDefault(None, 80, []);
    assert Zeros(SegmentCount(80)) + [] == [0, 0];
  }

  /** `gen_FVec` as a function of the choices: `k` more elements appended to
      `acc`, each drawn from a strategy built afresh for the element type.
      `gen_Vec` draws its elements the same way from its one, already built,
      element strategy. */
  function DrawRepeated(m: Machine, of: Ty, k: nat, acc: seq<Val>, cs: Choices): (r: Result<Drawn<seq<Val>>>)
    requires forall i :: 0 <= i < |acc| ==> Inhabits(m, acc[i], of) && GenBounded(acc[i])
    ensures r.Ok? ==> |r.value.value| == |acc| + k && r.value.value[..|acc|] == acc
    ensures r.Ok? ==> forall i :: 0 <= i < |r.value.value| ==>
      Inhabits(m, r.value.value[i], of) && GenBounded(r.value.value[i])
    ensures r.Ok? ==> Consumed(r.value.rest, cs)
    ensures (k == 0 || WellFormed(of)) && r.Err? ==> r.error == Overrun
    decreases of, 3, k
  {
    if k == 0 then Ok(Drawn(acc, cs))
    else
      var d :- Generate(m, of, cs);
      var r := DrawRepeated(m, of, k - 1, acc + [d.value], d.rest);
      if r.Ok? then ConsumedTrans(r.value.rest, d.rest, cs); r else r
  }

  /** One element drawn: the loop goes on with it appended. */
  lemma RepeatedStep(m: Machine, of: Ty, j: nat, acc: seq<Val>, x: Val, cs: Choices, tail: Choices)
    requires Generate(m, of, cs) == Ok(Drawn(x, tail))
    requires forall i :: 0 <= i < |acc| ==> Inhabits(m, acc[i], of) && GenBounded(acc[i])
    ensures forall i :: 0 <= i < |acc + [x]| ==> Inhabits(m, (acc + [x])[i], of) && GenBounded((acc + [x])[i])
    ensures DrawRepeated(m, of, j + 1, acc, cs) == DrawRepeated(m, of, j, acc + [x], tail)
  {
  }

  /** An element that cannot be drawn ends the loop with that error. */
  lemma RepeatedFails(m: Machine, of: Ty, j: nat, acc: seq<Val>, cs: Choices)
    requires Generate(m, of, cs).Err?
    requires forall i :: 0 <= i < |acc| ==> Inhabits(m, acc[i], of) && GenBounded(acc[i])
    ensures DrawRepeated(m, of, j + 1, acc, cs) == Err(Generate(m, of, cs).error)
  {
  }

  /** `gen_FVec`: the loop. */
  method GenFVec(m: Machine, of: Ty, length: nat, cs: Choices) returns (r: Result<Drawn<seq<Val>>>)
    ensures r == DrawRepeated(m, of, length, [], cs)
    ensures r.Ok? ==> |r.value.value| == length
    ensures r.Ok? ==> forall i :: 0 <= i < length ==> Inhabits(m, r.value.value[i], of)
  {
    var res: seq<Val> := [];
    var rest := cs;
    for i := 0 to length
      invariant |res| == i
      invariant forall j :: 0 <= j < |res| ==> Inhabits(m, res[j], of) && GenBounded(res[j])
      invariant DrawRepeated(m, of, length - i, res, rest) == DrawRepeated(m, of, length, [], cs)
    {
      var d := Generate(m, of, rest);
      var left: nat := length - i - 1;
      assert left + 1 == length - i;
      if d.Err? {
        RepeatedFails(m, of, left, res, rest);
        return Err(d.error);
      }
      RepeatedStep(m, of, left, res, d.value.value, rest, d.value.rest);
      res := res + [d.value.value];
      rest := d.value.rest;
    }
    r := Ok(Drawn(res, rest));
  }

  /** The list `gen_FVec` returns, as a value of the fixed vector type. */
  function GenFVecValue(m: Machine, t: Ty, cs: Choices): (r: Result<Drawn<Val>>)
    requires t.FVec?
    ensures Generated(m, r, t, cs)
    ensures WellFormed(t) && r.Err? ==> r.error == Overrun
    decreases t, 0, 0
  {
    var d :- DrawRepeated(m, t.of, t.length, [], cs);
    Ok(Drawn(ListVal(d.value), d.rest))
  }

  /** `gen_bool`. */
  function GenBool(cs: Choices): (r: Result<Drawn<bool>>)
    ensures r.Ok? <==> |cs| > 0
    ensures r.Err? ==> r.error == Overrun
    ensures r.Ok? ==> r.value.rest == cs[1..]
  {
    DrawBool(cs)
  }

  /** `gen_MachineInt`: the literal range is [-2 * 63, 2 * 63 - 1]. */
  function GenMachineInt(cs: Choices): (r: Result<Drawn<int>>)
    ensures r.Ok? <==> |cs| > 0
    ensures r.Err? ==> r.error == Overrun
    ensures r.Ok? ==> -126 <= r.value.value <= 125 && r.value.rest == cs[1..]
  {
    DrawInt(-2 * 63, 2 * 63 - 1, cs)
  }

  /** `gen_Int`: the same literal range as `gen_MachineInt`. */
  function GenInt(cs: Choices): (r: Result<Drawn<int>>)
    ensures r.Ok? <==> |cs| > 0
    ensures r.Err? ==> r.error == Overrun
    ensures r.Ok? ==> -126 <= r.value.value <= 125 && r.value.rest == cs[1..]
  {
    DrawInt(-2 * 63, 2 * 63 - 1, cs)
  }

  /** `k` more characters with code points in [0, 127] appended to `acc`. */
  function DrawAscii(k: nat, acc: string, cs: Choices): (r: Result<Drawn<string>>)
    requires forall i :: 0 <= i < |acc| ==> acc[i] as int <= 127
    ensures r.Ok? <==> |cs| >= k
    ensures r.Err? ==> r.error == Overrun
    ensures r.Ok? ==> |r.value.value| == |acc| + k && r.value.value[..|acc|] == acc
    ensures r.Ok? ==> forall i :: 0 <= i < |r.value.value| ==> r.value.value[i] as int <= 127
    ensures r.Ok? ==> r.value.rest == cs[k..]
    decreases k
  {
    if k == 0 then Ok(Drawn(acc, cs))
    else
      var d :- DrawInt(0, 127, cs);
      DrawAscii(k - 1, acc + [d.value as char], d.rest)
  }

  /** `gen_String`: text over the code points 0 to 127, of any length. */
  function GenString(cs: Choices): (r: Result<Drawn<string>>)
    ensures r.Err? ==> r.error == Overrun
    ensures r.Ok? ==> |cs| > 0 && |r.value.value| == cs[0]
    ensures r.Ok? ==> forall i :: 0 <= i < |r.value.value| ==> r.value.value[i] as int <= 127
    ensures r.Ok? ==> Consumed(r.value.rest, cs)
  {
    var n :- DrawNat(cs);
    DrawAscii(n.value, "", n.rest)
  }

  /** `gen_Enum`: one of the declared elements. */
  function GenEnum(elements: seq<string>, cs: Choices): (r: Result<Drawn<string>>)
    ensures r.Ok? <==> |elements| > 0 && |cs| > 0
    ensures r.Err? ==> r.error == (if |elements| > 0 then Overrun else InvalidArgument)
    ensures r.Ok? ==> r.value.value in elements && r.value.rest == cs[1..]
  {
    var d :- DrawInt(0, |elements| - 1, cs);
    Ok(Drawn(elements[d.value], d.rest))
  }

  /** `[draw(s) for s in strategies]` over element strategies. */
  function DrawEach(m: Machine, ts: seq<Ty>, cs: Choices): (r: Result<Drawn<seq<Val>>>)
    requires forall i :: 0 <= i < |ts| ==> Buildable(ts[i])
    ensures r.Ok? ==> |r.value.value| == |ts|
    ensures r.Ok? ==> forall i :: 0 <= i < |ts| ==>
      Inhabits(m, r.value.value[i], ts[i]) && GenBounded(r.value.value[i])
    ensures r.Ok? ==> Consumed(r.value.rest, cs)
    ensures (forall i :: 0 <= i < |ts| ==> WellFormed(ts[i])) && r.Err? ==> r.error == Overrun
    decreases ts, 0, 0
  {
    if ts == [] then Ok(Drawn([], cs))
    else
      var d :- Draw(m, ts[0], cs);
      var e :- DrawEach(m, ts[1..], d.rest);
      ConsumedTrans(e.rest, d.rest, cs);
      Ok(Drawn([d.value] + e.value, e.rest))
  }

  /** `[draw(s) for s in strategies]` over field strategies. */
  function DrawFields(m: Machine, fs: seq<Field>, cs: Choices): (r: Result<Drawn<seq<Val>>>)
    requires forall i :: 0 <= i < |fs| ==> Buildable(fs[i].typ)
    ensures r.Ok? ==> |r.value.value| == |fs|
    ensures r.Ok? ==> forall i :: 0 <= i < |fs| ==>
      Inhabits(m, r.value.value[i], fs[i].typ) && GenBounded(r.value.value[i])
    ensures r.Ok? ==> Consumed(r.value.rest, cs)
    ensures (forall i :: 0 <= i < |fs| ==> WellFormed(fs[i].typ)) && r.Err? ==> r.error == Overrun
    decreases fs, 0, 0
  {
    if fs == [] then Ok(Drawn([], cs))
    else
      var d :- Draw(m, fs[0].typ, cs);
      var e :- DrawFields(m, fs[1..], d.rest);
      ConsumedTrans(e.rest, d.rest, cs);
      Ok(Drawn([d.value] + e.value, e.rest))
  }

  /** `gen_Tuple`: one value per element type, in order. */
  function GenTuple(m: Machine, t: Ty, cs: Choices): (r: Result<Drawn<Val>>)
    requires t.Tuple? && Buildable(t)
    ensures Generated(m, r, t, cs)
    ensures r.Ok? ==> r.value.value.TupleVal?
    ensures WellFormed(t) && r.Err? ==> r.error == Overrun
    decreases t, 0, 0
  {
    var d :- DrawEach(m, t.elems, cs);
    Ok(Drawn(TupleVal(d.value), d.rest))
  }

  /** `gen_Struct`: one value per field in declaration order, then the
      record named `t.name` built from them. */
  function GenStruct(m: Machine, t: Ty, cs: Choices): (r: Result<Drawn<Val>>)
    requires t.Struct? && |t.fields| != 1 && Buildable(t)
    ensures Generated(m, r, t, cs)
    ensures r.Ok? ==> r.value.value.StructVal? && r.value.value.name == t.name
    ensures WellFormed(t) && r.Err? ==> r.error == Overrun
    decreases t, 0, 0
  {
    var d :- DrawFields(m, t.fields, cs);
    Ok(Drawn(BuildStruct(t.name, d.value), d.rest))
  }

  /** `gen_Union`: one constructor index, then the payload drawn from the
      strategy at that same index, unpacked into that constructor. */
  function GenUnion(m: Machine, t: Ty, cs: Choices): (r: Result<Drawn<Val>>)
    requires t.Union? && Buildable(t)
    ensures Generated(m, r, t, cs)
    ensures |t.constructors| == 0 ==> r == Err(InvalidArgument)
    ensures r.Ok? ==> |cs| > 0 && |t.constructors| > 0
    ensures r.Ok? ==>
      var i := cs[0] % |t.constructors|;
      r.value.value.UnionVal? && r.value.value.ctor == t.constructors[i].name
      && ArgsMatch(m, t.constructors[i].name, r.value.value.args, t.constructors[i].payload)
    ensures WellFormed(t) && r.Err? ==> r.error == Overrun
    decreases t, 0, 0
  {
    var ctors := t.constructors;
    var index :- DrawInt(0, |ctors| - 1, cs);
    var payload :- Draw(m, ctors[index.value].payload, index.rest);
    var v := BuildVariant(m, ctors[index.value].name, payload.value);
    BuildVariantFits(m, ctors[index.value].name, payload.value, ctors[index.value].payload);
    BuildVariantBounded(m, ctors[index.value].name, payload.value);
    ConsumedTrans(payload.rest, index.rest, cs);
    Ok(Drawn(v, payload.rest))
  }

  /** `gen_Vec`: a list of any length drawn from the element strategy. */
  function GenVec(m: Machine, t: Ty, cs: Choices): (r: Result<Drawn<Val>>)
    requires t.Vec? && Buildable(t)
    ensures Generated(m, r, t, cs)
    ensures r.Ok? ==> |cs| > 0 && r.value.value.ListVal? && |r.value.value.items| == cs[0]
    ensures WellFormed(t) && r.Err? ==> r.error == Overrun
    decreases t, 0, 0
  {
    var n :- DrawNat(cs);
    var d :- DrawRepeated(m, t.of, n.value, [], n.rest);
    Ok(Drawn(ListVal(d.value), d.rest))
  }

  /** `gen_Unit`: `()`, drawing nothing. */
  function GenUnit(cs: Choices): (r: Result<Drawn<Val>>)
    ensures r.Ok? && r.value.rest == cs && r.value.value == UnitVal
  {
    Ok(Drawn(UnitVal, cs))
  }

  /** `gen_genericbitvector`: a width with no upper bound, then a value at
      that width, from segments above 64 bits. */
  function GenGenericBitvector(cs: Choices): (r: Result<Drawn<Bits>>)
    ensures r.Err? ==> r.error == Overrun
    ensures r.Ok? ==> |cs| > 0 && r.value.value.width == cs[0] && Valid(r.value.value)
    ensures r.Ok? ==> Consumed(r.value.rest, cs)
  {
    var w :- DrawNat(cs);
    if w.value <= 64 then
      var d :- DrawInt(0, Pow2(w.value) - 1, w.rest);
      Ok(Drawn(Bits(w.value, d.value), d.rest))
    else
      var d :- GenBigBitvector(w.value, w.rest);
      Ok(d)
  }
}
