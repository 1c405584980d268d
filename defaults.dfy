/** `default_value` and its helpers `_gen_huge_bitvector_default` and
    `gen_Union_default`: a zero-like value of a Sail type, computed by
    structural recursion without drawing anything. */
module Defaults {
  import opened Results
  import opened Bitvectors
  import opened SailTypes
  import opened Simulator
  import opened Segments

  /** "Zero-like or empty": every bit-vector is zero, every boolean false,
      every integer 0 and every string empty, all the way down. */
  ghost predicate ZeroLike(v: Val) {
    match v
    case BV(b) => b.value == 0
    case BoolVal(b) => !b
    case IntVal(i) => i == 0
    case StrVal(s) => s == ""
    case EnumVal(_) => true
    case TupleVal(xs) => forall k :: 0 <= k < |xs| ==> ZeroLike(xs[k])
    case ListVal(xs) => forall k :: 0 <= k < |xs| ==> ZeroLike(xs[k])
    case StructVal(_, xs) => forall k :: 0 <= k < |xs| ==> ZeroLike(xs[k])
    case UnionVal(_, xs) => forall k :: 0 <= k < |xs| ==> ZeroLike(xs[k])
  }

  /** A zero-like value lies within the generator's value policy. */
  lemma {:induction false} ZeroLikeBounded(v: Val)
    requires ZeroLike(v)
    ensures GenBounded(v)
  {
    match v
    case TupleVal(xs) =>
      forall k | 0 <= k < |xs| ensures GenBounded(xs[k]) { ZeroLikeBounded(xs[k]); }
    case ListVal(xs) =>
      forall k | 0 <= k < |xs| ensures GenBounded(xs[k]) { ZeroLikeBounded(xs[k]); }
    case StructVal(_, xs) =>
      forall k | 0 <= k < |xs| ensures GenBounded(xs[k]) { ZeroLikeBounded(xs[k]); }
    case UnionVal(_, xs) =>
      forall k | 0 <= k < |xs| ensures GenBounded(xs[k]) { ZeroLikeBounded(xs[k]); }
    case _ =>
  }

  /** `[cls for (cls, constructor_typ) in typ.constructors]`. */
  function Names(cs: seq<Constructor>): (r: seq<string>)
    ensures |r| == |cs| && forall i :: 0 <= i < |cs| ==> r[i] == cs[i].name
  {
    if cs == [] then [] else [cs[0].name] + Names(cs[1..])
  }

  /** `gen_Union_default`: the variant of the first constructor, built from
      the first value; no constructor at all is an `IndexError`. */
  function GenUnionDefault(m: Machine, classes: seq<string>, values: seq<Val>): (r: Result<Val>)
    requires |classes| == |values|
    ensures r.Ok? <==> |classes| > 0
    ensures r.Err? ==> r.error == IndexError
    ensures r.Ok? ==> r.value.UnionVal? && r.value.ctor == classes[0]
    ensures r.Ok? && ZeroLike(values[0]) ==> ZeroLike(r.value)
  {
    if |classes| == 0 then Err(IndexError)
    else Ok(BuildVariant(m, classes[0], values[0]))
  }

  /** The exceptions `default_value` can raise; it draws nothing, so it
      never runs out of choices. */
  predicate DefaultError(e: Error) {
    e == Unsupported || e == IndexError || e == TypeError
  }

  /** `default_value(typ, machine)`. It fails exactly on the types some
      branch cannot handle: an unmatched type (`assert False`), an empty
      enum or union (`IndexError`), a big bit-vector under 64 bits, which
      `_gen_huge_bitvector_default` cannot start (`TypeError`). */
  function Default(m: Machine, t: Ty): (r: Result<Val>)
    ensures r.Ok? <==> WellFormed(t)
    ensures r.Ok? ==> Inhabits(m, r.value, t) && ZeroLike(r.value)
    ensures r.Err? ==> DefaultError(r.error)
    decreases t, 2
  {
    match t
    case FVec(of, n) =>
      var d :- Default(m, of);
      Ok(ListVal(seq(n, _ => d)))
    case Tuple(ts) =>
      var vs :- DefaultEach(m, ts);
      Ok(TupleVal(vs))
    case Struct(_, fs) =>
      if |fs| == 1 then Default(m, fs[0].typ) else DefaultStructValue(m, t)
    case Union(_, _) => DefaultUnionValue(m, t)
    case Vec(of) =>
      var d :- Default(m, of);
      Ok(ListVal([d]))
    case Other(_) => Err(Unsupported)
    case _ => DefaultScalar(t)
  }

  /** The defaults of the types with no type nested inside them. */
  function DefaultScalar(t: Ty): (r: Result<Val>)
    requires Scalar(t)
    ensures r.Ok? <==> WellFormed(t)
    ensures r.Ok? ==> (forall m :: Inhabits(m, r.value, t)) && ZeroLike(r.value)
    ensures r.Err? ==> DefaultError(r.error)
  {
    match t
    case SmallFixedBitVector(w) => Ok(BV(Bits(w, 0)))
    case BigFixedBitVector(w) =>
      var b :- HugeZero(w);
      Ok(BV(b))
    case Bool => Ok(BoolVal(false))
    case MachineInt => Ok(IntVal(0))
    case Int => Ok(IntVal(0))
    case String => Ok(StrVal(""))
    case Enum(elements) =>
      if |elements| == 0 then Err(IndexError) else Ok(EnumVal(elements[0]))
    case Unit => Ok(UnitVal)
    case GenericBitVector => Ok(BV(Bits(1, 0)))
  }

  /** The record named `t.name`, built from its fields' defaults. */
  function DefaultStructValue(m: Machine, t: Ty): (r: Result<Val>)
    requires t.Struct? && |t.fields| != 1
    ensures r.Ok? <==> WellFormed(t)
    ensures r.Ok? ==> Inhabits(m, r.value, t) && ZeroLike(r.value)
    ensures r.Err? ==> DefaultError(r.error)
    decreases t, 0
  {
    var vs :- DefaultFields(m, t.fields);
    Ok(BuildStruct(t.name, vs))
  }

  /** The union branch: every payload's default, then `gen_Union_default`. */
  function DefaultUnionValue(m: Machine, t: Ty): (r: Result<Val>)
    requires t.Union?
    ensures r.Ok? <==> WellFormed(t)
    ensures r.Ok? ==> Inhabits(m, r.value, t) && ZeroLike(r.value)
    ensures r.Err? ==> DefaultError(r.error)
    decreases t, 0
  {
    var cs := t.constructors;
    var vs :- DefaultPayloads(m, cs);
    var r := GenUnionDefault(m, Names(cs), vs);
    if r.Ok? then
      BuildVariantFits(m, cs[0].name, vs[0], cs[0].payload);
      assert Inhabits(m, r.value, t) by {
        assert cs[0].name == r.value.ctor && ArgsMatch(m, r.value.ctor, r.value.args, cs[0].payload);
      }
      r
    else r
  }

  /** `[default_value(elementtyp, machine) for elementtyp in typ]`. */
  function DefaultEach(m: Machine, ts: seq<Ty>): (r: Result<seq<Val>>)
    ensures r.Ok? <==> forall i :: 0 <= i < |ts| ==> WellFormed(ts[i])
    ensures r.Ok? ==> |r.value| == |ts|
    ensures r.Ok? ==> forall i :: 0 <= i < |ts| ==> Inhabits(m, r.value[i], ts[i]) && ZeroLike(r.value[i])
    ensures r.Err? ==> DefaultError(r.error)
    decreases ts, 0
  {
    if ts == [] then Ok([])
    else
      var d :- Default(m, ts[0]);
      var e :- DefaultEach(m, ts[1..]);
      assert forall i :: 1 <= i < |ts| ==> ts[i] == ts[1..][i - 1];
      Ok([d] + e)
  }

  /** `[default_value(elementtyp, machine) for (typs, elementtyp) in typ.fields]`. */
  function DefaultFields(m: Machine, fs: seq<Field>): (r: Result<seq<Val>>)
    ensures r.Ok? <==> forall i :: 0 <= i < |fs| ==> WellFormed(fs[i].typ)
    ensures r.Ok? ==> |r.value| == |fs|
    ensures r.Ok? ==> forall i :: 0 <= i < |fs| ==> Inhabits(m, r.value[i], fs[i].typ) && ZeroLike(r.value[i])
    ensures r.Err? ==> DefaultError(r.error)
    decreases fs, 0
  {
    if fs == [] then Ok([])
    else
      var d :- Default(m, fs[0].typ);
      var e :- DefaultFields(m, fs[1..]);
      assert forall i :: 1 <= i < |fs| ==> fs[i] == fs[1..][i - 1];
      Ok([d] + e)
  }

  /** `[default_value(constructor_typ, machine) for (cls, constructor_typ) in typ.constructors]`:
      the defaults of every payload, computed before the first is chosen. */
  function DefaultPayloads(m: Machine, cs: seq<Constructor>): (r: Result<seq<Val>>)
    ensures r.Ok? <==> forall i :: 0 <= i < |cs| ==> WellFormed(cs[i].payload)
    ensures r.Ok? ==> |r.value| == |cs|
    ensures r.Ok? ==> forall i :: 0 <= i < |cs| ==> Inhabits(m, r.value[i], cs[i].payload) && ZeroLike(r.value[i])
    ensures r.Err? ==> DefaultError(r.error)
    decreases cs, 0
  {
    if cs == [] then Ok([])
    else
      var d :- Default(m, cs[0].payload);
      var e :- DefaultPayloads(m, cs[1..]);
      assert forall i :: 1 <= i < |cs| ==> cs[i] == cs[1..][i - 1];
      Ok([d] + e)
  }

  /** Bit-vector defaults are zero at the exact width; the generic one is
      the 1-bit zero. A big width under 64 bits has no default. */
  lemma DefaultBitvectors(m: Machine, w: nat)
    ensures Default(m, SmallFixedBitVector(w)) == Ok(BV(Bits(w, 0)))
    ensures Default(m, BigFixedBitVector(w)).Ok? <==> w >= 64
    ensures w >= 64 ==> Default(m, BigFixedBitVector(w)) == Ok(BV(Bits(w, 0)))
    ensures Default(m, GenericBitVector) == Ok(BV(Bits(1, 0)))
  {
  }

  /** An enum's default is its first element; without elements it is an
      `IndexError`. (The other scalar defaults, `False`, `0`, `""` and `()`,
      are the only zero-like values of their types.) */
  lemma DefaultEnum(m: Machine, elements: seq<string>)
    ensures |elements| > 0 ==> Default(m, Enum(elements)) == Ok(EnumVal(elements[0]))
    ensures |elements| == 0 ==> Default(m, Enum(elements)) == Err(IndexError)
  {
  }

  /** Element-wise, in order: the i-th default belongs to the i-th type. */
  lemma {:induction false} DefaultEachElementwise(m: Machine, ts: seq<Ty>)
    requires DefaultEach(m, ts).Ok?
    ensures forall i :: 0 <= i < |ts| ==>
      Default(m, ts[i]).Ok? && DefaultEach(m, ts).value[i] == Default(m, ts[i]).value
    decreases ts
  {
    if ts != [] {
      DefaultEachElementwise(m, ts[1..]);
      assert forall i :: 1 <= i < |ts| ==> ts[i] == ts[1..][i - 1];
    }
  }

  lemma {:induction false} DefaultFieldsElementwise(m: Machine, fs: seq<Field>)
    requires DefaultFields(m, fs).Ok?
    ensures forall i :: 0 <= i < |fs| ==>
      Default(m, fs[i].typ).Ok? && DefaultFields(m, fs).value[i] == Default(m, fs[i].typ).value
    decreases fs
  {
    if fs != [] {
      DefaultFieldsElementwise(m, fs[1..]);
      assert forall i :: 1 <= i < |fs| ==> fs[i] == fs[1..][i - 1];
    }
  }

  /** A tuple's default is the tuple of its elements' defaults. */
  lemma DefaultTuple(m: Machine, ts: seq<Ty>)
    requires WellFormed(Tuple(ts))
    ensures Default(m, Tuple(ts)).Ok? && Default(m, Tuple(ts)).value.TupleVal?
    ensures |Default(m, Tuple(ts)).value.items| == |ts|
    ensures forall i :: 0 <= i < |ts| ==> Default(m, Tuple(ts)).value.items[i] == Default(m, ts[i]).value
  {
    DefaultEachElementwise(m, ts);
  }

  /** A record with one field has its field's default; any other record is
      built by name from its fields' defaults in declaration order. */
  lemma DefaultStruct(m: Machine, name: string, fs: seq<Field>)
    ensures |fs| == 1 ==> Default(m, Struct(name, fs)) == Default(m, fs[0].typ)
    ensures |fs| != 1 && WellFormed(Struct(name, fs)) ==>
      var v := Default(m, Struct(name, fs)).value;
      v.StructVal? && v.name == name && |v.args| == |fs|
      && forall i :: 0 <= i < |fs| ==> v.args[i] == Default(m, fs[i].typ).value
  {
    if |fs| != 1 && WellFormed(Struct(name, fs)) {
      DefaultFieldsElementwise(m, fs);
    }
  }

  /** A union's default always uses constructor 0, with the default of its
      payload, unpacked as the generator unpacks a drawn payload. It needs
      every payload to have a default, not only the first. */
  lemma DefaultUnion(m: Machine, name: string, cs: seq<Constructor>)
    ensures Default(m, Union(name, cs)).Ok? <==> WellFormed(Union(name, cs))
    ensures |cs| == 0 ==> Default(m, Union(name, cs)) == Err(IndexError)
    ensures WellFormed(Union(name, cs)) ==>
      Default(m, Union(name, cs)).value == BuildVariant(m, cs[0].name, Default(m, cs[0].payload).value)
  {
    if WellFormed(Union(name, cs)) {
      var vs := DefaultPayloads(m, cs);
      assert cs == [cs[0]] + cs[1..];
      assert vs.value[0] == Default(m, cs[0].payload).value;
    }
  }

  /** A fixed vector's default repeats its element's default `length`
      times; the element default is computed even for length 0. */
  lemma DefaultFVec(m: Machine, of: Ty, n: nat)
    ensures Default(m, FVec(of, n)).Ok? <==> Default(m, of).Ok?
    ensures Default(m, of).Ok? ==>
      Default(m, FVec(of, n)).value == ListVal(seq(n, _ => Default(m, of).value))
  {
  }

  /** A vector's default is a one-element list. */
  lemma DefaultVec(m: Machine, of: Ty)
    ensures Default(m, Vec(of)).Ok? <==> Default(m, of).Ok?
    ensures Default(m, of).Ok? ==> Default(m, Vec(of)).value == ListVal([Default(m, of).value])
  {
  }
}
