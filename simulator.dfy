/** Values built by the `_pydrofoil` machine's constructors, looked up by
    name with `getattr(machine.types, name)`. */
module Simulator {
  import opened SailTypes

  /** `getattr(machine.types, name)(*values)` for a record. */
  function BuildStruct(name: string, values: seq<Val>): (r: Val)
    ensures r.StructVal? && r.name == name && r.args == values
  {
    StructVal(name, values)
  }

  /** The variant `ctor` built from `payload` by the argument-unpacking
      convention shared by `gen_Union` and `gen_Union_default`. */
  function BuildVariant(m: Machine, ctor: string, payload: Val): (r: Val)
    ensures r.UnionVal? && r.ctor == ctor
    ensures payload.TupleVal? && payload.items != [] ==> r.args == payload.items
    ensures payload == UnitVal ==> r.args == UnitArgs(m, ctor)
    ensures payload.StructVal? ==> r.args == payload.args
    ensures !payload.TupleVal? && !payload.StructVal? ==> r.args == [payload]
  {
    match payload
    case TupleVal(items) =>
      if |items| > 0 then UnionVal(ctor, items)
      else if ctor in m.unitArgCtors then UnionVal(ctor, [UnitVal])
      else UnionVal(ctor, [])
    case StructVal(_, fieldValues) => UnionVal(ctor, fieldValues)
    case _ => UnionVal(ctor, [payload])
  }

  /** Whatever the payload type, a payload of that type unpacks into
      arguments that fit it. */
  lemma {:induction false} BuildVariantFits(m: Machine, ctor: string, payload: Val, p: Ty)
    requires Inhabits(m, payload, p)
    ensures ArgsMatch(m, ctor, BuildVariant(m, ctor, payload).args, p)
  {
    match p
    case Struct(_, fs) =>
      if |fs| == 1 {
        BuildVariantFits(m, ctor, payload, fs[0].typ);
      }
    case Other(_) =>
      assert false;
    case _ =>
  }

  /** Unpacking passes on the payload's own values, so the generator's
      value policy carries over to the arguments. */
  lemma BuildVariantBounded(m: Machine, ctor: string, payload: Val)
    requires GenBounded(payload)
    ensures forall k :: 0 <= k < |BuildVariant(m, ctor, payload).args| ==> GenBounded(BuildVariant(m, ctor, payload).args[k])
  {
  }
}
