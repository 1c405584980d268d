/** The Sail types a pydrofoil machine describes (`_pydrofoil.sailtypes`),
    the Python values that inhabit them, and when a value inhabits a type. */
module SailTypes {
  import opened Bitvectors

  /** What the code needs from the `_pydrofoil` machine beyond its types:
      which union constructors accept the unit value `()` as their argument.
      The others are called with no argument (the `except TypeError` path of
      `cls(())`). Constructors themselves are looked up by name and stay
      uninterpreted: a built value records the name and the arguments. */
  datatype Machine = Machine(unitArgCtors: set<string>)

  /** A record field: `(name, type)` in `Struct.fields`. */
  datatype Field = Field(name: string, typ: Ty)

  /** A union constructor: `(name, payload type)` in `Union.constructors`. */
  datatype Constructor = Constructor(name: string, payload: Ty)

  datatype Ty =
    | SmallFixedBitVector(width: nat)
    | BigFixedBitVector(width: nat)
    | FVec(of: Ty, length: nat)
    | Bool
    | MachineInt
    | Int
    | String
    | Enum(elements: seq<string>)
    | Tuple(elems: seq<Ty>)
    | Struct(name: string, fields: seq<Field>)
    | Union(name: string, constructors: seq<Constructor>)
    | Vec(of: Ty)
    | Unit
    | GenericBitVector
      /** Any other sail type; no branch of the dispatcher handles it. */
    | Other(description: string)

  /** Python values as the generator and the machine produce them. */
  datatype Val =
    | BV(bits: Bits)                           // `_pydrofoil.bitvector`
    | BoolVal(b: bool)
    | IntVal(i: int)
    | StrVal(s: string)
    | EnumVal(tag: string)                     // an element of `typ.elements`
    | TupleVal(items: seq<Val>)                // a Python tuple
    | ListVal(items: seq<Val>)                 // a Python list
    | StructVal(name: string, args: seq<Val>)  // `getattr(machine.types, name)(*args)` for a record
    | UnionVal(ctor: string, args: seq<Val>)   // `getattr(machine.types, ctor)(*args)` for a variant

  /** The Python unit value `()`, the empty tuple. */
  const UnitVal := TupleVal([])

  /** `2 ** 63`: a machine integer is a signed 64-bit integer. */
  const MachineIntBound: int := 0x8000_0000_0000_0000

  /** `v` is a value of the Sail type `t` as machine `m` builds it. A record
      with exactly one field is represented by its field's value, which is
      what both the generator and the default computer produce for it. */
  ghost predicate Inhabits(m: Machine, v: Val, t: Ty)
    decreases t, 0
  {
    match t
    case SmallFixedBitVector(w) => v.BV? && v.bits.width == w && Valid(v.bits)
    case BigFixedBitVector(w) => v.BV? && v.bits.width == w && Valid(v.bits)
    case GenericBitVector => v.BV? && Valid(v.bits)
    case FVec(of, n) =>
      v.ListVal? && |v.items| == n && forall i :: 0 <= i < n ==> Inhabits(m, v.items[i], of)
    case Vec(of) =>
      v.ListVal? && forall i :: 0 <= i < |v.items| ==> Inhabits(m, v.items[i], of)
    case Bool => v.BoolVal?
    case MachineInt => v.IntVal? && -MachineIntBound <= v.i < MachineIntBound
    case Int => v.IntVal?
    case String => v.StrVal?
    case Enum(elements) => v.EnumVal? && v.tag in elements
    case Tuple(ts) =>
      v.TupleVal? && |v.items| == |ts| && forall i :: 0 <= i < |ts| ==> Inhabits(m, v.items[i], ts[i])
    case Struct(name, fs) =>
      if |fs| == 1 then Inhabits(m, v, fs[0].typ)
      else v.StructVal? && v.name == name && |v.args| == |fs|
           && forall i :: 0 <= i < |fs| ==> Inhabits(m, v.args[i], fs[i].typ)
    case Union(_, cs) =>
      v.UnionVal? && exists i :: 0 <= i < |cs| && cs[i].name == v.ctor && ArgsMatch(m, v.ctor, v.args, cs[i].payload)
    case Unit => v == UnitVal
    case Other(_) => false
  }

  /** `args` are the positional arguments that constructor `ctor` receives
      for a payload of type `p`: a non-empty tuple is spread, the unit value
      is passed as `()` or dropped (whichever the constructor accepts), a
      record is spread as its field values in declaration order, anything
      else is passed as the one argument. */
  ghost predicate ArgsMatch(m: Machine, ctor: string, args: seq<Val>, p: Ty)
    decreases p, 1
  {
    match p
    case Tuple(ts) =>
      if |ts| > 0 then |args| == |ts| && forall i :: 0 <= i < |ts| ==> Inhabits(m, args[i], ts[i])
      else args == UnitArgs(m, ctor)
    case Unit => args == UnitArgs(m, ctor)
    case Struct(_, fs) =>
      if |fs| == 1 then ArgsMatch(m, ctor, args, fs[0].typ)
      else |args| == |fs| && forall i :: 0 <= i < |fs| ==> Inhabits(m, args[i], fs[i].typ)
    case _ => |args| == 1 && Inhabits(m, args[0], p)
  }

  /** The arguments a unit payload becomes: `cls(())`, or `cls()` when that
      raises `TypeError`. */
  function UnitArgs(m: Machine, ctor: string): seq<Val> {
    if ctor in m.unitArgCtors then [UnitVal] else []
  }

  /** The types with no type nested inside them. */
  predicate Scalar(t: Ty) {
    t.SmallFixedBitVector? || t.BigFixedBitVector? || t.GenericBitVector? || t.Bool?
    || t.MachineInt? || t.Int? || t.String? || t.Enum? || t.Unit?
  }

  /** The generator's value policy, independent of the type: machine and
      unbounded integers lie in [-2 * 63, 2 * 63 - 1] and strings are ASCII. */
  ghost predicate GenBounded(v: Val) {
    match v
    case IntVal(i) => -2 * 63 <= i <= 2 * 63 - 1
    case StrVal(s) => forall k :: 0 <= k < |s| ==> s[k] as int <= 127
    case TupleVal(xs) => forall k :: 0 <= k < |xs| ==> GenBounded(xs[k])
    case ListVal(xs) => forall k :: 0 <= k < |xs| ==> GenBounded(xs[k])
    case StructVal(_, xs) => forall k :: 0 <= k < |xs| ==> GenBounded(xs[k])
    case UnionVal(_, xs) => forall k :: 0 <= k < |xs| ==> GenBounded(xs[k])
    case _ => true
  }

  /** The types on which neither the generator nor the default computer
      raises anything but running out of choices: every dispatch branch
      matches, enums and unions have a first element, and big bit-vectors
      have at least one whole 64-bit segment. */
  predicate WellFormed(t: Ty) {
    match t
    case BigFixedBitVector(w) => w >= 64
    case FVec(of, _) => WellFormed(of)
    case Vec(of) => WellFormed(of)
    case Enum(elements) => |elements| > 0
    case Tuple(ts) => forall i :: 0 <= i < |ts| ==> WellFormed(ts[i])
    case Struct(_, fs) => forall i :: 0 <= i < |fs| ==> WellFormed(fs[i].typ)
    case Union(_, cs) => |cs| > 0 && forall i :: 0 <= i < |cs| ==> WellFormed(cs[i].payload)
    case Other(_) => false
    case _ => true
  }
}
