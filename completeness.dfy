/** Completeness of the generator: every value of a type that lies within
    the generator's value policy is drawn by some sequence of choices. The
    choices are built by `Encode`, and drawing from them gives the value back
    and leaves whatever followed them untouched. */
module Completeness {
  import opened Results
  import opened Bitvectors
  import opened Entropy
  import opened SailTypes
  import opened Simulator
  import opened Segments
  import opened Generator
  import opened Defaults

  /** The segment choices of a valid vector, most significant first: one
      per whole 64-bit segment, then one for the 1 to 63 bits left. */
  function EncodeBits(x: Bits): Choices
    decreases x.width
  {
    if x.width >= 64 then [High(x, x.width - 64).value] + EncodeBits(Low(x, x.width - 64))
    else if x.width > 0 then [x.value] else []
  }

  /** The loop's step for a whole segment drawn from the choice `c`. */
  lemma WholeSegment(acc: Option<Bits>, remaining: nat, c: nat, tail: Choices)
    requires ValidOpt(acc) && remaining >= 64 && c < SegmentSpan
    ensures ValidOpt(Some(Append(acc, Bits(64, c))))
    ensures DrawSegments(acc, remaining, [c] + tail) == DrawSegments(Some(Append(acc, Bits(64, c))), remaining - 64, tail)
  {
    DrawIntReaches(0, SegmentSpan - 1, c, tail);
    SegmentValid(c);
    AppendValid(acc, Bits(64, c));
  }

  /** One whole segment: the loop draws the top 64 bits of `x` from its
      first segment choice and goes on with the rest of `x`. */
  lemma SegmentStep(acc: Option<Bits>, x: Bits, rest: Choices)
    requires ValidOpt(acc) && Valid(x) && x.width >= 64
    ensures Valid(High(x, x.width - 64)) && Valid(Low(x, x.width - 64))
    ensures ValidOpt(Some(Append(acc, High(x, x.width - 64))))
    ensures DrawSegments(acc, x.width, EncodeBits(x) + rest)
         == DrawSegments(Some(Append(acc, High(x, x.width - 64))), x.width - 64, EncodeBits(Low(x, x.width - 64)) + rest)
  {
    var k := x.width - 64;
    var h, l := High(x, k), Low(x, k);
    ConcatSplit(x, k);
    assert EncodeBits(x) + rest == [h.value] + (EncodeBits(l) + rest);
    assert h == Bits(64, h.value);
    SegmentSpanIsPow2();
    WholeSegment(acc, x.width, h.value, EncodeBits(l) + rest);
  }

  /** Appending the top bits of `x` and then its low bits appends `x`. */
  lemma AppendSplit(acc: Option<Bits>, x: Bits, k: nat)
    requires Valid(x) && k <= x.width
    ensures Append(Some(Append(acc, High(x, k))), Low(x, k)) == Append(acc, x)
  {
    ConcatSplit(x, k);
    if acc.Some? {
      ConcatAssoc(acc.value, High(x, k), Low(x, k));
    }
  }

  /** The last, partial segment, or none. */
  lemma LastSegment(acc: Option<Bits>, x: Bits, rest: Choices)
    requires ValidOpt(acc) && Valid(x) && acc.Some? && x.width < 64
    ensures DrawSegments(acc, x.width, EncodeBits(x) + rest) == Ok(Drawn(Append(acc, x), rest))
  {
    if x.width > 0 {
      assert EncodeBits(x) + rest == [x.value] + rest;
      DrawIntReaches(0, Pow2(x.width) - 1, x.value, rest);
    } else {
      assert EncodeBits(x) + rest == rest;
      assert x == Bits(0, 0);
    }
  }

  /** The segment loop given the segment choices of `x` appends exactly
      `x` to what it holds. */
  lemma {:induction false} SegmentsReach(acc: Option<Bits>, x: Bits, rest: Choices)
    requires ValidOpt(acc) && Valid(x) && (acc.Some? || x.width >= 64)
    ensures DrawSegments(acc, x.width, EncodeBits(x) + rest) == Ok(Drawn(Append(acc, x), rest))
    decreases x.width
  {
    if x.width >= 64 {
      var k := x.width - 64;
      SegmentStep(acc, x, rest);
      SegmentsReach(Some(Append(acc, High(x, k))), Low(x, k), rest);
      AppendSplit(acc, x, k);
    } else {
      LastSegment(acc, x, rest);
    }
  }

  /** The payload that unpacks into `args`: the inverse of the unpacking
      convention of `gen_Union`. */
  ghost function Repack(m: Machine, ctor: string, args: seq<Val>, p: Ty): Val
    requires ArgsMatch(m, ctor, args, p)
    decreases p
  {
    match p
    case Tuple(ts) => if |ts| > 0 then TupleVal(args) else UnitVal
    case Unit => UnitVal
    case Struct(name, fs) => if |fs| == 1 then Repack(m, ctor, args, fs[0].typ) else StructVal(name, args)
    case Other(_) => UnitVal
    case _ => args[0]
  }

  /** A value of a type other than a tuple, the unit or a record is neither
      a tuple nor a record. */
  lemma NotSpread(m: Machine, v: Val, p: Ty)
    requires Inhabits(m, v, p) && !p.Tuple? && !p.Unit? && !p.Struct?
    ensures !v.TupleVal? && !v.StructVal?
  {
  }

  /** Repacking gives a payload of the type that unpacks back into the
      same arguments. */
  lemma {:induction false} RepackFits(m: Machine, ctor: string, args: seq<Val>, p: Ty)
    requires ArgsMatch(m, ctor, args, p)
    ensures Inhabits(m, Repack(m, ctor, args, p), p)
    ensures BuildVariant(m, ctor, Repack(m, ctor, args, p)) == UnionVal(ctor, args)
    ensures (forall k :: 0 <= k < |args| ==> GenBounded(args[k])) ==> GenBounded(Repack(m, ctor, args, p))
    decreases p
  {
    match p
    case Tuple(ts) =>
    case Unit =>
    case Struct(name, fs) =>
      if |fs| == 1 {
        RepackFits(m, ctor, args, fs[0].typ);
      }
    case Other(_) =>
      assert false;
    case _ =>
      NotSpread(m, args[0], p);
  }

  /** A position of `tag` among the enum's elements. */
  ghost function TagIndex(tag: string, elements: seq<string>): (i: nat)
    requires tag in elements
    ensures i < |elements| && elements[i] == tag
  {
    var i :| 0 <= i < |elements| && elements[i] == tag; i
  }

  /** A constructor of the union that built `v`. */
  ghost function CtorIndex(m: Machine, v: Val, cs: seq<Constructor>): (i: nat)
    requires v.UnionVal? && exists i :: 0 <= i < |cs| && cs[i].name == v.ctor && ArgsMatch(m, v.ctor, v.args, cs[i].payload)
    ensures i < |cs| && cs[i].name == v.ctor && ArgsMatch(m, v.ctor, v.args, cs[i].payload)
  {
    var i :| 0 <= i < |cs| && cs[i].name == v.ctor && ArgsMatch(m, v.ctor, v.args, cs[i].payload); i
  }

  /** The choices for the characters of `s`, one code point each. */
  ghost function EncodeText(s: string): Choices
    requires forall k :: 0 <= k < |s| ==> s[k] as int <= 127
  {
    if s == [] then [] else [s[0] as int] + EncodeText(s[1..])
  }

  /** The choices that draw `v` from the strategy of `t`. */
  ghost function Encode(m: Machine, v: Val, t: Ty): Choices
    requires Inhabits(m, v, t) && GenBounded(v)
    decreases t, 1
  {
    match t
    case SmallFixedBitVector(_) => [v.bits.value]
    case BigFixedBitVector(_) => EncodeBits(v.bits)
    case GenericBitVector =>
      [v.bits.width] + (if v.bits.width <= 64 then [v.bits.value] else EncodeBits(v.bits))
    case FVec(of, _) => EncodeAll(m, v.items, of)
    case Vec(of) => [|v.items|] + EncodeAll(m, v.items, of)
    case Bool => [if v.b then 1 else 0]
    case MachineInt => [v.i + 126]
    case Int => [v.i + 126]
    case String => [|v.s|] + EncodeText(v.s)
    case Enum(elements) => [TagIndex(v.tag, elements)]
    case Tuple(ts) => EncodeEach(m, v.items, ts)
    case Struct(_, fs) =>
      if |fs| == 1 then Encode(m, v, fs[0].typ) else EncodeFields(m, v.args, fs)
    case Union(_, _) => EncodeVariant(m, v, t)
    case Unit => []
  }

  /** The choices for a variant: the index of its constructor, then the
      choices for the payload its arguments were unpacked from. */
  ghost function EncodeVariant(m: Machine, v: Val, t: Ty): Choices
    requires t.Union? && Inhabits(m, v, t) && GenBounded(v)
    decreases t, 0
  {
    var cs := t.constructors;
    var i := CtorIndex(m, v, cs);
    RepackFits(m, v.ctor, v.args, cs[i].payload);
    [i] + Encode(m, Repack(m, v.ctor, v.args, cs[i].payload), cs[i].payload)
  }

  /** Choices for `items`, each of type `of`, in order. */
  ghost function EncodeAll(m: Machine, items: seq<Val>, of: Ty): Choices
    requires forall i :: 0 <= i < |items| ==> Inhabits(m, items[i], of) && GenBounded(items[i])
    decreases of, 3, |items|
  {
    if items == [] then [] else Encode(m, items[0], of) + EncodeAll(m, items[1..], of)
  }

  /** Choices for `items`, the i-th of type `ts[i]`, in order. */
  ghost function EncodeEach(m: Machine, items: seq<Val>, ts: seq<Ty>): Choices
    requires |items| == |ts|
    requires forall i :: 0 <= i < |ts| ==> Inhabits(m, items[i], ts[i]) && GenBounded(items[i])
    decreases ts, 0, 0
  {
    if ts == [] then [] else Encode(m, items[0], ts[0]) + EncodeEach(m, items[1..], ts[1..])
  }

  /** Choices for `args`, the i-th of the type of field `fs[i]`, in order. */
  ghost function EncodeFields(m: Machine, args: seq<Val>, fs: seq<Field>): Choices
    requires |args| == |fs|
    requires forall i :: 0 <= i < |fs| ==> Inhabits(m, args[i], fs[i].typ) && GenBounded(args[i])
    decreases fs, 0, 0
  {
    if fs == [] then [] else Encode(m, args[0], fs[0].typ) + EncodeFields(m, args[1..], fs[1..])
  }

  /** One character drawn from its code point. */
  lemma AsciiStep(k: nat, acc: string, c: char, tail: Choices)
    requires k > 0 && c as int <= 127
    requires forall i :: 0 <= i < |acc| ==> acc[i] as int <= 127
    ensures DrawAscii(k, acc, [c as int] + tail) == DrawAscii(k - 1, acc + [c], tail)
  {
    DrawIntReaches(0, 127, c as int, tail);
  }

  /** Drawing `k` characters from their code points appends them. */
  lemma {:induction false} TextReaches(s: string, acc: string, rest: Choices)
    requires forall k :: 0 <= k < |s| ==> s[k] as int <= 127
    requires forall k :: 0 <= k < |acc| ==> acc[k] as int <= 127
    ensures DrawAscii(|s|, acc, EncodeText(s) + rest) == Ok(Drawn(acc + s, rest))
    decreases |s|
  {
    if s == [] {
      assert EncodeText(s) + rest == rest;
      assert acc + s == acc;
    } else {
      var tail := EncodeText(s[1..]) + rest;
      assert EncodeText(s) + rest == [s[0] as int] + tail;
      AsciiStep(|s|, acc, s[0], tail);
      TextReaches(s[1..], acc + [s[0]], rest);
      assert acc + [s[0]] + s[1..] == acc + s;
    }
  }

  lemma SmallReaches(m: Machine, w: nat, v: Val, rest: Choices)
    requires Inhabits(m, v, SmallFixedBitVector(w)) && GenBounded(v)
    ensures Draw(m, SmallFixedBitVector(w), Encode(m, v, SmallFixedBitVector(w)) + rest) == Ok(Drawn(v, rest))
  {
    DrawIntReaches(0, Pow2(w) - 1, v.bits.value, rest);
    assert GenBitvector(w, [v.bits.value] + rest) == Ok(Drawn(v.bits, rest));
  }

  lemma BigReaches(m: Machine, w: nat, v: Val, rest: Choices)
    requires w >= 64 && Inhabits(m, v, BigFixedBitVector(w)) && GenBounded(v)
    ensures Draw(m, BigFixedBitVector(w), Encode(m, v, BigFixedBitVector(w)) + rest) == Ok(Drawn(v, rest))
  {
    SegmentsReach(None, v.bits, rest);
    assert GenBigBitvector(w, EncodeBits(v.bits) + rest) == Ok(Drawn(v.bits, rest));
  }

  lemma GenericReaches(m: Machine, v: Val, rest: Choices)
    requires Inhabits(m, v, GenericBitVector) && GenBounded(v)
    ensures Draw(m, GenericBitVector, Encode(m, v, GenericBitVector) + rest) == Ok(Drawn(v, rest))
  {
    var b := v.bits;
    var body := if b.width <= 64 then [b.value] else EncodeBits(b);
    assert Encode(m, v, GenericBitVector) == [b.width] + body;
    ChoicesAssoc([b.width], body, rest);
    if b.width <= 64 {
      GenericSmallReach(b, rest);
    } else {
      GenericBigReach(b, rest);
    }
  }

  /** `gen_genericbitvector` draws back a bit vector of at most 64 bits
      from its width and its value. */
  lemma GenericSmallReach(b: Bits, rest: Choices)
    requires Valid(b) && b.width <= 64
    ensures GenGenericBitvector([b.width] + ([b.value] + rest)) == Ok(Drawn(b, rest))
  {
    assert DrawNat([b.width] + ([b.value] + rest)) == Ok(Drawn(b.width, [b.value] + rest));
    DrawIntReaches(0, Pow2(b.width) - 1, b.value, rest);
  }

  /** `gen_genericbitvector` draws back a wider bit vector from its width
      and its segments. */
  lemma GenericBigReach(b: Bits, rest: Choices)
    requires Valid(b) && b.width > 64
    ensures GenGenericBitvector([b.width] + (EncodeBits(b) + rest)) == Ok(Drawn(b, rest))
  {
    assert DrawNat([b.width] + (EncodeBits(b) + rest)) == Ok(Drawn(b.width, EncodeBits(b) + rest));
    SegmentsReach(None, b, rest);
    assert GenBigBitvector(b.width, EncodeBits(b) + rest) == Ok(Drawn(b, rest));
  }

  lemma BoolReaches(m: Machine, v: Val, rest: Choices)
    requires Inhabits(m, v, Bool) && GenBounded(v)
    ensures Draw(m, Bool, Encode(m, v, Bool) + rest) == Ok(Drawn(v, rest))
  {
    assert (Encode(m, v, Bool) + rest)[1..] == rest;
    assert GenBool(Encode(m, v, Bool) + rest) == Ok(Drawn(v.b, rest));
  }

  lemma IntReaches(m: Machine, t: Ty, v: Val, rest: Choices)
    requires (t.MachineInt? || t.Int?) && Inhabits(m, v, t) && GenBounded(v)
    ensures Draw(m, t, Encode(m, v, t) + rest) == Ok(Drawn(v, rest))
  {
    DrawIntReaches(-2 * 63, 2 * 63 - 1, v.i, rest);
    assert Encode(m, v, t) == [v.i - (-2 * 63)];
  }

  lemma StringReaches(m: Machine, v: Val, rest: Choices)
    requires Inhabits(m, v, String) && GenBounded(v)
    ensures Draw(m, String, Encode(m, v, String) + rest) == Ok(Drawn(v, rest))
  {
    assert Encode(m, v, String) + rest == [|v.s|] + (EncodeText(v.s) + rest);
    TextReaches(v.s, "", rest);
    assert "" + v.s == v.s;
    assert GenString(Encode(m, v, String) + rest) == Ok(Drawn(v.s, rest));
  }

  lemma EnumReaches(m: Machine, elements: seq<string>, v: Val, rest: Choices)
    requires Inhabits(m, v, Enum(elements)) && GenBounded(v)
    ensures Draw(m, Enum(elements), Encode(m, v, Enum(elements)) + rest) == Ok(Drawn(v, rest))
  {
    var i := TagIndex(v.tag, elements);
    DrawIntReaches(0, |elements| - 1, i, rest);
    assert GenEnum(elements, [i] + rest) == Ok(Drawn(v.tag, rest));
  }

  /** Completeness: every value of a well-formed type within the value
      policy is generated, from its encoding followed by anything, and the
      choices after the encoding are left over. */
  lemma {:induction false} GenerateReaches(m: Machine, t: Ty, v: Val, rest: Choices)
    requires WellFormed(t) && Inhabits(m, v, t) && GenBounded(v)
    ensures Generate(m, t, Encode(m, v, t) + rest) == Ok(Drawn(v, rest))
    decreases t, 2, 0
  {
    WellFormedBuildable(t);
    DrawReaches(m, t, v, rest);
  }

  lemma {:induction false} DrawReaches(m: Machine, t: Ty, v: Val, rest: Choices)
    requires WellFormed(t) && Inhabits(m, v, t) && GenBounded(v)
    ensures Buildable(t) && Draw(m, t, Encode(m, v, t) + rest) == Ok(Drawn(v, rest))
    decreases t, 1, 0
  {
    WellFormedBuildable(t);
    match t
    case SmallFixedBitVector(w) => SmallReaches(m, w, v, rest);
    case BigFixedBitVector(w) => BigReaches(m, w, v, rest);
    case GenericBitVector => GenericReaches(m, v, rest);
    case Bool => BoolReaches(m, v, rest);
    case MachineInt => IntReaches(m, t, v, rest);
    case Int => IntReaches(m, t, v, rest);
    case String => StringReaches(m, v, rest);
    case Enum(elements) => EnumReaches(m, elements, v, rest);
    case Unit => assert Encode(m, v, t) + rest == rest;
    case FVec(_, _) => FVecReaches(m, t, v, rest);
    case Vec(_) => VecReaches(m, t, v, rest);
    case Tuple(ts) => EachReaches(m, ts, v.items, rest);
    case Struct(_, fs) =>
      if |fs| == 1 {
        DrawReaches(m, fs[0].typ, v, rest);
      } else {
        FieldsReaches(m, fs, v.args, rest);
      }
    case Union(_, _) => UnionReaches(m, t, v, rest);
  }

  lemma {:induction false} FVecReaches(m: Machine, t: Ty, v: Val, rest: Choices)
    requires t.FVec? && WellFormed(t) && Inhabits(m, v, t) && GenBounded(v)
    ensures Draw(m, t, Encode(m, v, t) + rest) == Ok(Drawn(v, rest))
    decreases t, 0, 0
  {
    RepeatedReaches(m, t.of, v.items, [], rest);
    assert [] + v.items == v.items;
  }

  lemma {:induction false} VecReaches(m: Machine, t: Ty, v: Val, rest: Choices)
    requires t.Vec? && WellFormed(t) && Inhabits(m, v, t) && GenBounded(v)
    ensures Buildable(t) && Draw(m, t, Encode(m, v, t) + rest) == Ok(Drawn(v, rest))
    decreases t, 0, 0
  {
    WellFormedBuildable(t);
    assert Encode(m, v, t) + rest == [|v.items|] + (EncodeAll(m, v.items, t.of) + rest);
    RepeatedReaches(m, t.of, v.items, [], rest);
    assert [] + v.items == v.items;
  }

  /** The constructor index `i` drawn, then the payload: the variant built
      from that payload. */
  lemma UnionStep(m: Machine, t: Ty, i: nat, tail: Choices, p: Val, rest: Choices)
    requires t.Union? && Buildable(t) && i < |t.constructors|
    requires Draw(m, t.constructors[i].payload, tail) == Ok(Drawn(p, rest))
    ensures Draw(m, t, [i] + tail) == Ok(Drawn(BuildVariant(m, t.constructors[i].name, p), rest))
  {
    DrawIntReaches(0, |t.constructors| - 1, i, tail);
  }

  lemma {:induction false} UnionReaches(m: Machine, t: Ty, v: Val, rest: Choices)
    requires t.Union? && WellFormed(t) && Inhabits(m, v, t) && GenBounded(v)
    ensures Buildable(t) && Draw(m, t, Encode(m, v, t) + rest) == Ok(Drawn(v, rest))
    decreases t, 0, 0
  {
    WellFormedBuildable(t);
    var cs := t.constructors;
    var i := CtorIndex(m, v, cs);
    RepackFits(m, v.ctor, v.args, cs[i].payload);
    var payload := Repack(m, v.ctor, v.args, cs[i].payload);
    var tail := Encode(m, payload, cs[i].payload) + rest;
    assert Encode(m, v, t) == EncodeVariant(m, v, t);
    assert Encode(m, v, t) + rest == [i] + tail;
    DrawReaches(m, cs[i].payload, payload, rest);
    UnionStep(m, t, i, tail, payload, rest);
  }

  lemma AppendCons(acc: seq<Val>, items: seq<Val>)
    requires items != []
    ensures acc + [items[0]] + items[1..] == acc + items
  {
  }

  /** The elements of a fixed or variable vector, one encoding each. */
  lemma {:induction false} RepeatedReaches(m: Machine, of: Ty, items: seq<Val>, acc: seq<Val>, rest: Choices)
    requires WellFormed(of)
    requires forall i :: 0 <= i < |items| ==> Inhabits(m, items[i], of) && GenBounded(items[i])
    requires forall i :: 0 <= i < |acc| ==> Inhabits(m, acc[i], of) && GenBounded(acc[i])
    ensures DrawRepeated(m, of, |items|, acc, EncodeAll(m, items, of) + rest) == Ok(Drawn(acc + items, rest))
    decreases of, 3, |items|, 1
  {
    if items == [] {
      assert EncodeAll(m, items, of) == [];
      EmptyPrefix(rest);
      EmptySuffix(acc);
    } else {
      DropFirstTyped(m, items, of);
      SnocTyped(m, acc, items[0], of);
      RepeatedHead(m, of, items, acc, rest);
      RepeatedReaches(m, of, items[1..], acc + [items[0]], rest);
      AppendCons(acc, items);
    }
  }

  /** The first element's encoding drawn: the loop goes on with that
      element appended and the encodings of the others. */
  lemma RepeatedHead(m: Machine, of: Ty, items: seq<Val>, acc: seq<Val>, rest: Choices)
    requires WellFormed(of) && items != []
    requires forall i :: 0 <= i < |items| ==> Inhabits(m, items[i], of) && GenBounded(items[i])
    requires forall i :: 0 <= i < |items[1..]| ==> Inhabits(m, items[1..][i], of) && GenBounded(items[1..][i])
    requires forall i :: 0 <= i < |acc| ==> Inhabits(m, acc[i], of) && GenBounded(acc[i])
    requires forall i :: 0 <= i < |acc + [items[0]]| ==> Inhabits(m, (acc + [items[0]])[i], of) && GenBounded((acc + [items[0]])[i])
    ensures DrawRepeated(m, of, |items|, acc, EncodeAll(m, items, of) + rest)
      == DrawRepeated(m, of, |items[1..]|, acc + [items[0]], EncodeAll(m, items[1..], of) + rest)
    decreases of, 3, |items|, 0
  {
    EncodeAllCons(m, items, of, rest);
    RepeatedFirst(m, of, items[0], |items[1..]|, acc, EncodeAll(m, items, of) + rest, EncodeAll(m, items[1..], of) + rest);
  }

  /** The encoding of a list, followed by more choices, starts with the
      encoding of its first element. */
  lemma EncodeAllCons(m: Machine, items: seq<Val>, of: Ty, rest: Choices)
    requires items != []
    requires forall i :: 0 <= i < |items| ==> Inhabits(m, items[i], of) && GenBounded(items[i])
    requires forall i :: 0 <= i < |items[1..]| ==> Inhabits(m, items[1..][i], of) && GenBounded(items[1..][i])
    ensures EncodeAll(m, items, of) + rest == Encode(m, items[0], of) + (EncodeAll(m, items[1..], of) + rest)
  {
    assert EncodeAll(m, items, of) == Encode(m, items[0], of) + EncodeAll(m, items[1..], of);
    ChoicesAssoc(Encode(m, items[0], of), EncodeAll(m, items[1..], of), rest);
  }

  /** An element's encoding drawn by the loop: it is appended. */
  lemma RepeatedFirst(m: Machine, of: Ty, x: Val, j: nat, acc: seq<Val>, cs: Choices, tail: Choices)
    requires WellFormed(of) && Inhabits(m, x, of) && GenBounded(x)
    requires forall i :: 0 <= i < |acc| ==> Inhabits(m, acc[i], of) && GenBounded(acc[i])
    requires cs == Encode(m, x, of) + tail
    ensures forall i :: 0 <= i < |acc + [x]| ==> Inhabits(m, (acc + [x])[i], of) && GenBounded((acc + [x])[i])
    ensures DrawRepeated(m, of, j + 1, acc, cs) == DrawRepeated(m, of, j, acc + [x], tail)
    decreases of, 3, 0, 0
  {
    GenerateReaches(m, of, x, tail);
    RepeatedStep(m, of, j, acc, x, cs, tail);
  }

  /** The rest of a list of values of a type are values of that type. */
  lemma DropFirstTyped(m: Machine, items: seq<Val>, of: Ty)
    requires items != []
    requires forall i :: 0 <= i < |items| ==> Inhabits(m, items[i], of) && GenBounded(items[i])
    ensures forall i :: 0 <= i < |items[1..]| ==> Inhabits(m, items[1..][i], of) && GenBounded(items[1..][i])
  {
    forall i | 0 <= i < |items[1..]| ensures Inhabits(m, items[1..][i], of) && GenBounded(items[1..][i]) {
      assert items[1..][i] == items[i + 1];
    }
  }

  /** A value of a type appended to a list of values of that type. */
  lemma SnocTyped(m: Machine, acc: seq<Val>, x: Val, of: Ty)
    requires Inhabits(m, x, of) && GenBounded(x)
    requires forall i :: 0 <= i < |acc| ==> Inhabits(m, acc[i], of) && GenBounded(acc[i])
    ensures forall i :: 0 <= i < |acc + [x]| ==> Inhabits(m, (acc + [x])[i], of) && GenBounded((acc + [x])[i])
  {
  }

  lemma ChoicesAssoc(a: Choices, b: Choices, c: Choices)
    ensures (a + b) + c == a + (b + c)
  {
  }

  lemma EmptyPrefix(cs: Choices)
    ensures [] + cs == cs
  {
  }

  lemma EmptySuffix(vs: seq<Val>)
    ensures vs + [] == vs
  {
  }

  /** One element drawn: the rest of the tuple is drawn after it. */
  lemma EachStep(m: Machine, ts: seq<Ty>, cs: Choices, x: Val, tail: Choices, xs: seq<Val>, rest: Choices)
    requires ts != [] && forall i :: 0 <= i < |ts| ==> Buildable(ts[i])
    requires Draw(m, ts[0], cs) == Ok(Drawn(x, tail))
    requires DrawEach(m, ts[1..], tail) == Ok(Drawn(xs, rest))
    ensures DrawEach(m, ts, cs) == Ok(Drawn([x] + xs, rest))
  {
  }

  lemma EachBuildable(ts: seq<Ty>)
    requires forall i :: 0 <= i < |ts| ==> WellFormed(ts[i])
    ensures forall i :: 0 <= i < |ts| ==> Buildable(ts[i])
  {
    forall i | 0 <= i < |ts| ensures Buildable(ts[i]) {
      WellFormedBuildable(ts[i]);
    }
  }

  lemma FieldsBuildable(fs: seq<Field>)
    requires forall i :: 0 <= i < |fs| ==> WellFormed(fs[i].typ)
    ensures forall i :: 0 <= i < |fs| ==> Buildable(fs[i].typ)
  {
    forall i | 0 <= i < |fs| ensures Buildable(fs[i].typ) {
      WellFormedBuildable(fs[i].typ);
    }
  }

  /** One field drawn: the remaining fields are drawn after it. */
  lemma FieldsStep(m: Machine, fs: seq<Field>, cs: Choices, x: Val, tail: Choices, xs: seq<Val>, rest: Choices)
    requires fs != [] && forall i :: 0 <= i < |fs| ==> Buildable(fs[i].typ)
    requires Draw(m, fs[0].typ, cs) == Ok(Drawn(x, tail))
    requires DrawFields(m, fs[1..], tail) == Ok(Drawn(xs, rest))
    ensures DrawFields(m, fs, cs) == Ok(Drawn([x] + xs, rest))
  {
  }

  /** The elements of a tuple, one encoding each, in order. */
  lemma {:induction false} EachReaches(m: Machine, ts: seq<Ty>, items: seq<Val>, rest: Choices)
    requires |items| == |ts|
    requires forall i :: 0 <= i < |ts| ==> WellFormed(ts[i]) && Inhabits(m, items[i], ts[i]) && GenBounded(items[i])
    ensures (forall i :: 0 <= i < |ts| ==> Buildable(ts[i]))
    ensures DrawEach(m, ts, EncodeEach(m, items, ts) + rest) == Ok(Drawn(items, rest))
    decreases ts, 0, 0
  {
    EachBuildable(ts);
    if ts == [] {
      assert EncodeEach(m, items, ts) + rest == rest;
    } else {
      var tail := EncodeEach(m, items[1..], ts[1..]) + rest;
      assert EncodeEach(m, items, ts) + rest == Encode(m, items[0], ts[0]) + tail;
      DrawReaches(m, ts[0], items[0], tail);
      EachReaches(m, ts[1..], items[1..], rest);
      EachStep(m, ts, EncodeEach(m, items, ts) + rest, items[0], tail, items[1..], rest);
      assert [items[0]] + items[1..] == items;
    }
  }

  /** The fields of a record, one encoding each, in declaration order. */
  lemma {:induction false} FieldsReaches(m: Machine, fs: seq<Field>, args: seq<Val>, rest: Choices)
    requires |args| == |fs|
    requires forall i :: 0 <= i < |fs| ==> WellFormed(fs[i].typ) && Inhabits(m, args[i], fs[i].typ) && GenBounded(args[i])
    ensures (forall i :: 0 <= i < |fs| ==> Buildable(fs[i].typ))
    ensures DrawFields(m, fs, EncodeFields(m, args, fs) + rest) == Ok(Drawn(args, rest))
    decreases fs, 0, 0
  {
    FieldsBuildable(fs);
    if fs == [] {
      assert EncodeFields(m, args, fs) + rest == rest;
    } else {
      var tail := EncodeFields(m, args[1..], fs[1..]) + rest;
      assert EncodeFields(m, args, fs) + rest == Encode(m, args[0], fs[0].typ) + tail;
      DrawReaches(m, fs[0].typ, args[0], tail);
      FieldsReaches(m, fs[1..], args[1..], rest);
      FieldsStep(m, fs, EncodeFields(m, args, fs) + rest, args[0], tail, args[1..], rest);
      assert [args[0]] + args[1..] == args;
    }
  }

  /** The value `default_value` gives a well-formed type is one the
      generator can draw too. */
  lemma DefaultReachable(m: Machine, t: Ty, rest: Choices)
    requires WellFormed(t)
    ensures Default(m, t).Ok? && GenBounded(Default(m, t).value)
    ensures Generate(m, t, Encode(m, Default(m, t).value, t) + rest) == Ok(Drawn(Default(m, t).value, rest))
  {
    ZeroLikeBounded(Default(m, t).value);
    GenerateReaches(m, t, Default(m, t).value, rest);
  }
}
