/** `random_register_values`: a value for every register of the machine,
    drawn for the registers chosen to be random and defaulted for the rest. */
module Registers {
  import opened Results
  import opened Entropy
  import opened SailTypes
  import opened Generator
  import opened Defaults

  /** One `(name, typ)` pair of `machine.register_info()`. */
  datatype Register = Register(name: string, typ: Ty)

  function NamesOf(regs: seq<Register>): (r: seq<string>)
    ensures |r| == |regs| && forall i :: 0 <= i < |regs| ==> r[i] == regs[i].name
  {
    if regs == [] then [] else [regs[0].name] + NamesOf(regs[1..])
  }

  /** No two registers share a name, as in a machine's register file. */
  predicate UniqueNames(regs: seq<Register>) {
    forall i, j :: 0 <= i < |regs| && 0 <= j < |regs| && regs[i].name == regs[j].name ==> i == j
  }

  /** The conditions of the three list comprehensions of
      `random_register_values`. */
  datatype Criterion =
    | Included(included: seq<string>, alwaysDefault: seq<string>)      // `register_names_random`, first part
    | Unlisted(included: seq<string>, alwaysDefault: seq<string>)      // `register_no_default`
    | NotNamedIn(random: seq<Register>)                                // `register_names_default`, corrected
    | NotPairIn(random: seq<Register>)                                 // `register_names_default`, as written

  /** Python `==` between a string and a `(name, typ)` tuple: never true. */
  predicate StrEqualsPair(s: string, p: Register) {
    false
  }

  predicate Meets(c: Criterion, reg: Register) {
    match c
    case Included(included, alwaysDefault) => reg.name in included && reg.name !in alwaysDefault
    case Unlisted(included, alwaysDefault) => reg.name !in alwaysDefault && reg.name !in included
    case NotNamedIn(random) => reg.name !in NamesOf(random)
    case NotPairIn(random) => !exists k :: 0 <= k < |random| && StrEqualsPair(reg.name, random[k])
  }

  /** `[(name, typ) for (name, typ) in regs if <c>]`: the registers that
      meet `c`, in their original order. */
  function Filter(regs: seq<Register>, c: Criterion): (r: seq<Register>)
    ensures forall reg :: reg in r <==> reg in regs && Meets(c, reg)
    ensures |r| <= |regs|
  {
    if regs == [] then []
    else (if Meets(c, regs[0]) then [regs[0]] else []) + Filter(regs[1..], c)
  }

  /** Filtering keeps order and multiplicity: filtering two lists one after
      the other is filtering their concatenation. */
  lemma {:induction false} FilterAppend(a: seq<Register>, b: seq<Register>, c: Criterion)
    ensures Filter(a + b, c) == Filter(a, c) + Filter(b, c)
  {
    if a == [] {
      assert a + b == b;
    } else {
      assert (a + b)[0] == a[0];
      assert (a + b)[1..] == a[1..] + b;
      FilterAppend(a[1..], b, c);
    }
  }

  /** One register is kept exactly when it meets the condition. */
  lemma FilterOne(reg: Register, c: Criterion)
    ensures Filter([reg], c) == if Meets(c, reg) then [reg] else []
  {
    assert [reg][1..] == [];
  }

  /** `{name: draw(hypothesis_from_pydrofoil_type(typ, machine)) for (name, typ) in regs}`:
      one draw per register, in order, a later entry replacing an earlier
      one of the same name. */
  function DrawValues(m: Machine, regs: seq<Register>, cs: Choices): (r: Result<Drawn<map<string, Val>>>)
    ensures r.Ok? ==> forall k :: k in r.value.value <==> k in NamesOf(regs)
    ensures r.Ok? ==> Consumed(r.value.rest, cs)
    decreases |regs|
  {
    if regs == [] then Ok(Drawn(map[], cs))
    else
      var d :- Generate(m, regs[0].typ, cs);
      var e :- DrawValues(m, regs[1..], d.rest);
      ConsumedTrans(e.rest, d.rest, cs);
      assert NamesOf(regs) == [regs[0].name] + NamesOf(regs[1..]);
      Ok(Drawn(map[regs[0].name := d.value] + e.value, e.rest))
  }

  /** `{name: default_value(typ, machine) for (name, typ) in regs}`. */
  function DefaultValues(m: Machine, regs: seq<Register>): (r: Result<map<string, Val>>)
    ensures r.Ok? <==> forall i :: 0 <= i < |regs| ==> WellFormed(regs[i].typ)
    ensures r.Ok? ==> forall k :: k in r.value <==> k in NamesOf(regs)
    decreases |regs|
  {
    if regs == [] then Ok(map[])
    else
      var d :- Default(m, regs[0].typ);
      var e :- DefaultValues(m, regs[1..]);
      assert NamesOf(regs) == [regs[0].name] + NamesOf(regs[1..]);
      assert forall i :: 1 <= i < |regs| ==> regs[i] == regs[1..][i - 1];
      Ok(map[regs[0].name := d] + e)
  }

  /** Each drawn value is a value of the type of a register of its name. */
  lemma {:induction false} DrawValuesTyped(m: Machine, regs: seq<Register>, cs: Choices)
    requires DrawValues(m, regs, cs).Ok?
    ensures forall k :: k in DrawValues(m, regs, cs).value.value ==>
      exists i :: 0 <= i < |regs| && regs[i].name == k && Inhabits(m, DrawValues(m, regs, cs).value.value[k], regs[i].typ)
    decreases |regs|
  {
    if regs != [] {
      var d := Generate(m, regs[0].typ, cs).value;
      DrawValuesTyped(m, regs[1..], d.rest);
      var e := DrawValues(m, regs[1..], d.rest).value.value;
      forall k | k in DrawValues(m, regs, cs).value.value
        ensures exists i :: 0 <= i < |regs| && regs[i].name == k && Inhabits(m, DrawValues(m, regs, cs).value.value[k], regs[i].typ)
      {
        if k in e {
          var i :| 0 <= i < |regs[1..]| && regs[1..][i].name == k && Inhabits(m, e[k], regs[1..][i].typ);
          assert regs[i + 1] == regs[1..][i];
        } else {
          assert regs[0].name == k;
        }
      }
    }
  }

  /** Each default value is the default of the type of a register of its
      name. */
  lemma {:induction false} DefaultValuesAre(m: Machine, regs: seq<Register>)
    requires DefaultValues(m, regs).Ok?
    ensures forall k :: k in DefaultValues(m, regs).value ==>
      exists i :: 0 <= i < |regs| && regs[i].name == k && Default(m, regs[i].typ) == Ok(DefaultValues(m, regs).value[k])
    decreases |regs|
  {
    if regs != [] {
      DefaultValuesAre(m, regs[1..]);
      var e := DefaultValues(m, regs[1..]).value;
      forall k | k in DefaultValues(m, regs).value
        ensures exists i :: 0 <= i < |regs| && regs[i].name == k && Default(m, regs[i].typ) == Ok(DefaultValues(m, regs).value[k])
      {
        if k in e {
          var i :| 0 <= i < |regs[1..]| && regs[1..][i].name == k && Default(m, regs[1..][i].typ) == Ok(e[k]);
          assert regs[i + 1] == regs[1..][i];
        } else {
          assert regs[0].name == k;
        }
      }
    }
  }

  /** `register_names_random`: the included registers that are not always
      defaulted, then the set drawn from the others, given as `sampled`. */
  function RandomList(info: seq<Register>, included: seq<string>, alwaysDefault: seq<string>, sampled: seq<Register>): (r: seq<Register>)
    ensures forall reg :: reg in r <==>
      (reg in info && reg.name in included && reg.name !in alwaysDefault) || reg in sampled
  {
    Filter(info, Included(included, alwaysDefault)) + sampled
  }

  /** `register_no_default`: the registers neither included nor always
      defaulted, the pool that line 417 samples from. */
  function Pool(info: seq<Register>, included: seq<string>, alwaysDefault: seq<string>): seq<Register> {
    Filter(info, Unlisted(included, alwaysDefault))
  }

  /** What `draw(st.sets(st.sampled_from(register_no_default)))` can be: a
      set of registers from the pool, each at most once. Its order is the
      set's iteration order, which the model leaves open. */
  predicate Sampleable(info: seq<Register>, included: seq<string>, alwaysDefault: seq<string>, sampled: seq<Register>)
    ensures Sampleable(info, included, alwaysDefault, sampled) ==>
      forall reg :: reg in sampled ==> reg in info && reg.name !in included && reg.name !in alwaysDefault
  {
    (forall i :: 0 <= i < |sampled| ==> sampled[i] in Pool(info, included, alwaysDefault))
    && (forall i, j :: 0 <= i < j < |sampled| ==> sampled[i] != sampled[j])
  }

  /** The dictionary `registers_include | registers_default`: the drawn
      values, replaced by the defaults where both have a name. */
  function Merge(m: Machine, random: seq<Register>, defaults: seq<Register>, cs: Choices): (r: Result<Drawn<map<string, Val>>>)
    ensures r.Ok? ==> forall k :: k in r.value.value <==> k in NamesOf(random) || k in NamesOf(defaults)
    ensures r.Ok? ==> Consumed(r.value.rest, cs)
  {
    var drawn :- DrawValues(m, random, cs);
    var defaulted :- DefaultValues(m, defaults);
    Ok(Drawn(drawn.value + defaulted, drawn.rest))
  }

  /** The names of `random` and `defaults` together are the names of
      `info`. */
  ghost predicate NamesCover(info: seq<Register>, random: seq<Register>, defaults: seq<Register>) {
    forall k :: k in NamesOf(info) <==> k in NamesOf(random) || k in NamesOf(defaults)
  }

  /** `random_register_values` as written: line 423 looks a name up among
      `(name, typ)` pairs, so every register is defaulted. */
  function RandomRegisterValuesAsWritten(m: Machine, info: seq<Register>, included: seq<string>, alwaysDefault: seq<string>,
                                         sampled: seq<Register>, cs: Choices): (r: Result<Drawn<map<string, Val>>>)
    requires Sampleable(info, included, alwaysDefault, sampled)
    ensures Pool(info, included, alwaysDefault) == [] ==> r == Err(InvalidArgument)
    ensures r.Ok? ==> forall k :: k in r.value.value <==> k in NamesOf(info)
    ensures r.Ok? ==> Consumed(r.value.rest, cs)
  {
    if Pool(info, included, alwaysDefault) == [] then Err(InvalidArgument)
    else
      var random := RandomList(info, included, alwaysDefault, sampled);
      var defaults := Filter(info, NotPairIn(random));
      AsWrittenCover(info, included, alwaysDefault, sampled);
      Merge(m, random, defaults, cs)
  }

  /** `random_register_values` with line 423 comparing names to names: a
      register is defaulted exactly when it has not been chosen. */
  function RandomRegisterValues(m: Machine, info: seq<Register>, included: seq<string>, alwaysDefault: seq<string>,
                                sampled: seq<Register>, cs: Choices): (r: Result<Drawn<map<string, Val>>>)
    requires Sampleable(info, included, alwaysDefault, sampled)
    ensures Pool(info, included, alwaysDefault) == [] ==> r == Err(InvalidArgument)
    ensures r.Ok? ==> forall k :: k in r.value.value <==> k in NamesOf(info)
    ensures r.Ok? ==> Consumed(r.value.rest, cs)
  {
    if Pool(info, included, alwaysDefault) == [] then Err(InvalidArgument)
    else
      var random := RandomList(info, included, alwaysDefault, sampled);
      var defaults := Filter(info, NotNamedIn(random));
      CorrectedCover(info, included, alwaysDefault, sampled);
      Merge(m, random, defaults, cs)
  }

  /** A filter that keeps everything is the identity. */
  lemma {:induction false} FilterAll(regs: seq<Register>, c: Criterion)
    requires forall reg :: reg in regs ==> Meets(c, reg)
    ensures Filter(regs, c) == regs
  {
    if regs != [] {
      FilterAll(regs[1..], c);
    }
  }

  /** A name of the list is the name of one of its registers. */
  lemma NameIn(regs: seq<Register>, k: string)
    requires k in NamesOf(regs)
    ensures exists i :: 0 <= i < |regs| && regs[i].name == k
  {
    var i :| 0 <= i < |regs| && NamesOf(regs)[i] == k;
  }

  lemma NameOf(regs: seq<Register>, reg: Register)
    requires reg in regs
    ensures reg.name in NamesOf(regs)
  {
    var i :| 0 <= i < |regs| && regs[i] == reg;
    assert NamesOf(regs)[i] == reg.name;
  }

  /** The names of a sub-list are names of the list. */
  lemma NamesSub(sub: seq<Register>, regs: seq<Register>)
    requires forall reg :: reg in sub ==> reg in regs
    ensures forall k :: k in NamesOf(sub) ==> k in NamesOf(regs)
  {
    forall k | k in NamesOf(sub) ensures k in NamesOf(regs) {
      NameIn(sub, k);
      var i :| 0 <= i < |sub| && sub[i].name == k;
      NameOf(regs, sub[i]);
    }
  }

  /** Every register chosen to be random is a register of the machine. */
  lemma RandomKnown(info: seq<Register>, included: seq<string>, alwaysDefault: seq<string>, sampled: seq<Register>)
    requires Sampleable(info, included, alwaysDefault, sampled)
    ensures forall reg :: reg in RandomList(info, included, alwaysDefault, sampled) ==> reg in info
    ensures forall k :: k in NamesOf(RandomList(info, included, alwaysDefault, sampled)) ==> k in NamesOf(info)
  {
    var random := RandomList(info, included, alwaysDefault, sampled);
    forall reg | reg in random ensures reg in info {
      if reg !in Filter(info, Included(included, alwaysDefault)) {
        assert reg in sampled;
      }
    }
    NamesSub(random, info);
  }

  lemma AsWrittenCover(info: seq<Register>, included: seq<string>, alwaysDefault: seq<string>, sampled: seq<Register>)
    requires Sampleable(info, included, alwaysDefault, sampled)
    ensures NamesCover(info, RandomList(info, included, alwaysDefault, sampled),
                       Filter(info, NotPairIn(RandomList(info, included, alwaysDefault, sampled))))
  {
    var random := RandomList(info, included, alwaysDefault, sampled);
    FilterAll(info, NotPairIn(random));
    RandomKnown(info, included, alwaysDefault, sampled);
  }

  lemma CorrectedCover(info: seq<Register>, included: seq<string>, alwaysDefault: seq<string>, sampled: seq<Register>)
    requires Sampleable(info, included, alwaysDefault, sampled)
    ensures NamesCover(info, RandomList(info, included, alwaysDefault, sampled),
                       Filter(info, NotNamedIn(RandomList(info, included, alwaysDefault, sampled))))
  {
    var random := RandomList(info, included, alwaysDefault, sampled);
    var defaults := Filter(info, NotNamedIn(random));
    RandomKnown(info, included, alwaysDefault, sampled);
    NamesSub(defaults, info);
    forall k | k in NamesOf(info) && k !in NamesOf(random) ensures k in NamesOf(defaults) {
      NameIn(info, k);
      var i :| 0 <= i < |info| && info[i].name == k;
      NameOf(defaults, info[i]);
    }
  }

  /** Two registers of a machine with the same name are the same register. */
  lemma SameName(info: seq<Register>, a: Register, b: Register)
    requires UniqueNames(info) && a in info && b in info && a.name == b.name
    ensures a == b
  {
    var i :| 0 <= i < |info| && info[i] == a;
    var j :| 0 <= j < |info| && info[j] == b;
  }

  /** A register listed in `always_default_registers` is never chosen to
      be random, whether or not it is also included. */
  lemma NeverRandom(info: seq<Register>, included: seq<string>, alwaysDefault: seq<string>, sampled: seq<Register>, reg: Register)
    requires Sampleable(info, included, alwaysDefault, sampled)
    requires reg.name in alwaysDefault
    ensures reg !in RandomList(info, included, alwaysDefault, sampled)
  {
  }

  /** A chosen register's name is not among the defaulted names. */
  lemma ChosenNotDefaulted(info: seq<Register>, random: seq<Register>, reg: Register)
    requires reg in random
    ensures reg.name !in NamesOf(Filter(info, NotNamedIn(random)))
  {
    NameOf(random, reg);
    NotNamed(Filter(info, NotNamedIn(random)), reg.name);
  }

  /** A name no register of the list has is not among its names. */
  lemma NotNamed(regs: seq<Register>, k: string)
    requires forall r :: r in regs ==> r.name != k
    ensures k !in NamesOf(regs)
  {
    forall i | 0 <= i < |regs| ensures NamesOf(regs)[i] != k {
      assert regs[i] in regs;
    }
  }

  /** Under unique names, a register's drawn value is of its own type. */
  lemma DrawnOwnType(m: Machine, info: seq<Register>, random: seq<Register>, cs: Choices, reg: Register)
    requires UniqueNames(info) && forall r :: r in random ==> r in info
    requires DrawValues(m, random, cs).Ok? && reg in random
    ensures reg.name in DrawValues(m, random, cs).value.value
    ensures Inhabits(m, DrawValues(m, random, cs).value.value[reg.name], reg.typ)
  {
    var drawn := DrawValues(m, random, cs).value.value;
    NameOf(random, reg);
    DrawValuesTyped(m, random, cs);
    var i :| 0 <= i < |random| && random[i].name == reg.name && Inhabits(m, drawn[reg.name], random[i].typ);
    assert random[i] in random;
    SameName(info, random[i], reg);
  }

  /** With the comparison at line 423 corrected, every register chosen to
      be random gets a drawn value of its type. */
  lemma {:induction false} RandomValueDrawn(m: Machine, info: seq<Register>, included: seq<string>, alwaysDefault: seq<string>,
                                            sampled: seq<Register>, cs: Choices, reg: Register)
    requires Sampleable(info, included, alwaysDefault, sampled) && UniqueNames(info)
    requires RandomRegisterValues(m, info, included, alwaysDefault, sampled, cs).Ok?
    requires reg in RandomList(info, included, alwaysDefault, sampled)
    ensures reg.name in RandomRegisterValues(m, info, included, alwaysDefault, sampled, cs).value.value
    ensures Inhabits(m, RandomRegisterValues(m, info, included, alwaysDefault, sampled, cs).value.value[reg.name], reg.typ)
  {
    var random := RandomList(info, included, alwaysDefault, sampled);
    var defaults := Filter(info, NotNamedIn(random));
    var drawn := DrawValues(m, random, cs).value.value;
    var result := RandomRegisterValues(m, info, included, alwaysDefault, sampled, cs).value.value;
    assert result == drawn + DefaultValues(m, defaults).value;
    RandomKnown(info, included, alwaysDefault, sampled);
    ChosenNotDefaulted(info, random, reg);
    DrawnOwnType(m, info, random, cs, reg);
  }

  /** With the comparison at line 423 corrected, every register not chosen
      to be random, among them those always defaulted, gets its default. */
  lemma {:induction false} OtherValueDefault(m: Machine, info: seq<Register>, included: seq<string>, alwaysDefault: seq<string>,
                                             sampled: seq<Register>, cs: Choices, reg: Register)
    requires Sampleable(info, included, alwaysDefault, sampled) && UniqueNames(info)
    requires RandomRegisterValues(m, info, included, alwaysDefault, sampled, cs).Ok?
    requires reg in info && reg !in RandomList(info, included, alwaysDefault, sampled)
    ensures reg.name in RandomRegisterValues(m, info, included, alwaysDefault, sampled, cs).value.value
    ensures Default(m, reg.typ) == Ok(RandomRegisterValues(m, info, included, alwaysDefault, sampled, cs).value.value[reg.name])
  {
    var random := RandomList(info, included, alwaysDefault, sampled);
    var defaults := Filter(info, NotNamedIn(random));
    var defaulted := DefaultValues(m, defaults).value;
    var result := RandomRegisterValues(m, info, included, alwaysDefault, sampled, cs).value.value;
    assert result == DrawValues(m, random, cs).value.value + defaulted;
    RandomKnown(info, included, alwaysDefault, sampled);
    assert reg.name !in NamesOf(random) by {
      if reg.name in NamesOf(random) {
        NameIn(random, reg.name);
        var i :| 0 <= i < |random| && random[i].name == reg.name;
        assert random[i] in random;
        SameName(info, random[i], reg);
        assert false;
      }
    }
    assert reg in defaults;
    NameOf(defaults, reg);
    assert result[reg.name] == defaulted[reg.name];
    DefaultValuesAre(m, defaults);
    var i :| 0 <= i < |defaults| && defaults[i].name == reg.name && Default(m, defaults[i].typ) == Ok(defaulted[reg.name]);
    assert defaults[i] in defaults;
    SameName(info, defaults[i], reg);
  }

  /** As written, every register ends up with its default, the registers
      chosen to be random included: their draws are made and discarded. */
  lemma {:induction false} AsWrittenAllDefault(m: Machine, info: seq<Register>, included: seq<string>, alwaysDefault: seq<string>,
                                               sampled: seq<Register>, cs: Choices, reg: Register)
    requires Sampleable(info, included, alwaysDefault, sampled) && UniqueNames(info)
    requires RandomRegisterValuesAsWritten(m, info, included, alwaysDefault, sampled, cs).Ok?
    requires reg in info
    ensures reg.name in RandomRegisterValuesAsWritten(m, info, included, alwaysDefault, sampled, cs).value.value
    ensures Default(m, reg.typ) == Ok(RandomRegisterValuesAsWritten(m, info, included, alwaysDefault, sampled, cs).value.value[reg.name])
  {
    var random := RandomList(info, included, alwaysDefault, sampled);
    var defaults := Filter(info, NotPairIn(random));
    FilterAll(info, NotPairIn(random));
    var defaulted := DefaultValues(m, defaults).value;
    var result := RandomRegisterValuesAsWritten(m, info, included, alwaysDefault, sampled, cs).value.value;
    NameOf(info, reg);
    assert result[reg.name] == defaulted[reg.name];
    DefaultValuesAre(m, defaults);
    var i :| 0 <= i < |defaults| && defaults[i].name == reg.name && Default(m, defaults[i].typ) == Ok(defaulted[reg.name]);
    assert defaults[i] in defaults;
    SameName(info, defaults[i], reg);
  }

  /** An included boolean register `x`, a second register `y` left to the
      sampled set, which comes out empty, and the choice for `True`: as
      written `x` is `False`, its default; corrected it is the drawn `True`. */
  lemma AsWrittenIgnoresInclude(m: Machine)
    ensures RandomRegisterValuesAsWritten(m, [Register("x", Bool), Register("y", Bool)], ["x"], [], [], [1])
         == Ok(Drawn(map["x" := BoolVal(false), "y" := BoolVal(false)], []))
    ensures RandomRegisterValues(m, [Register("x", Bool), Register("y", Bool)], ["x"], [], [], [1])
         == Ok(Drawn(map["x" := BoolVal(true), "y" := BoolVal(false)], []))
  {
    var x, y := Register("x", Bool), Register("y", Bool);
    ExampleLists(x, y);
    ExampleMerges(m, x, y);
  }

  /** The lists `random_register_values` builds for the example. */
  lemma ExampleLists(x: Register, y: Register)
    requires x == Register("x", Bool) && y == Register("y", Bool)
    ensures Pool([x, y], ["x"], []) == [y]
    ensures RandomList([x, y], ["x"], [], []) == [x]
    ensures Filter([x, y], NotNamedIn([x])) == [y]
    ensures Filter([x, y], NotPairIn([x])) == [x, y]
  {
    assert [x, y][1..] == [y] && [y][1..] == [] && [x][1..] == [];
    assert "y" != "x" by { assert "y"[0] != "x"[0]; }
    assert NamesOf([x]) == ["x"];
    assert Filter([x, y], Included(["x"], [])) == [x];
    assert [x] + [] == [x];
    FilterAll([x, y], NotPairIn([x]));
  }

  /** The dictionaries of the example: `x` drawn as `True`, then the
      defaults of both registers (as written) or of `y` alone (corrected). */
  lemma ExampleMerges(m: Machine, x: Register, y: Register)
    requires x == Register("x", Bool) && y == Register("y", Bool)
    ensures Merge(m, [x], [x, y], [1]) == Ok(Drawn(map["x" := BoolVal(false), "y" := BoolVal(false)], []))
    ensures Merge(m, [x], [y], [1]) == Ok(Drawn(map["x" := BoolVal(true), "y" := BoolVal(false)], []))
  {
    ExampleDrawn(m, x);
    ExampleDefaults(m, x, y);
    assert map["x" := BoolVal(true)] + map["x" := BoolVal(false), "y" := BoolVal(false)]
        == map["x" := BoolVal(false), "y" := BoolVal(false)];
    assert map["x" := BoolVal(true)] + map["y" := BoolVal(false)] == map["x" := BoolVal(true), "y" := BoolVal(false)];
  }

  /** The defaults of the example's registers: `False` each. */
  lemma ExampleDefaults(m: Machine, x: Register, y: Register)
    requires x == Register("x", Bool) && y == Register("y", Bool)
    ensures DefaultValues(m, [y]) == Ok(map["y" := BoolVal(false)])
    ensures DefaultValues(m, [x, y]) == Ok(map["x" := BoolVal(false), "y" := BoolVal(false)])
  {
    assert DefaultValues(m, []) == Ok(map[]);
    ExampleDefault(m, y, []);
    assert [y] + [] == [y];
    assert map["y" := BoolVal(false)] + map[] == map["y" := BoolVal(false)];
    ExampleDefault(m, x, [y]);
    assert [x] + [y] == [x, y];
    assert map["x" := BoolVal(false)] + map["y" := BoolVal(false)] == map["x" := BoolVal(false), "y" := BoolVal(false)];
  }

  /** A boolean register drawn from the choice 1 is `True`. */
  lemma ExampleDrawn(m: Machine, x: Register)
    requires x.typ == Bool
    ensures DrawValues(m, [x], [1]) == Ok(Drawn(map[x.name := BoolVal(true)], []))
  {
    assert [x][1..] == [];
    assert [1][1..] == [];
    assert Generate(m, Bool, [1]) == Ok(Drawn(BoolVal(true), []));
    assert DrawValues(m, [], []) == Ok(Drawn(map[], []));
    assert map[x.name := BoolVal(true)] + map[] == map[x.name := BoolVal(true)];
  }

  /** A boolean register put in front of others defaults to `False`. */
  lemma ExampleDefault(m: Machine, x: Register, rest: seq<Register>)
    requires x.typ == Bool && DefaultValues(m, rest).Ok?
    ensures DefaultValues(m, [x] + rest) == Ok(map[x.name := BoolVal(false)] + DefaultValues(m, rest).value)
  {
    assert ([x] + rest)[0] == x && ([x] + rest)[1..] == rest;
    assert Default(m, Bool) == Ok(BoolVal(false));
  }

  /** With every register included or always defaulted, the pool is empty
      and `st.sampled_from([])` raises before anything is drawn. */
  lemma EmptyPoolFails(m: Machine, cs: Choices)
    ensures RandomRegisterValuesAsWritten(m, [Register("x", Bool)], ["x"], [], [], cs) == Err(InvalidArgument)
    ensures RandomRegisterValues(m, [Register("x", Bool)], ["x"], [], [], cs) == Err(InvalidArgument)
  {
    assert [Register("x", Bool)][1..] == [];
  }
}
