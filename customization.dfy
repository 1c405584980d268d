/** `BasePydrofoilStrategies` subclassed with `struct_<name>` and
    `union_<name>` methods: user rules for particular record and union
    types, looked up by name when the object draws a type. */
module Customization {
  import opened Results
  import opened Entropy
  import opened SailTypes
  import opened Generator

  /** A user rule `meth(draw, typ)`: any strategy, given the type it was
      looked up for. */
  type Rule = (Ty, Choices) -> Result<Drawn<Val>>

  /** A strategies object: its machine and the rules its class defines,
      by the type name after `struct_` or `union_`. */
  datatype Strategies = Strategies(machine: Machine, structRules: map<string, Rule>, unionRules: map<string, Rule>)

  /** `BasePydrofoilStrategies(machine)`: no rule at all. */
  function Base(m: Machine): (s: Strategies)
    ensures s.machine == m && s.structRules == map[] && s.unionRules == map[]
  {
    Strategies(m, map[], map[])
  }

  /** The rule `getattr(self, f"struct_{typ.name}", None)` or
      `getattr(self, f"union_{typ.name}", None)` finds for `t`, if any. Only
      records and unions are looked up, each in its own namespace. */
  function RuleFor(s: Strategies, t: Ty): (r: Option<Rule>)
    ensures r.Some? <==> (t.Struct? && t.name in s.structRules) || (t.Union? && t.name in s.unionRules)
    ensures r.Some? && t.Struct? ==> r.value == s.structRules[t.name]
    ensures r.Some? && t.Union? ==> r.value == s.unionRules[t.name]
  {
    match t
    case Struct(name, _) => if name in s.structRules then Some(s.structRules[name]) else None
    case Union(name, _) => if name in s.unionRules then Some(s.unionRules[name]) else None
    case _ => None
  }

  /** Every rule returns values of the type it was looked up for. */
  ghost predicate RulesTyped(s: Strategies) {
    forall t: Ty, cs: Choices :: RuleFor(s, t).Some? && RuleFor(s, t).value(t, cs).Ok?
      ==> Inhabits(s.machine, RuleFor(s, t).value(t, cs).value.value, t)
  }

  /** `self.hypothesis_from_pydrofoil_type(typ)` drawn once: the rule for
      `t` when there is one (`_gen_specific_Struct`, `_gen_specific_Union`),
      otherwise the dispatch chain. Every nested type goes through the
      module-level function, which builds a fresh base object. */
  function DrawWith(s: Strategies, t: Ty, cs: Choices): (r: Result<Drawn<Val>>)
    ensures RuleFor(s, t).Some? ==> r == RuleFor(s, t).value(t, cs)
    ensures RuleFor(s, t).None? ==> Generated(s.machine, r, t, cs)
    ensures RulesTyped(s) && r.Ok? ==> Inhabits(s.machine, r.value.value, t)
  {
    match RuleFor(s, t)
    case Some(rule) => rule(t, cs)
    case None => Generate(s.machine, t, cs)
  }

  /** The module-level `hypothesis_from_pydrofoil_type(typ, machine)` is the
      base object's method. */
  lemma BaseIsModuleLevel(m: Machine, t: Ty, cs: Choices)
    ensures DrawWith(Base(m), t, cs) == Generate(m, t, cs)
  {
  }

  /** Rules apply at the top level only: a type that is not itself a
      record or union with a rule is drawn as the base object draws it,
      whatever rules its nested records and unions have. */
  lemma RulesTopLevelOnly(s: Strategies, t: Ty, cs: Choices)
    requires RuleFor(s, t).None?
    ensures DrawWith(s, t, cs) == DrawWith(Base(s.machine), t, cs)
  {
  }

  /** A rule for one name changes nothing for types of other names, and a
      `struct_` rule is never used for a union (nor a `union_` rule for a
      record). */
  lemma RuleLocality(s: Strategies, name: string, rule: Rule, t: Ty, cs: Choices)
    requires !((t.Struct? || t.Union?) && t.name == name)
    ensures DrawWith(Strategies(s.machine, s.structRules[name := rule], s.unionRules), t, cs) == DrawWith(s, t, cs)
    ensures DrawWith(Strategies(s.machine, s.structRules, s.unionRules[name := rule]), t, cs) == DrawWith(s, t, cs)
    ensures t.Union? ==> DrawWith(Strategies(s.machine, map[], s.unionRules), t, cs) == DrawWith(s, t, cs)
    ensures t.Struct? ==> DrawWith(Strategies(s.machine, s.structRules, map[]), t, cs) == DrawWith(s, t, cs)
  {
  }
}
