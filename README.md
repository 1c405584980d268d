# pydrofoil-hypothesis, modelled in Dafny

pydrofoil-hypothesis produces test inputs for a pydrofoil machine, a Python
simulator compiled from a Sail ISA description (here RISC-V 64).

It has three parts:

- A **generator**, `hypothesis_from_pydrofoil_type`. It reads a Sail type
  descriptor (a bit-vector, boolean, integer, string, enum, tuple, record,
  union, vector or unit) and returns a Hypothesis strategy for values of that
  type. Records and unions are built with the machine's own constructors.
- A **default computer**, `default_value`. It gives a zero-like or empty value
  of each type.
- **`random_register_values`**. It builds a dictionary over the machine's
  registers. The chosen registers are meant to get random values and all the
  others their defaults. As written, line 423 defaults every register (see
  "## Findings"); the model states both the code as written and the code
  with line 423 corrected.

Users can subclass `BasePydrofoilStrategies` with `struct_<name>` and
`union_<name>` methods. These override how particular records and unions are
drawn.

The model works like this:

- A strategy becomes a function of a finite **choice sequence** (`seq<nat>`),
  in the way Hypothesis replays a choice buffer. Each draw consumes choices
  from the front and returns the rest. Running out is the error `Overrun`.
- Python's exceptions become `Result` errors:
  - `Unsupported`: the `assert False` of an unhandled type.
  - `IndexError`: `elements[0]` or `classes[0]` on an empty list.
  - `TypeError`: `None @ bv` / `len(None)` in the segment loops below 64 bits.
  - `AttributeError`: `gen_bigbitvector` as written.
  - `InvalidArgument`: an empty integer range or an empty `sampled_from`.
- The machine is a parameter. Its constructors are looked up by name and stay
  uninterpreted. The one fact about them that the code relies on is which
  union constructors accept `()` and which must be called with no argument
  (`try cls(()) except TypeError: cls()`).

Modules, one file each:

- `Results`: errors, `Result` and `Option`.
- `Bitvectors`: `_pydrofoil.bitvector` as (width, value) and `@`.
- `Entropy`: the draws `st.integers`, `st.booleans` and a natural number.
- `SailTypes`: types, values, and `Inhabits`, which says when a value
  inhabits a type.
- `Simulator`: constructor calls and the union argument-unpacking rule.
- `Segments`: the two 64-bit segment loops.
- `Generator`: the dispatch chain and the `gen_*` rules.
- `Defaults`: `default_value` and `gen_Union_default`.
- `Customization`: subclass overrides.
- `Registers`: `random_register_values`.
- `Completeness`: every value the generator's policy allows is drawn from
  some choices, and so is every default.

The generator is modelled with line 182 corrected: as written, every
`BigFixedBitVector` draw raises AttributeError (see "## Findings"), so areas
1-3 below, which speak of the generator, hold for the corrected program.
The model and its proofs cover four areas:

1. **Soundness.** Every generated value inhabits its type. It is within the
   generator's value policy (`GenBounded`: integers in
   [-2 * 63, 2 * 63 - 1], strings all ASCII). It is drawn from a prefix of
   the choices. On a well-formed type the only possible failure (with line
   182 corrected) is running out of choices.
2. **Completeness.** `Encode` gives choices that draw back exactly a given
   value of the type, and whatever follows them is left untouched (with
   line 182 corrected).
3. **Defaults.** `Default` succeeds exactly on well-formed types. Its value
   inhabits the type, is zero-like all the way down, and can also be
   generated (by the generator with line 182 corrected).
4. **Registers.** With line 423 corrected, the registers chosen to be
   random get drawn values of their own types and all others get their
   defaults; as written, all of them get their defaults. A register listed
   in `always_default_registers` is never random. When no register is left
   to sample from, `st.sampled_from([])` raises InvalidArgument before
   anything is drawn.

## Model

| member | source | states |
|---|---|---|
| Generator.Generate | pydrofoilhypothesis/pydrofoilhypothesis.py:25-90 | With line 182 corrected, the dispatcher draws a value that inhabits the type and is within the value policy, from a prefix of the choices. A type no branch handles is refused with the `assert False` error. On a well-formed type the only failure is running out of choices. |
| Generator.Draw | pydrofoilhypothesis/pydrofoilhypothesis.py:36-88 | With line 182 corrected, each dispatch branch's rule yields an inhabitant of the type from a prefix of the choices. |
| Generator.OneFieldDraw | pydrofoilhypothesis/pydrofoilhypothesis.py:62-63 | A record with exactly one field is drawn exactly as its field's type: the same result from the same choices, errors included. |
| Generator.DrawScalar | pydrofoilhypothesis/pydrofoilhypothesis.py:42-51 | With line 182 corrected, the branches for types with nothing nested inside (bit-vectors, booleans, integers, strings, enums, unit) yield an inhabitant of the type from a prefix of the choices. On a well-formed type they fail only by running out of choices. |
| Generator.DrawBitVector | pydrofoilhypothesis/pydrofoilhypothesis.py:36-88 | With line 182 corrected, the three bit-vector branches (lines 36-39 for the fixed-width ones, lines 87-88 for the generic one) yield a valid vector of the type from a prefix of the choices. |
| Generator.WellFormedBuildable | pydrofoilhypothesis/pydrofoilhypothesis.py:52-82 | On a well-formed type, building the strategy eagerly (tuple, record, union and vector element strategies) never reaches the `assert False` branch. |
| Generator.GenBitvector | pydrofoilhypothesis/pydrofoilhypothesis.py:172-177 | The result has exactly the type's width and a value at most 2^width - 1. One choice is consumed. It fails only without choices. |
| Generator.GenBigBitvector | pydrofoilhypothesis/pydrofoilhypothesis.py:179-182 | The intended delegation to `_help_gen_bigbitvector`: a valid vector of exactly the width, consuming one choice per segment. From 64 bits up it fails exactly when there are too few choices. |
| Generator.GenBigBitvectorAsWritten | pydrofoilhypothesis/pydrofoilhypothesis.py:179-182 | As written, the rule calls itself with the width, an int, whose `.width` lookup fails: the result is always AttributeError. |
| Generator.BigBitvectorAsWrittenFails | pydrofoilhypothesis/pydrofoilhypothesis.py:179-182 | As written, every big bit-vector draw raises AttributeError. The intended rule draws the 80-bit zero vector from two choices. |
| Generator.DrawRepeated | pydrofoilhypothesis/pydrofoilhypothesis.py:188-191 | Appending k draws keeps the earlier elements as a prefix. Every element inhabits the element type. The choices consumed are a prefix. |
| Generator.GenFVec | pydrofoilhypothesis/pydrofoilhypothesis.py:184-191 | The loop returns exactly `length` elements of the element type. Its result equals the specification `DrawRepeated`. |
| Generator.GenFVecValue | pydrofoilhypothesis/pydrofoilhypothesis.py:40-41 | A fixed vector's list inhabits `FVec(of, length)` and is within the value policy. |
| Generator.GenBool | pydrofoilhypothesis/pydrofoilhypothesis.py:193-195 | A boolean from one choice. It fails only without choices. |
| Generator.GenMachineInt | pydrofoilhypothesis/pydrofoilhypothesis.py:197-199 | An integer in [-126, 125], the literal range `-2 * 63 .. 2 * 63 - 1`, from one choice. |
| Generator.GenInt | pydrofoilhypothesis/pydrofoilhypothesis.py:201-203 | The same literal range for unbounded integers. |
| Generator.DrawAscii | pydrofoilhypothesis/pydrofoilhypothesis.py:205-207 | k more characters, all with code point at most 127, are appended after the given prefix. It fails exactly when fewer than k choices remain. |
| Generator.GenString | pydrofoilhypothesis/pydrofoilhypothesis.py:205-207 | An ASCII string whose length is the first choice. |
| Generator.GenEnum | pydrofoilhypothesis/pydrofoilhypothesis.py:209-211 | The result is one of the declared elements. An empty enum is an invalid argument. Otherwise the only failure is running out of choices. |
| Generator.DrawEach | pydrofoilhypothesis/pydrofoilhypothesis.py:213-216 | One value per element type, in order, each inhabiting its type. |
| Generator.GenTuple | pydrofoilhypothesis/pydrofoilhypothesis.py:52-57 | A tuple value inhabiting the tuple type. |
| Generator.DrawFields | pydrofoilhypothesis/pydrofoilhypothesis.py:218-222 | One value per field, in declaration order, each inhabiting its field type. |
| Generator.GenStruct | pydrofoilhypothesis/pydrofoilhypothesis.py:218-223 | For a record with other than one field: the machine's record of that name, built from one value per field. |
| Generator.GenUnion | pydrofoilhypothesis/pydrofoilhypothesis.py:225-249 | The constructor is the one at the drawn index, its arguments fit that constructor's payload type, and the result inhabits the union. A union with no constructors is an invalid argument. |
| Generator.GenVec | pydrofoilhypothesis/pydrofoilhypothesis.py:251-253 | A list whose length is the first choice, every element of the element type. |
| Generator.GenUnit | pydrofoilhypothesis/pydrofoilhypothesis.py:255-257 | Always `()`, consuming nothing. |
| Generator.GenGenericBitvector | pydrofoilhypothesis/pydrofoilhypothesis.py:259-266 | A valid vector whose width is the first choice, at any width. Above 64 bits it is built from segments. |
| Simulator.BuildStruct | pydrofoilhypothesis/pydrofoilhypothesis.py:223 | The record of that name with exactly the given values as its arguments. |
| Simulator.BuildVariant | pydrofoilhypothesis/pydrofoilhypothesis.py:234-249 | The unpacking rule: a non-empty tuple is spread; `()` is passed as `()` or dropped, depending on what the constructor accepts; a record is spread as its fields; anything else is passed as is. |
| Simulator.BuildVariantFits | pydrofoilhypothesis/pydrofoilhypothesis.py:235-249 | For every payload type, unpacking a payload of that type gives arguments that fit it, seen through one-field records. |
| Simulator.BuildVariantBounded | pydrofoilhypothesis/pydrofoilhypothesis.py:243-249 | Unpacking passes on only values already within the value policy. |
| Bitvectors.ConcatValid | pydrofoilhypothesis/pydrofoilhypothesis.py:281 | `@` adds the widths, and the result fits in the summed width. |
| Bitvectors.SplitConcat | pydrofoilhypothesis/pydrofoilhypothesis.py:281 | `@` loses nothing: both parts can be read back from the result. |
| Bitvectors.ConcatSplit | pydrofoilhypothesis/pydrofoilhypothesis.py:286 | Any valid vector is its high and low parts appended. |
| Bitvectors.ConcatAssoc | pydrofoilhypothesis/pydrofoilhypothesis.py:281 | Appending segments left to right gives the same vector however the appends are grouped. |
| Segments.DrawSegments | pydrofoilhypothesis/pydrofoilhypothesis.py:273-289 | It succeeds exactly when there is a whole 64-bit segment and a choice for every segment. The result is valid, of the requested width, and the consumed choices are one per segment. |
| Segments.BigBitsShape | pydrofoilhypothesis/pydrofoilhypothesis.py:270-289 | From 64 bits up the vector has the exact width and fails only by running out of choices. Below 64 bits the loop never leaves `None` and always fails. |
| Segments.HelpGenBigBitvector | pydrofoilhypothesis/pydrofoilhypothesis.py:270-289 | The while loop computes the specification `BigBits`, a valid vector of exactly the width. |
| Segments.ZeroSegments | pydrofoilhypothesis/pydrofoilhypothesis.py:346-360 | Appending zero segments gives the zero vector of the full width. Starting from `None` below 64 bits raises TypeError. |
| Segments.HugeBitvectorDefault | pydrofoilhypothesis/pydrofoilhypothesis.py:343-360 | The loop succeeds exactly from 64 bits up, returning the zero vector of that width. |
| Segments.ZeroDrawIsDefault | pydrofoilhypothesis/pydrofoilhypothesis.py:348-357 | The drawing loop with every choice zero returns the same vector as the default loop, leaving the other choices intact. |
| Defaults.Default | pydrofoilhypothesis/pydrofoilhypothesis.py:295-340 | It succeeds exactly on well-formed types. The value inhabits the type and is zero-like all the way down. A failure is the `assert False`, an `IndexError`, or the `TypeError` of a too-narrow big vector. |
| Defaults.DefaultScalar | pydrofoilhypothesis/pydrofoilhypothesis.py:297-338 | For a type with nothing nested inside, the default exists exactly when the type is well-formed, inhabits it for every machine and is zero-like. An empty enum gives IndexError and a big vector under 64 bits TypeError. |
| Defaults.DefaultStructValue | pydrofoilhypothesis/pydrofoilhypothesis.py:319-322 | A record with other than one field: its default inhabits the record type exactly when every field is well-formed. |
| Defaults.DefaultUnionValue | pydrofoilhypothesis/pydrofoilhypothesis.py:323-329 | The union's default inhabits it exactly when the union is well-formed, even though every constructor's default is computed. |
| Defaults.DefaultEach | pydrofoilhypothesis/pydrofoilhypothesis.py:314 | One default per element type, each inhabiting its type. It succeeds exactly when all the element types are well-formed. |
| Defaults.DefaultFields | pydrofoilhypothesis/pydrofoilhypothesis.py:319-321 | One default per field, with the same guarantees. |
| Defaults.DefaultPayloads | pydrofoilhypothesis/pydrofoilhypothesis.py:325-328 | One default per constructor payload, computed for all constructors, with the same guarantees. |
| Defaults.GenUnionDefault | pydrofoilhypothesis/pydrofoilhypothesis.py:363-384 | It succeeds exactly when there is a constructor, using the first one. With no constructor, `classes[0]` raises IndexError. Zero-likeness carries over. |
| Defaults.ZeroLikeBounded | pydrofoilhypothesis/pydrofoilhypothesis.py:296 | Every zero-like value lies within the generator's value policy. |
| Defaults.DefaultBitvectors | pydrofoilhypothesis/pydrofoilhypothesis.py:297-300 | Small vectors default to zero at their width. Big ones default to zero exactly from 64 bits up. The generic vector defaults to the 1-bit zero. |
| Defaults.DefaultEnum | pydrofoilhypothesis/pydrofoilhypothesis.py:311-312 | The first element, or IndexError for an empty enum. |
| Defaults.DefaultEachElementwise | pydrofoilhypothesis/pydrofoilhypothesis.py:314 | Each element's default is that element type's own `Default`. |
| Defaults.DefaultFieldsElementwise | pydrofoilhypothesis/pydrofoilhypothesis.py:319-321 | Each field's default is that field type's own `Default`. |
| Defaults.DefaultTuple | pydrofoilhypothesis/pydrofoilhypothesis.py:313-315 | A tuple of the element types' defaults, in order. |
| Defaults.DefaultStruct | pydrofoilhypothesis/pydrofoilhypothesis.py:316-322 | A one-field record defaults to its field's default. Any other record defaults to the machine's record built from the fields' defaults. |
| Defaults.DefaultUnion | pydrofoilhypothesis/pydrofoilhypothesis.py:323-329 | The first constructor with its payload's default unpacked. An empty union gives IndexError. |
| Defaults.DefaultFVec | pydrofoilhypothesis/pydrofoilhypothesis.py:301-302 | `length` copies of the element default. |
| Defaults.DefaultVec | pydrofoilhypothesis/pydrofoilhypothesis.py:330-332 | The one-element list of the element default, not the empty list. |
| Customization.Base | pydrofoilhypothesis/pydrofoilhypothesis.py:20-23 | The base object has the machine and no override. |
| Customization.RuleFor | pydrofoilhypothesis/pydrofoilhypothesis.py:58-73 | An override is found only for a record (in the `struct_` namespace) or a union (in the `union_` namespace) of that name. |
| Customization.DrawWith | pydrofoilhypothesis/pydrofoilhypothesis.py:58-73 | An override, when present, decides the draw (`_gen_specific_Struct`, `_gen_specific_Union`). Otherwise the dispatcher decides it. Well-typed overrides keep the result well-typed. |
| Customization.BaseIsModuleLevel | pydrofoilhypothesis/pydrofoilhypothesis.py:7-17 | The module-level function is the base object's method. |
| Customization.RulesTopLevelOnly | pydrofoilhypothesis/pydrofoilhypothesis.py:54-81 | Without an override for the type itself, a subclass draws exactly as the base object does, whatever overrides its nested types have. |
| Customization.RuleLocality | pydrofoilhypothesis/pydrofoilhypothesis.py:59-71 | An override for one name does not affect types of other names. A `struct_` override never affects a union, and vice versa. |
| Registers.Filter | pydrofoilhypothesis/pydrofoilhypothesis.py:406-424 | A comprehension keeps exactly the registers that meet its condition, and no more of them than the list has. |
| Registers.FilterAppend | pydrofoilhypothesis/pydrofoilhypothesis.py:406-424 | A comprehension keeps order and multiplicity: filtering a concatenation is filtering each part and concatenating. |
| Registers.FilterOne | pydrofoilhypothesis/pydrofoilhypothesis.py:406-424 | A single register is kept exactly when it meets the condition. |
| Registers.RandomList | pydrofoilhypothesis/pydrofoilhypothesis.py:406-418 | `register_names_random` holds exactly the included registers that are not always defaulted, and the sampled ones. |
| Registers.Sampleable | pydrofoilhypothesis/pydrofoilhypothesis.py:411-418 | A sampled set comes from `register_no_default`, each register at most once: none of its registers is included or always defaulted. |
| Registers.DrawValues | pydrofoilhypothesis/pydrofoilhypothesis.py:425-428 | The drawn dictionary's keys are exactly the chosen names, and draws consume a prefix of the choices. |
| Registers.DrawValuesTyped | pydrofoilhypothesis/pydrofoilhypothesis.py:425-428 | Every drawn entry is a value of the type of some register with that name. |
| Registers.DefaultValues | pydrofoilhypothesis/pydrofoilhypothesis.py:429-431 | It succeeds exactly when every defaulted type is well-formed, with the defaulted names as keys. |
| Registers.DefaultValuesAre | pydrofoilhypothesis/pydrofoilhypothesis.py:429-431 | Every defaulted entry is the `Default` of some register with that name. |
| Registers.Merge | pydrofoilhypothesis/pydrofoilhypothesis.py:432 | The union of the two dictionaries has the names of both. |
| Registers.RandomRegisterValuesAsWritten | pydrofoilhypothesis/pydrofoilhypothesis.py:387-432 | As written: an empty sampling pool raises InvalidArgument at line 417. Otherwise, on success, there is a key for every register of the machine, and the choices consumed are a prefix. |
| Registers.RandomRegisterValues | pydrofoilhypothesis/pydrofoilhypothesis.py:387-432 | Corrected at line 423: an empty sampling pool raises InvalidArgument at line 417. Otherwise, on success, there is a key for every register of the machine, and the choices consumed are a prefix. |
| Registers.EmptyPoolFails | pydrofoilhypothesis/pydrofoilhypothesis.py:411-418 | With the only register included, `st.sampled_from([])` raises InvalidArgument, as written and corrected, whatever the choices. |
| Registers.FilterAll | pydrofoilhypothesis/pydrofoilhypothesis.py:420-424 | A condition every register meets keeps them all. |
| Registers.RandomKnown | pydrofoilhypothesis/pydrofoilhypothesis.py:406-418 | Every register chosen to be random is a register of the machine. |
| Registers.AsWrittenCover | pydrofoilhypothesis/pydrofoilhypothesis.py:420-424 | As written, the defaulted list is the whole register list. |
| Registers.CorrectedCover | pydrofoilhypothesis/pydrofoilhypothesis.py:420-424 | Corrected, the chosen names and the defaulted names together are exactly the register names. |
| Registers.NeverRandom | pydrofoilhypothesis/pydrofoilhypothesis.py:406-415 | A register named in `always_default_registers` is never chosen to be random, even when it is also included. |
| Registers.ChosenNotDefaulted | pydrofoilhypothesis/pydrofoilhypothesis.py:420-424 | Corrected, a chosen register's name is not among the defaulted ones. |
| Registers.DrawnOwnType | pydrofoilhypothesis/pydrofoilhypothesis.py:425-428 | With unique register names, each chosen register's entry inhabits its own type. |
| Registers.RandomValueDrawn | pydrofoilhypothesis/pydrofoilhypothesis.py:425-432 | Corrected: every register chosen to be random has its drawn value, of its type, in the result. |
| Registers.OtherValueDefault | pydrofoilhypothesis/pydrofoilhypothesis.py:429-432 | Corrected: every register not chosen, among them the always-default ones, maps to its `Default`. |
| Registers.AsWrittenAllDefault | pydrofoilhypothesis/pydrofoilhypothesis.py:420-432 | As written, every register maps to its `Default`, the chosen ones included. |
| Registers.AsWrittenIgnoresInclude | pydrofoilhypothesis/pydrofoilhypothesis.py:406-432 | An included boolean register `x`, a second register `y` in the pool, an empty sampled set and the choice for `True`: as written `x` maps to `False`, corrected to `True`; `y` maps to `False` in both. |
| Completeness.GenerateReaches | pydrofoilhypothesis/pydrofoilhypothesis.py:25-90 | With line 182 corrected, every value of a well-formed type within the value policy is drawn back exactly from its encoding, leaving whatever followed the encoding. |
| Completeness.DrawReaches | pydrofoilhypothesis/pydrofoilhypothesis.py:36-88 | The same, for each dispatch branch, with line 182 corrected. |
| Completeness.GenericSmallReach | pydrofoilhypothesis/pydrofoilhypothesis.py:259-264 | A generic vector of at most 64 bits is drawn back from its width followed by its value. |
| Completeness.GenericBigReach | pydrofoilhypothesis/pydrofoilhypothesis.py:259-266 | A wider generic vector is drawn back from its width followed by its 64-bit segments. |
| Completeness.SegmentsReach | pydrofoilhypothesis/pydrofoilhypothesis.py:273-289 | The segment loop redraws any valid vector from its 64-bit segments, most significant first. |
| Completeness.RepeatedReaches | pydrofoilhypothesis/pydrofoilhypothesis.py:188-191 | The repetition loop redraws any list of element values. |
| Completeness.EachReaches | pydrofoilhypothesis/pydrofoilhypothesis.py:213-216 | The tuple draw redraws any tuple of element values. |
| Completeness.FieldsReaches | pydrofoilhypothesis/pydrofoilhypothesis.py:222 | The field draw redraws any sequence of field values. |
| Completeness.UnionReaches | pydrofoilhypothesis/pydrofoilhypothesis.py:225-249 | Every variant of the union is generated: its constructor index, then its payload repacked. |
| Completeness.RepackFits | pydrofoilhypothesis/pydrofoilhypothesis.py:235-249 | Arguments that fit a payload type are repacked into a payload that inhabits it and unpacks back to them. |
| Completeness.TextReaches | pydrofoilhypothesis/pydrofoilhypothesis.py:205-207 | Every ASCII string is drawn. |
| Completeness.DefaultReachable | pydrofoilhypothesis/pydrofoilhypothesis.py:295-340 | The default of a well-formed type is a value the generator, with line 182 corrected, draws too. |

## Left out

- Hypothesis's probability distributions, example database and shrinking are not modelled. Which value is drawn is the choice sequence's business: `st.integers(lo, hi)` is `lo + c mod (hi - lo + 1)`, `st.booleans` is `c mod 2`, and lists and text draw their length first.
- The `@st.composite` trampolines at lines 95-167 are folded into the rules they forward to.
- The dispatcher recognises `FVec`, `Vec` and `Unit` by looking at a string (`str(typ)` or the class name). The model uses type variants for them, so every type meets exactly one branch and the order of the chain plays no part. A type of some other class whose string happens to contain `.FVec` or `.Vec` is not modelled.
- Which constructors reject `cls(())` with a TypeError is the machine's own business. It is a set in `Machine`.
- The `_pydrofoil` machine, its constructors and `register_info()` are outside this model. Constructors give uninterpreted values, and the register list is an input.
- `draw(st.sets(st.sampled_from(register_no_default)))` is the parameter `sampled`: distinct registers that are neither included nor always defaulted. Which set is drawn, and the iteration order of a Python set, are left open; the choices it consumes are not modelled. Its error case, an empty pool, is modelled.
- Customization.DrawWith: overrides apply only where the code looks them up: at the top level. Every nested type goes through the module-level function, which builds a fresh base object (line 17), so a subclass's overrides do not reach records and unions nested inside other types.
- Customization.RulesTyped: an override is an arbitrary function. Whether its results are well-typed is the user's business, stated as a premise.
- A subclass that replaces the `gen_*` rules themselves, rather than adding `struct_`/`union_` methods, is not modelled.
- Generator.GenMachineInt: the range is the literal `-2 * 63 .. 2 * 63 - 1` = [-126, 125], as the code has it. A machine integer is any 64-bit signed integer, but the code never draws one outside this small range. `2 ** 63` may have been meant (test/test_pydrofoilhypothesis.py:60 checks values against the 64-bit range, which the small range also meets, and line 203 carries a TODO); the model keeps the code as written throughout.
- Generator.DrawBitVector: its `BigFixedBitVector` branch uses the corrected `GenBigBitvector`. As written, that branch raises AttributeError for every big vector (line 182), so for the code as written the generator's guarantees on types containing a big vector hold only up to that error.
- Unicode beyond code point 127 never arises: `gen_String` draws ASCII only.
- I/O, the RISC-V machine instance and the test files are not part of the model.

## Findings

| source | as written | input that shows it | evidently intended | confidence | as-written member | corrected member |
|---|---|---|---|---|---|---|
| pydrofoilhypothesis/pydrofoilhypothesis.py:182 | `gen_bigbitvector` calls itself with `typ.width`, an int, and the nested call looks up `.width` on that int | any `BigFixedBitVector`, e.g. width 80 | `self._help_gen_bigbitvector(draw, typ.width)` | not executed | Generator.GenBigBitvectorAsWritten, Generator.BigBitvectorAsWrittenFails | Generator.GenBigBitvector |
| pydrofoilhypothesis/pydrofoilhypothesis.py:423 | `name not in register_names_random` tests a string against a list of `(name, typ)` pairs, so it is always true and every register is defaulted | registers `x: bool` (included) and `y: bool`, sampled set empty, choice 1 (`True`): the result maps `x` to `False` | `name not in [n for (n, _) in register_names_random]` | not executed | Registers.RandomRegisterValuesAsWritten, Registers.AsWrittenAllDefault, Registers.AsWrittenIgnoresInclude | Registers.RandomRegisterValues, Registers.RandomValueDrawn |
