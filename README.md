# dry-types-tuple, modelled in Dafny

This project models the core of the Ruby gem dry-types-tuple, which has four parts:

- **`Dry::Types::Tuple`** (`lib/dry/types/tuple.rb`) is a type over an Array.
  - It has a fixed list of positional element types and an optional *rest type*, which covers every position after them.
  - It builds its *types index* from a build list such as `[String, Integer, [Symbol]]`.
  - It coerces an Array position by position.
  - It also derives a few related forms: `of`, `lax`, `constrained?`, `to_ast` and the printer's `Tuple<...>` text.
- **`Dry::Tuple::ClassDecorator`** (`lib/dry/tuple/class_decorator.rb`) lets a class be built from a positional Array through its tuple type. It has a safe mode, which calls a fallback block, and an unsafe mode, which raises.
  - When such classes are combined with `|`, the sum builds the first class whose tuple accepts the input.
- **`Dry::Tuple::Struct::ClassInterface`** (`lib/dry/tuple/struct.rb`) adds positional input to a struct class.
  - `auto_tuple` keeps an ordered, duplicate-free list of attribute keys.
  - It derives the class's tuple from the attribute types in that order.
  - `coerce_tuple` zips a coerced Array back into an attribute Hash.
- **`Dry::Tuple::TypeCoercer`** (`lib/dry/tuple/type_coercer.rb`) turns what a class is given as its `tuple` into a tuple type. It accepts an Array of types, a tuple, a constrained tuple, or `nil`.

The Dafny modules are:

- `Wrappers` and `Values`: `Option`/`Result`, the Ruby values and errors, and `Dry::Types::Result`.
- `TupleTypes`: building and coercion.
- `TupleForms`: the derived forms.
- `ClassDecorator`: the decorator and sums of classes.
- `TupleStruct`: the struct interface.
- `TypeCoercer`: the coercer.
- `Examples`: examples taken from the repository's specs and doc comments.

Modelling choices:

- **Element types.** Element types are a type parameter `T`. What an element type does with a value (its `try`) is passed in as the function `tryElem`.
- **Build list.** The list given to `build` is a sequence of `Item`s. Each item is a type, or a trailing Array of types (`List`).
- **Types index.** The index is a `TypesIndex`: its slots `0..n-1` and its Hash default (the rest type).
- **Imperative code.** Code that changes state is modelled imperatively:
  - `extract_rest` pops the caller's list. It is a method of the class `BuildList`.
  - `build_index` is a loop.
  - `coerce` is a loop over the input that appends to `output` and `failures`. It is proved equal to the function `Coerced`, and the properties are proved about `Coerced`.
  - `auto_tuple` updates the class-level settings `keys_order` and `tuple`. They are fields of the class `StructClass`.
- **Raised exceptions.** A raised exception is an `Err` result. `ArgumentError` comes from `extract_rest`; `MapError` comes from `call_unsafe`.
- **Calls outside the model.** A `super` call, a block, and the library call `Tuple.coerce` are function parameters.
- **Construction.** A class's own `new` is a fallible parameter (`ClassDecl.construct`). For a struct this is `Dry::Struct.new`, which raises on attributes its schema rejects. A plain class's `new` builds an instance that holds its argument.

Two behaviours of the code worth stating:

- **Failure reporting.** `coerce` (tuple.rb:167-183) does not stop at the first failing position. It reports every failing position, in position order, inside one `MultipleError` (`TupleTypes.FailureReport`).
- **A sum where no class accepts.** A sum of classes that accepts nothing ends in what the *last* class's `call_unsafe` does: it raises the `MapError` of the last tuple's failure (`ClassDecorator.SumCallUnsafeResolves`).

## Model

| member | source | states |
|---|---|---|
| Values.DecimalString | lib/dry/types/tuple.rb:218 | the `#{pos}` text of a slot number is a non-empty run of decimal digits with no leading zero |
| Values.DecimalRoundTrip | lib/dry/types/tuple.rb:218 | reading back the digits of a slot number's text gives the number |
| TupleTypes.IndexOfSplits | lib/dry/types/tuple.rb:33-53 | a trailing one-element list becomes the rest type, and the other entries become slots 0..n-1 in order; a trailing empty list is dropped and leaves no rest type; without a trailing list there is no rest type; a trailing list of more than one type is an ArgumentError carrying its size |
| TupleTypes.IndexOfSlots | lib/dry/types/tuple.rb:33-38 | slot i of a built index is the i-th entry of the build list, and the rest type is the single element of the trailing list |
| TupleTypes.BuildList.ExtractRest | lib/dry/types/tuple.rb:43-53 | returns Undefined when the last entry is not a list; raises without popping when the trailing list holds more than one type; otherwise pops the list (the list shrinks by one) and returns its element or nil |
| TupleTypes.BuildList.BuildIndex | lib/dry/types/tuple.rb:33-38 | the loop numbers the remaining entries from 0 and gives the specified index; the caller's list is left without its trailing rest list |
| TupleTypes.BuildUnsplat | lib/dry/types/tuple.rb:25-27 | a tuple type with the built index and empty meta, or the ArgumentError; the caller's list loses its trailing rest list, as `build_index` pops it |
| TupleTypes.Build | lib/dry/types/tuple.rb:20-22 | fails exactly when the trailing list holds more than one type, with the ArgumentError carrying its size; otherwise the tuple type has empty meta and the built index |
| TupleTypes.TypesIndex.Lookup | lib/dry/types/tuple.rb:168 | `types_index[i]` is nil only past the fixed slots of an index without a rest type; every position past the slots gets the Hash default, the rest type (set at tuple.rb:36) |
| TupleTypes.TupleType.FixedTypes | lib/dry/types/tuple.rb:75-77 | the fixed types are what `types_index[i]` gives for positions 0..n-1, in order; past them the index answers its default |
| TupleTypes.TupleType.RestType | lib/dry/types/tuple.rb:82-84 | the rest type is what `types_index[i]` gives for every position past the fixed types (nil when absent) |
| TupleTypes.NominalTuple | lib/dry/types/tuple.rb:225 | `nominal.tuple` is what `build([any])` gives: no fixed slot, and `any` as the rest type |
| TupleTypes.Coerce | lib/dry/types/tuple.rb:157-184 | the loop over the input computes the result `Coerced` describes; a non-Array fails at once |
| TupleTypes.FailuresEmptyIff | lib/dry/types/tuple.rb:167-179 | the failures collected so far are empty iff every position so far had a type that accepted its value |
| TupleTypes.OutputsWhenAllFit | lib/dry/types/tuple.rb:167-180 | when every position fits, the output has one coerced value per position, in order |
| TupleTypes.NonArrayFailsAtOnce | lib/dry/types/tuple.rb:158-162 | a non-Array fails with the input kept and a not-an-Array error, whatever the element types would do |
| TupleTypes.SuccessIffAllFit | lib/dry/types/tuple.rb:157-184 | coercion succeeds iff the input is an Array and every position has a type that accepts its value |
| TupleTypes.SuccessOutput | lib/dry/types/tuple.rb:167-180 | on success the output is an Array of the input's length, and element i is what position i's type made of input i |
| TupleTypes.ShortInputAccepted | lib/dry/types/tuple.rb:167-171 | the length is never checked against the fixed slots: an Array no longer than them is accepted iff each element passes its own slot |
| TupleTypes.FailingPositions | lib/dry/types/tuple.rb:167-177 | exactly the failing positions, in increasing order |
| TupleTypes.FailuresAlongPositions | lib/dry/types/tuple.rb:167-177 | the failures list holds one error per failing position, in position order |
| TupleTypes.FailureReport | lib/dry/types/tuple.rb:179-183 | a failing Array keeps the input unchanged and reports a MultipleError listing the error of every failing position, in order |
| TupleTypes.OverflowWithoutRest | lib/dry/types/tuple.rb:168-171 | without a rest type, every position past the fixed slots fails, and its "not fits" error is among those reported |
| TupleTypes.Try | lib/dry/types/tuple.rb:118-123 | the coercion result when it succeeded or no block was given, else the block's value on the failure |
| TupleTypes.CallSafe | lib/dry/types/tuple.rb:109-111 | returns the coerced Array (of the input's length) iff coercion succeeds, else leaves with the fallback's value |
| TupleTypes.CallUnsafe | lib/dry/types/tuple.rb:98-102 | returns the coerced Array iff coercion succeeds, else raises a MapError carrying the failure's error |
| TupleForms.Of | lib/dry/types/tuple.rb:61-63 | the receiver with a freshly built index and its own meta, or the build error |
| TupleForms.OfIndependentOfReceiver | lib/dry/types/tuple.rb:61-63 | the index `of` gives depends on its arguments only, never on the receiver's old index |
| TupleForms.LaxSlots | lib/dry/types/tuple.rb:131 | each slot replaced by its lax form, position by position, in a new index |
| TupleForms.Lax | lib/dry/types/tuple.rb:130-133 | as written: the wrapped tuple has the lax slots and the same meta, but no rest type |
| TupleForms.LaxRejectsRestPositions | lib/dry/types/tuple.rb:131 | even when every lax element type accepts everything, the tuple inside `lax` rejects any Array longer than the fixed slots, while the intended form accepts it |
| TupleForms.LaxKeepingRest | lib/dry/types/tuple.rb:130-133 | as intended: the lax slots, the lax rest type, and the same meta |
| TupleForms.LaxKeepingRestAcceptsAll | lib/dry/types/tuple.rb:130-133 | when lax element types never fail, the intended lax tuple accepts every Array that fits the original's shape |
| TupleForms.AnyOf | lib/dry/types/tuple.rb:151 | `any?` is true iff some element satisfies the predicate |
| TupleForms.IsConstrained | lib/dry/types/tuple.rb:150-152 | true iff the rest type or some fixed slot is constrained |
| TupleForms.Structure | lib/dry/types/tuple.rb:141-142 | the slot ASTs in order, then a one-element node holding the rest type's AST when there is one |
| TupleForms.ToAst | lib/dry/types/tuple.rb:140-145 | as written: `[:tuple, structure]`, where the structure ends with the `meta` flag itself |
| TupleForms.ToAstDropsMeta | lib/dry/types/tuple.rb:143 | the last entry of the AST is the flag `true`, never the meta Hash |
| TupleForms.ToAstWithMeta | lib/dry/types/tuple.rb:140-145 | as intended: the same structure, ending with the meta Hash when asked for and an empty Hash otherwise |
| TupleForms.JoinEmptyIff | lib/dry/types/tuple.rb:219 | joining non-empty entries gives the empty string only for no entries |
| TupleForms.Entries | lib/dry/types/tuple.rb:212-219 | one `"i: T"` entry per fixed slot in order, then `"*: R"` for the rest type; none is empty |
| TupleForms.Render | lib/dry/types/tuple.rb:204-222 | `Tuple<` + entries joined by `", "` + `>` + options, and it is `Tuple<>` exactly when there is no slot and no rest type |
| ClassDecorator.New | lib/dry/tuple/class_decorator.rb:15 | `new(input)` is the class's own `new` when it has one, which may raise; otherwise an instance of the class holding the input |
| ClassDecorator.NewFromTuple | lib/dry/tuple/class_decorator.rb:14-16 | `super(input)` when defined, else `new(input)`; for a plain class, a new instance holding the input |
| ClassDecorator.CoerceTuple | lib/dry/tuple/class_decorator.rb:24-26 | `super(input)` when defined, else the input unchanged |
| ClassDecorator.ResolveTupleSafe | lib/dry/tuple/class_decorator.rb:53-59 | on success, builds from the coerced Array through coerce_tuple and new_from_tuple, and a raise there propagates; on failure, returns the block's value (or the input) without building |
| ClassDecorator.ResolveTupleUnsafe | lib/dry/tuple/class_decorator.rb:62-65 | on success, builds from the coerced Array (and may raise there); on failure, raises the tuple's MapError |
| ClassDecorator.CallSafe | lib/dry/tuple/class_decorator.rb:29-37 | an instance of the class is returned as is, an Array goes through the tuple, and anything else goes to super with the block |
| ClassDecorator.CallUnsafe | lib/dry/tuple/class_decorator.rb:40-48 | an instance of the class is returned as is, an Array goes through the tuple, and anything else goes to super |
| ClassDecorator.FailureBuildsNothing | lib/dry/tuple/class_decorator.rb:53-65 | when the tuple rejects an Array, neither mode depends on coerce_tuple, new_from_tuple or new; safe mode gives the fallback and unsafe mode raises |
| ClassDecorator.DefaultsBuildInstance | lib/dry/tuple/class_decorator.rb:62-65 | without super hooks and with a plain `new`, an accepted Array builds an instance holding the coerced Array of the input's length, and both modes agree |
| ClassDecorator.FirstAcceptingAppend | lib/dry/tuple/class_decorator.rb:29-37 | trying the classes of `A`, then those of `B`, is trying `A` and falling back to `B` |
| ClassDecorator.FirstAcceptingPicks | lib/dry/tuple/class_decorator.rb:29-37 | the class at i is built when its tuple accepts the input and no earlier one does |
| ClassDecorator.FirstAcceptingNone | lib/dry/tuple/class_decorator.rb:29-37 | when no tuple accepts, the outcome is the fallback |
| ClassDecorator.SumCallSafeResolves | lib/dry/tuple/class_decorator.rb:29-37 | a sum's call_safe on an Array builds the first class, left to right, whose tuple accepts it; otherwise it returns the caller's fallback |
| ClassDecorator.SumCallUnsafeResolves | lib/dry/tuple/class_decorator.rb:40-48 | `sum[input]` on an Array builds the first accepting class; otherwise it does what the last class's call_unsafe does (raises its MapError) |
| TypeCoercer.Call | lib/dry/tuple/type_coercer.rb:16-26 | an Array goes to `Tuple.coerce`; a tuple gives `returns:` or itself; `nil` gives `nominal.tuple`; anything else gives nil |
| TypeCoercer.Innermost | lib/dry/tuple/type_coercer.rb:21-22 | the innermost constraint of a chain wraps something that is not a constraint, over the same core type |
| TypeCoercer.CallOnType | lib/dry/tuple/type_coercer.rb:19-25 | under any number of constraints, a tuple yields the innermost constraint directly around it (or itself, or `returns:`, without one); without a tuple underneath the result is nil |
| TypeCoercer.Bracket | lib/dry/tuple/type_coercer.rb:31-33 | `TypeCoercer[*args]` always takes the Array branch: `Tuple.coerce(args)` |
| TupleStruct.UnionOrder | lib/dry/tuple/struct.rb:42 | the union `keys_order` with `keys` has no duplicates and holds the keys of both; the old order is kept as its prefix, and the new keys follow in the order of their first occurrence |
| TupleStruct.SchemaIndexLookup | lib/dry/tuple/struct.rb:43 | the attribute index maps each attribute key to its type and knows no other key |
| TupleStruct.ValuesAtLookup | lib/dry/tuple/struct.rb:44 | `values_at` answers key by key in order, with nil for a missing key |
| TupleStruct.SlotTypesFollowKeys | lib/dry/tuple/struct.rb:43-44 | the list handed to `Tuple.coerce` has one entry per key: the type of the attribute with that key, or nil |
| TupleStruct.ZipToHashLookup | lib/dry/tuple/struct.rb:51 | the zipped Hash has exactly the key order's keys; key i holds input i, or nil past the input's end; extra input elements are dropped |
| TupleStruct.StructClass.Extended | lib/dry/tuple/struct.rb:64-69 | a freshly extended class has an empty key order and no tuple |
| TupleStruct.StructClass.AutoTuple | lib/dry/tuple/struct.rb:41-45 | the key order becomes the union of the old order with `keys` (duplicate-free, old prefix kept); the tuple becomes `Tuple.coerce` of the attribute types in the new key order |
| TupleStruct.StructClass.CoerceTuple | lib/dry/tuple/struct.rb:50-52 | an attribute Hash whose keys are the key order's; key i holds input i or nil |
| TupleStruct.StructClass.Try | lib/dry/tuple/struct.rb:55-61 | an Array goes to the tuple's try (an error when no tuple was set), and anything else goes to super |
| TupleStruct.StructClass.Decl | lib/dry/tuple/struct.rb:35-36 | the struct as the decorator sees it: the same name, ancestors and tuple; a coerce_tuple that is this class's `coerce_tuple` on every Array; no new_from_tuple; `Dry::Struct.new` as its `new`; and the given super calls |
| TupleStruct.StructCallUnsafe | lib/dry/tuple/struct.rb:50-52 | `Struct[array]`: an accepted Array gives whatever `Dry::Struct.new` makes of the Hash whose attribute i is coerced element i, or nil past a short input; a rejected one raises the MapError |
| TupleStruct.TryAgreesWithCall | lib/dry/tuple/struct.rb:55-61 | without a block, the struct's try on an Array answers for the tuple step of `Struct[array]`: its failure is the MapError the call raises, and its success is the Array the call zips and hands to `Dry::Struct.new`, which may still raise |
| Examples.StrInt | spec/dry/types/tuple_spec.rb:6 | `tuple.of(string, integer)` has those two slots and no rest type |
| Examples.ValidExamples | spec/dry/types/tuple_spec.rb:8-22 | `valid?` is false for `5`, `[5]` and `[5, "five"]`, and true for `["five", 5]` |
| Examples.StrRestInt | spec/dry/types/tuple_spec.rb:49 | `of(string, [integer])` has one slot and integer as its rest type |
| Examples.RenderStrRestInt | spec/dry/types/tuple_spec.rb:49-52 | rendered as `Tuple<0: Nominal<String>, *: Nominal<Integer>>` |
| Examples.RenderNominal | spec/dry/types/tuple_spec.rb:99-102 | `nominal.tuple` is rendered as `Tuple<*: Any>` |
| Examples.ServiceArgsExample | lib/dry/types/tuple.rb:5-11 | `Tuple(Params::Symbol, [Params::Integer or Coercible::String])` coerces `['thumb', '300', '300', 'sample']` to `[:thumb, 300, 300, "sample"]`, the rest sum trying the integer first |
| Examples.RestExamples | lib/dry/types/tuple.rb:167-183 | `[integer, [string or symbol]]` accepts `[1, "a", :b]`, and reports all three failing positions of `["x", 2, :c, 3]` in order |
| Examples.PoroSumStrInt | spec/dry/tuple/class_interface_spec.rb:27-37 | the sum of PoroStrInt and PoroSymHash builds a PoroStrInt from `['a', 1]` |
| Examples.PoroSumStrDigits | spec/dry/tuple/class_interface_spec.rb:27-37 | `['a', '1']` builds a PoroStrInt holding the coerced `1` |
| Examples.PoroSumSymHash | spec/shared/poro_interfaces.rb:11-21 | `[:a, {}]` is rejected by PoroStrInt and builds a PoroSymHash |
| Examples.CoercerExamples | lib/dry/tuple/type_coercer.rb:21-24 | `nil` gives `nominal.tuple`; a doubly constrained tuple gives the inner constraint |
| Examples.AmbivalentKeys | lib/dry/tuple/struct.rb:10-21 | `auto_tuple :left, :right` and then `auto_tuple :prefer` give the key order `[:left, :right, :prefer]` |

## Left out

- TupleTypes.Build: the model requires that every entry but the last is a type. This is the documented overload of `build`; a nested list in the middle is not modelled.
- The string expression parser (`Dry::Types["tuple<string,[hash]>"]`) and the type registry: their implementation is not part of this model.
- `Dry::Types::Tuple.coerce`, as called at type_coercer.rb:18 and struct.rb:44: it is not defined in tuple.rb. It is an uninterpreted parameter (`fromList`) and is not equated with `build_unsplat`.
- The internals of dry-types `Sum`, `Constrained`, `Constructor`, `Lax`, `MultipleError` and `Printer#visit_options`, and the `super` paths of dry-struct and dry-initializer: these are opaque parameters.
  - Only the way a Sum chains `call_safe` and `call_unsafe` is modelled, as the composition its `|` performs.
- ClassDecorator.New: the attribute coercion and schema check inside `Dry::Struct.new` are not modelled. They are the parameter `construct`, which may raise.
- TupleStruct.StructClass.AutoTuple: the `tuple` setter passes `Tuple.coerce(...)` through `TypeCoercer`. The model assumes that `Tuple.coerce` returns a bare tuple type, which the coercer returns unchanged. So `fromList` here yields a `TupleType`, while in `TypeCoercer` the same call yields a `TypeObj`. A constrained tuple set by `auto_tuple` is not modelled.
- Error messages are left out: an error is identified by its kind and its payload, not its text.
- Floating point: the `['a', 1.0]` example and the float coercions are left out.
- The nested node example (`[:unary, [:other, 'BAR']]`, struct_spec.rb:43-78) relies on test-helper constructors that recurse into the sum. Those helpers are not part of this model.
- Inheritance of class settings: a subclass inheriting `keys_order`/`tuple` is modelled by reusing the same class object (`Examples.AmbivalentKeys`).
- lib/dry/tuple/class_interface.rb is only mixin wiring (`defines :tuple`), and is not modelled separately.
- Tuples nested as element types, and constrained tuples used as a class's tuple in dispatch: an element type is opaque, so nesting is covered only through `tryElem`.
- ClassDecorator.CallSafe, ClassDecorator.CallUnsafe, TupleStruct.StructClass.Decl: a decorated class whose `tuple` was never set is not modelled. `ClassDecl.tuple` is always a tuple type, and `Decl` requires one. In Ruby, an Array input to such a class raises NoMethodError on `nil` (class_decorator.rb:54 and 63).
- TupleStruct.StructClass.Try: when no tuple was ever set, Ruby raises NoMethodError on `nil`. The model returns `None` without naming the error.

## Findings

| source | as written | input that shows it | evidently intended | confidence | as-written member | corrected member |
|---|---|---|---|---|---|---|
| lib/dry/types/tuple.rb:143 | `structure << meta ? self.meta : EMPTY_HASH` parses as `(structure << meta) ? ...`, so the boolean `meta` is appended and the meta Hash is never emitted | `Dry::Types::Tuple.build(Dry::Types['nominal.string']).meta(foo: :bar).to_ast` ends its structure with `true` instead of `{foo: :bar}` | append `self.meta` when `meta` is true, and an empty Hash otherwise | not executed | TupleForms.ToAstDropsMeta | TupleForms.ToAstWithMeta |
| lib/dry/types/tuple.rb:131 | `types_index.transform_values(&:lax)` returns a Hash without the original's `default`, so the lax tuple loses its rest type | `Dry::Types::Tuple.build(Dry::Types['nominal.string'], [Dry::Types['params.integer']]).lax[['a', '1']]`: position 1 has no type and fails, so `['a', '1']` comes back instead of `['a', 1]` | the rest type is made lax too and still covers the trailing positions | not executed | TupleForms.LaxRejectsRestPositions | TupleForms.LaxKeepingRestAcceptsAll |
