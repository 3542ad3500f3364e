/**
 * `Dry::Tuple::ClassDecorator` (lib/dry/tuple/class_decorator.rb): a class
 * built from a positional Array through its tuple type, and a sum of such
 * classes that builds the first one whose tuple accepts the input.
 */
module ClassDecorator {
  import opened Wrappers
  import opened Values
  import TupleTypes

  /** A block handed to `call_safe`; it may itself raise. */
  type Block = Value -> Result<Value, Error>

  /**
   * A class extended with the decorator. The `super*` fields are the methods
   * that `super` reaches further along the class's method chain; the
   * `Option` ones are `None` when `defined?(super)` is false. `construct`
   * is the class's own `new` when it has one (`Dry::Struct.new`, which may
   * raise); `None` is a plain class whose `new` keeps its argument.
   */
  datatype ClassDecl<T> = ClassDecl(
    name: string,
    ancestors: seq<string>,
    tuple: TupleTypes.TupleType<T>,
    /** The `coerce_tuple` hook the decorator defers to; a struct puts its own `coerce_tuple` here. */
    superCoerceTuple: Option<Value -> Value>,
    superNewFromTuple: Option<Value -> Result<Value, Error>>,
    construct: Option<Value -> Result<Value, Error>>,
    superCallSafe: (Value, Option<Block>) -> Result<Value, Error>,
    superCallUnsafe: Value -> Result<Value, Error>)

  /** `input.is_a?(cls)`. */
  predicate IsInstance<T>(input: Value, cls: ClassDecl<T>)
  {
    input.Instance? && cls.name in input.lineage
  }

  /**
   * `new(input)`: the class's own `new` when it has one, which may raise;
   * otherwise an instance of the class holding `input`.
   */
  function New<T>(cls: ClassDecl<T>, input: Value): (r: Result<Value, Error>)
    ensures cls.construct.None? ==> r.Ok? && IsInstance(r.value, cls) && r.value.state == input
    ensures cls.construct.Some? ==> r == cls.construct.value(input)
  {
    match cls.construct
    case Some(f) => f(input)
    case None => Ok(Instance([cls.name] + cls.ancestors, input))
  }

  /** `new_from_tuple`: `super(input)` when defined, else `new(input)`. */
  function NewFromTuple<T>(cls: ClassDecl<T>, input: Value): (r: Result<Value, Error>)
    ensures cls.superNewFromTuple.None? ==> r == New(cls, input)
    ensures cls.superNewFromTuple.None? && cls.construct.None? ==>
              r.Ok? && IsInstance(r.value, cls) && r.value.state == input
    ensures cls.superNewFromTuple.Some? ==> r == cls.superNewFromTuple.value(input)
  {
    match cls.superNewFromTuple
    case Some(f) => f(input)
    case None => New(cls, input)
  }

  /** `coerce_tuple`: `super(input)` when defined, else the input itself. */
  function CoerceTuple<T>(cls: ClassDecl<T>, input: Value): (r: Value)
    ensures cls.superCoerceTuple.None? ==> r == input
    ensures cls.superCoerceTuple.Some? ==> r == cls.superCoerceTuple.value(input)
  {
    match cls.superCoerceTuple
    case Some(f) => f(input)
    case None => input
  }

  /** What the fallback block of `resolve_tuple_safe` returns: `block.(input)`, or `input` without a block. */
  function Fallback(block: Option<Block>, input: Value): Result<Value, Error>
  {
    match block
    case Some(b) => b(input)
    case None => Ok(input)
  }

  /** What a class builds from an input its tuple accepts; building may itself raise. */
  function Built<T>(cls: ClassDecl<T>, tryElem: (T, Value) -> TypeResult, input: Value): Result<Value, Error>
    requires TupleTypes.Coerced(cls.tuple, tryElem, input).Success?
  {
    NewFromTuple(cls, CoerceTuple(cls, TupleTypes.Coerced(cls.tuple, tryElem, input).input))
  }

  /**
   * `resolve_tuple_safe`: on a tuple failure, the fallback's value is
   * returned at once; on success the coerced Array goes through
   * `coerce_tuple` and `new_from_tuple`.
   */
  function ResolveTupleSafe<T>(cls: ClassDecl<T>, tryElem: (T, Value) -> TypeResult,
                               input: Value, block: Option<Block>): (r: Result<Value, Error>)
    ensures TupleTypes.Coerced(cls.tuple, tryElem, input).Success? ==>
              r == Built(cls, tryElem, input)
    ensures TupleTypes.Coerced(cls.tuple, tryElem, input).Failure? ==>
              r == Fallback(block, input)
  {
    match TupleTypes.CallSafe(cls.tuple, tryElem, input, () => Fallback(block, input))
    case Yielded(output) => output
    case Returned(coerced) => NewFromTuple(cls, CoerceTuple(cls, coerced))
  }

  /** `resolve_tuple_unsafe`: a tuple failure raises before anything is built. */
  function ResolveTupleUnsafe<T>(cls: ClassDecl<T>, tryElem: (T, Value) -> TypeResult,
                                 input: Value): (r: Result<Value, Error>)
    ensures TupleTypes.Coerced(cls.tuple, tryElem, input).Success? ==>
              r == Built(cls, tryElem, input)
    ensures TupleTypes.Coerced(cls.tuple, tryElem, input).Failure? ==>
              r == Err(MapError(TupleTypes.Coerced(cls.tuple, tryElem, input).error))
  {
    match TupleTypes.CallUnsafe(cls.tuple, tryElem, input)
    case Err(e) => Err(e)
    case Ok(coerced) => NewFromTuple(cls, CoerceTuple(cls, coerced))
  }

  /** `call_safe(input, &block)`: an instance as is, an Array through the tuple, anything else to `super`. */
  function CallSafe<T>(cls: ClassDecl<T>, tryElem: (T, Value) -> TypeResult,
                       input: Value, block: Option<Block>): (r: Result<Value, Error>)
    ensures IsInstance(input, cls) ==> r == Ok(input)
    ensures input.Arr? ==> r == ResolveTupleSafe(cls, tryElem, input, block)
    ensures !IsInstance(input, cls) && !input.Arr? ==> r == cls.superCallSafe(input, block)
  {
    if IsInstance(input, cls) then Ok(input)
    else if input.Arr? then ResolveTupleSafe(cls, tryElem, input, block)
    else cls.superCallSafe(input, block)
  }

  /** `call_unsafe(input)`: an instance as is, an Array through the tuple, anything else to `super`. */
  function CallUnsafe<T>(cls: ClassDecl<T>, tryElem: (T, Value) -> TypeResult,
                         input: Value): (r: Result<Value, Error>)
    ensures IsInstance(input, cls) ==> r == Ok(input)
    ensures input.Arr? ==> r == ResolveTupleUnsafe(cls, tryElem, input)
    ensures !IsInstance(input, cls) && !input.Arr? ==> r == cls.superCallUnsafe(input)
  {
    if IsInstance(input, cls) then Ok(input)
    else if input.Arr? then ResolveTupleUnsafe(cls, tryElem, input)
    else cls.superCallUnsafe(input)
  }

  /**
   * When the tuple rejects an Array, neither mode depends on `coerce_tuple`,
   * `new_from_tuple` or `new`: nothing is built.
   */
  lemma FailureBuildsNothing<T>(cls: ClassDecl<T>, tryElem: (T, Value) -> TypeResult, input: Value,
                                block: Option<Block>, coerceTuple: Option<Value -> Value>,
                                newFromTuple: Option<Value -> Result<Value, Error>>,
                                construct: Option<Value -> Result<Value, Error>>)
    requires input.Arr?
    requires TupleTypes.Coerced(cls.tuple, tryElem, input).Failure?
    ensures var other := cls.(superCoerceTuple := coerceTuple, superNewFromTuple := newFromTuple,
                              construct := construct);
            CallSafe(cls, tryElem, input, block) == CallSafe(other, tryElem, input, block) == Fallback(block, input) &&
            CallUnsafe(cls, tryElem, input) == CallUnsafe(other, tryElem, input) &&
            CallUnsafe(cls, tryElem, input).Err?
  {
  }

  /**
   * Without `super` methods and with a plain `new`, an accepted Array builds
   * `new(coerced)`: an instance of the class holding the coerced Array, of
   * the input's length.
   */
  lemma DefaultsBuildInstance<T>(cls: ClassDecl<T>, tryElem: (T, Value) -> TypeResult, input: Value)
    requires input.Arr?
    requires cls.superCoerceTuple.None? && cls.superNewFromTuple.None? && cls.construct.None?
    requires TupleTypes.Coerced(cls.tuple, tryElem, input).Success?
    ensures var r := CallUnsafe(cls, tryElem, input);
            r.Ok? && IsInstance(r.value, cls) && r.value.state.Arr? &&
            r.value.state == TupleTypes.Coerced(cls.tuple, tryElem, input).input &&
            |r.value.state.items| == |input.items|
    ensures CallSafe(cls, tryElem, input, None) == CallUnsafe(cls, tryElem, input)
  {
    TupleTypes.SuccessOutput(cls.tuple, tryElem, input);
  }

  // ---------------------------------------------------------------------------
  // A sum of classes (`A | B`), as dry-types' Sum composes `call_safe`
  // ---------------------------------------------------------------------------

  /** Classes combined with `|`; `(A | B) | C` is `Sum(Sum(A, B), C)`. */
  datatype Alternatives<T> = One(cls: ClassDecl<T>) | Sum(left: Alternatives<T>, right: Alternatives<T>)

  /** The classes of a sum, left to right. */
  function Classes<T>(a: Alternatives<T>): (cs: seq<ClassDecl<T>>)
    ensures |cs| >= 1
  {
    match a
    case One(c) => [c]
    case Sum(l, r) => Classes(l) + Classes(r)
  }

  /** A sum's `call_safe(input, &block)`: `left.call_safe(input) { right.call_safe(input, &block) }`. */
  function SumCallSafe<T>(a: Alternatives<T>, tryElem: (T, Value) -> TypeResult,
                          input: Value, block: Option<Block>): Result<Value, Error>
    decreases a
  {
    match a
    case One(c) => CallSafe(c, tryElem, input, block)
    case Sum(l, r) => SumCallSafe(l, tryElem, input, Some((_: Value) => SumCallSafe(r, tryElem, input, block)))
  }

  /** A sum's `call_unsafe(input)` (and so `sum[input]`): `left.call_safe(input) { right.call_unsafe(input) }`. */
  function SumCallUnsafe<T>(a: Alternatives<T>, tryElem: (T, Value) -> TypeResult,
                            input: Value): Result<Value, Error>
    decreases a
  {
    match a
    case One(c) => CallUnsafe(c, tryElem, input)
    case Sum(l, r) => SumCallSafe(l, tryElem, input, Some((_: Value) => SumCallUnsafe(r, tryElem, input)))
  }

  /** Reference dispatch: build the first class whose tuple accepts the input, else `otherwise`. */
  function FirstAccepting<T>(cs: seq<ClassDecl<T>>, tryElem: (T, Value) -> TypeResult,
                             input: Value, otherwise: Result<Value, Error>): Result<Value, Error>
  {
    if cs == [] then otherwise
    else if TupleTypes.Coerced(cs[0].tuple, tryElem, input).Success? then Built(cs[0], tryElem, input)
    else FirstAccepting(cs[1..], tryElem, input, otherwise)
  }

  /** Trying `cs1 + cs2` is trying `cs1`, then `cs2`. */
  lemma {:induction false} FirstAcceptingAppend<T>(cs1: seq<ClassDecl<T>>, cs2: seq<ClassDecl<T>>,
                                                   tryElem: (T, Value) -> TypeResult,
                                                   input: Value, otherwise: Result<Value, Error>)
    ensures FirstAccepting(cs1 + cs2, tryElem, input, otherwise) ==
            FirstAccepting(cs1, tryElem, input, FirstAccepting(cs2, tryElem, input, otherwise))
  {
    if cs1 != [] {
      assert (cs1 + cs2)[1..] == cs1[1..] + cs2;
      FirstAcceptingAppend(cs1[1..], cs2, tryElem, input, otherwise);
    } else {
      assert cs1 + cs2 == cs2;
    }
  }

  /** The class at `i` is built when its tuple accepts the input and no earlier one does. */
  lemma {:induction false} FirstAcceptingPicks<T>(cs: seq<ClassDecl<T>>, tryElem: (T, Value) -> TypeResult,
                                                  input: Value, otherwise: Result<Value, Error>, i: nat)
    requires i < |cs|
    requires TupleTypes.Coerced(cs[i].tuple, tryElem, input).Success?
    requires forall j :: 0 <= j < i ==> TupleTypes.Coerced(cs[j].tuple, tryElem, input).Failure?
    ensures FirstAccepting(cs, tryElem, input, otherwise) == Built(cs[i], tryElem, input)
  {
    if i > 0 {
      FirstAcceptingPicks(cs[1..], tryElem, input, otherwise, i - 1);
    }
  }

  /** When no tuple accepts the input, the result is `otherwise`. */
  lemma {:induction false} FirstAcceptingNone<T>(cs: seq<ClassDecl<T>>, tryElem: (T, Value) -> TypeResult,
                                                 input: Value, otherwise: Result<Value, Error>)
    requires forall j :: 0 <= j < |cs| ==> TupleTypes.Coerced(cs[j].tuple, tryElem, input).Failure?
    ensures FirstAccepting(cs, tryElem, input, otherwise) == otherwise
  {
    if cs != [] {
      FirstAcceptingNone(cs[1..], tryElem, input, otherwise);
    }
  }

  /** A sum's `call_safe` on an Array builds the first accepting class, else falls back. */
  lemma {:induction false} SumCallSafeResolves<T>(a: Alternatives<T>, tryElem: (T, Value) -> TypeResult,
                                                  input: Value, block: Option<Block>)
    requires input.Arr?
    ensures SumCallSafe(a, tryElem, input, block) ==
            FirstAccepting(Classes(a), tryElem, input, Fallback(block, input))
  {
    match a
    case One(c) =>
    case Sum(l, r) =>
      var next: Block := (_: Value) => SumCallSafe(r, tryElem, input, block);
      SumCallSafeResolves(l, tryElem, input, Some(next));
      SumCallSafeResolves(r, tryElem, input, block);
      FirstAcceptingAppend(Classes(l), Classes(r), tryElem, input, Fallback(block, input));
  }

  /**
   * `sum[input]` on an Array builds the first class whose tuple accepts it;
   * when none does, it is what the last class's `call_unsafe` gives: a
   * raised `MapError`.
   */
  lemma {:induction false} SumCallUnsafeResolves<T>(a: Alternatives<T>, tryElem: (T, Value) -> TypeResult,
                                                    input: Value)
    requires input.Arr?
    ensures var cs := Classes(a);
            SumCallUnsafe(a, tryElem, input) ==
            FirstAccepting(cs, tryElem, input, CallUnsafe(cs[|cs| - 1], tryElem, input))
  {
    match a
    case One(c) =>
    case Sum(l, r) =>
      var next: Block := (_: Value) => SumCallUnsafe(r, tryElem, input);
      SumCallSafeResolves(l, tryElem, input, Some(next));
      SumCallUnsafeResolves(r, tryElem, input);
      var cr := Classes(r);
      assert Classes(a)[|Classes(a)| - 1] == cr[|cr| - 1];
      FirstAcceptingAppend(Classes(l), cr, tryElem, input, CallUnsafe(cr[|cr| - 1], tryElem, input));
  }
}
