/**
 * `Dry::Types::Tuple` (lib/dry/types/tuple.rb): building a tuple type from a
 * list of types, and coercing an Array position by position.
 *
 * Element types are a type parameter `T`; what an element type does with a
 * value is the parameter `tryElem`, its `try` method.
 */
module TupleTypes {
  import opened Wrappers
  import opened Values

  /** One entry of a build list: a type, or a (trailing) Array of types. */
  datatype Item<T> = Type(t: T) | List(ts: seq<T>)

  /**
   * The `types_index` Hash: key `i` maps to `slots[i]` for `i < |slots|`, and
   * every other key to the Hash's `default`, the rest type (`nil` when absent).
   */
  datatype TypesIndex<T> = TypesIndex(slots: seq<T>, default: Option<T>)
  {
    /**
     * `types_index[i]`: `nil` only past the slots of an index without a rest
     * type; every position past the slots gets the rest type.
     */
    function Lookup(i: nat): (r: Option<T>)
      ensures r.None? <==> i >= |slots| && default.None?
      ensures i >= |slots| ==> r == default
    {
      if i < |slots| then Some(slots[i]) else default
    }
  }

  /** A tuple type: its types index and its meta Hash. */
  datatype TupleType<T> = TupleType(index: TypesIndex<T>, meta: map<string, Value>)
  {
    /** `fixed_types`: the values of the index, in key order. */
    function FixedTypes(): (r: seq<T>)
      ensures forall i :: 0 <= i < |r| ==> index.Lookup(i) == Some(r[i])
      ensures forall i :: |r| <= i ==> index.Lookup(i) == index.default
    {
      index.slots
    }

    /** `rest_type`: the default of the index, the type of every position past the fixed ones. */
    function RestType(): (r: Option<T>)
      ensures forall i :: |FixedTypes()| <= i ==> index.Lookup(i) == r
    {
      index.default
    }
  }

  /** What `extract_rest` hands back: `Undefined`, or the popped list's first element. */
  datatype Extracted<T> = Undefined | Popped(first: Option<T>)

  /** The documented overload of `build`: every entry but the last is a type. */
  predicate FixedAreTypes<T>(items: seq<Item<T>>)
  {
    forall i :: 0 <= i < |items| - 1 ==> items[i].Type?
  }

  /** The outcome `extract_rest` computes for a build list. */
  function ExtractedOf<T>(items: seq<Item<T>>): Result<Extracted<T>, Error>
  {
    if |items| == 0 || !items[|items| - 1].List? then Ok(Undefined)
    else
      var ts := items[|items| - 1].ts;
      if |ts| > 1 then Err(ArgumentError(|ts|))
      else Ok(Popped(if |ts| == 0 then None else Some(ts[0])))
  }

  /** The build list once `extract_rest` has run: without the popped trailing list. */
  function Remaining<T>(items: seq<Item<T>>): seq<Item<T>>
  {
    if ExtractedOf(items).Ok? && ExtractedOf(items).value.Popped?
    then items[..|items| - 1] else items
  }

  /** The types of a list of plain type entries. */
  function TypesOf<T>(items: seq<Item<T>>): (ts: seq<T>)
    requires forall i :: 0 <= i < |items| ==> items[i].Type?
    ensures |ts| == |items|
    ensures forall i :: 0 <= i < |items| ==> ts[i] == items[i].t
  {
    seq(|items|, i requires 0 <= i < |items| => items[i].t)
  }

  /** The index `build_index` returns for a build list, or the error it raises. */
  function IndexOf<T>(items: seq<Item<T>>): Result<TypesIndex<T>, Error>
    requires FixedAreTypes(items)
  {
    match ExtractedOf(items)
    case Err(e) => Err(e)
    case Ok(x) =>
      var rest := Remaining(items);
      assert forall i :: 0 <= i < |rest| ==> rest[i].Type?;
      Ok(TypesIndex(TypesOf(rest), if x.Popped? then x.first else None))
  }

  /** How `build_index` splits a build list into fixed slots and a rest type. */
  lemma IndexOfSplits<T>(items: seq<Item<T>>)
    requires FixedAreTypes(items)
    ensures |items| > 0 && items[|items| - 1].List? && |items[|items| - 1].ts| > 1 ==>
              IndexOf(items) == Err(ArgumentError(|items[|items| - 1].ts|))
    ensures |items| > 0 && items[|items| - 1].List? && |items[|items| - 1].ts| == 1 ==>
              IndexOf(items) == Ok(TypesIndex(TypesOf(items[..|items| - 1]), Some(items[|items| - 1].ts[0])))
    ensures |items| > 0 && items[|items| - 1].List? && |items[|items| - 1].ts| == 0 ==>
              IndexOf(items) == Ok(TypesIndex(TypesOf(items[..|items| - 1]), None))
    ensures (|items| == 0 || items[|items| - 1].Type?) ==>
              IndexOf(items) == Ok(TypesIndex(TypesOf(items), None))
  {
  }

  /** Slot `i` of a successful split is the `i`-th entry of the build list. */
  lemma IndexOfSlots<T>(items: seq<Item<T>>)
    requires FixedAreTypes(items)
    ensures IndexOf(items).Ok? ==>
              var idx := IndexOf(items).value;
              |idx.slots| <= |items| &&
              (forall i :: 0 <= i < |idx.slots| ==> items[i] == Type(idx.slots[i])) &&
              (idx.default.Some? ==> items[|items| - 1] == List([idx.default.value]))
  {
  }

  /** The build list that `extract_rest` pops from and `build_index` reads. */
  class BuildList<T> {
    var items: seq<Item<T>>

    constructor (items: seq<Item<T>>)
      ensures this.items == items
    {
      this.items := items;
    }

    /** `extract_rest`: pops a trailing one-element (or empty) list and returns its element. */
    method ExtractRest() returns (r: Result<Extracted<T>, Error>)
      modifies this
      ensures r == ExtractedOf(old(items))
      ensures items == Remaining(old(items))
      ensures r.Ok? && r.value.Popped? ==> |items| == |old(items)| - 1
    {
      if |items| == 0 || !items[|items| - 1].List? {
        return Ok(Undefined);
      }
      var last := items[|items| - 1].ts;
      if |last| > 1 {
        return Err(ArgumentError(|last|));
      }
      items := items[..|items| - 1];
      r := Ok(Popped(if |last| == 0 then None else Some(last[0])));
    }

    /** `build_index`: extracts the rest type, then numbers the remaining types from 0. */
    method BuildIndex() returns (r: Result<TypesIndex<T>, Error>)
      requires FixedAreTypes(items)
      modifies this
      ensures r == IndexOf(old(items))
      ensures items == Remaining(old(items))
    {
      var extracted := ExtractRest();
      if extracted.Err? {
        return Err(extracted.error);
      }
      var slots: seq<T> := [];
      var i := 0;
      while i < |items|
        invariant 0 <= i <= |items|
        invariant |slots| == i
        invariant forall j :: 0 <= j < i ==> items[j].Type? && slots[j] == items[j].t
      {
        slots := slots + [items[i].t];
        i := i + 1;
      }
      assert slots == TypesOf(items);
      var rest := if extracted.value.Popped? then extracted.value.first else None;
      r := Ok(TypesIndex(slots, rest));
    }
  }

  /** `build_unsplat`: a tuple type over the index of the given list, with no meta; the list loses its trailing rest list. */
  method BuildUnsplat<T>(list: BuildList<T>) returns (r: Result<TupleType<T>, Error>)
    requires FixedAreTypes(list.items)
    modifies list
    ensures r == (match IndexOf(old(list.items))
                  case Ok(idx) => Ok(TupleType(idx, map[]))
                  case Err(e) => Err(e))
    ensures list.items == Remaining(old(list.items))
  {
    var idx := list.BuildIndex();
    if idx.Err? {
      return Err(idx.error);
    }
    r := Ok(TupleType(idx.value, map[]));
  }

  /** `Tuple.build(*types)`: splatting makes a fresh list, so the caller's list is untouched. */
  method Build<T>(items: seq<Item<T>>) returns (r: Result<TupleType<T>, Error>)
    requires FixedAreTypes(items)
    ensures r.Err? <==> (|items| > 0 && items[|items| - 1].List? && |items[|items| - 1].ts| > 1)
    ensures r.Err? ==> r.error == ArgumentError(|items[|items| - 1].ts|)
    ensures r.Ok? ==> r.value.meta == map[] && r.value.index == IndexOf(items).value
  {
    var list := new BuildList(items);
    r := BuildUnsplat(list);
  }

  /** The `nominal.tuple` type: `build([any])`, no fixed slots and `any` as the rest type. */
  function NominalTuple<T>(any: T): (t: TupleType<T>)
    ensures IndexOf([List([any])]) == Ok(t.index) && t.meta == map[]
    ensures t.FixedTypes() == [] && t.RestType() == Some(any)
  {
    TupleType(TypesIndex([], Some(any)), map[])
  }

  // ---------------------------------------------------------------------------
  // Coercion (`coerce`, tuple.rb:157-184)
  // ---------------------------------------------------------------------------

  /** What one position contributes: a coerced value, or a failure. */
  datatype Outcome = Fits(value: Value) | Fails(error: Error)

  /**
   * `types_index[index]&.try(value)` read as an outcome: no applicable type is
   * a "not fits" failure.
   */
  function PositionOutcome<T>(idx: TypesIndex<T>, tryElem: (T, Value) -> TypeResult,
                              items: seq<Value>, i: nat): Outcome
    requires i < |items|
  {
    match idx.Lookup(i)
    case None => Fails(NotFits(items[i]))
    case Some(t) =>
      match tryElem(t, items[i])
      case Success(v) => Fits(v)
      case Failure(_, e) => Fails(e)
  }

  /** The `output` array after the first `k` positions. */
  function Outputs<T>(idx: TypesIndex<T>, tryElem: (T, Value) -> TypeResult,
                      items: seq<Value>, k: nat): seq<Value>
    requires k <= |items|
  {
    if k == 0 then []
    else
      var o := PositionOutcome(idx, tryElem, items, k - 1);
      Outputs(idx, tryElem, items, k - 1) + (if o.Fits? then [o.value] else [])
  }

  /** The `failures` array after the first `k` positions. */
  function Failures<T>(idx: TypesIndex<T>, tryElem: (T, Value) -> TypeResult,
                       items: seq<Value>, k: nat): seq<Error>
    requires k <= |items|
  {
    if k == 0 then []
    else
      var o := PositionOutcome(idx, tryElem, items, k - 1);
      Failures(idx, tryElem, items, k - 1) + (if o.Fails? then [o.error] else [])
  }

  /** The result `coerce` returns for `input`. */
  function Coerced<T>(t: TupleType<T>, tryElem: (T, Value) -> TypeResult, input: Value): TypeResult
  {
    if !input.Arr? then Failure(input, NotAnArray(input))
    else
      var fs := Failures(t.index, tryElem, input.items, |input.items|);
      if fs == [] then Success(Arr(Outputs(t.index, tryElem, input.items, |input.items|)))
      else Failure(input, Multiple(fs))
  }

  /**
   * `coerce`: walks the input with `each_with_index`, appending to `output`
   * and `failures`.
   */
  method Coerce<T>(t: TupleType<T>, tryElem: (T, Value) -> TypeResult, input: Value)
    returns (r: TypeResult)
    ensures r == Coerced(t, tryElem, input)
  {
    if !input.Arr? {
      return Failure(input, NotAnArray(input));
    }
    var items := input.items;
    var output: seq<Value> := [];
    var failures: seq<Error> := [];
    var index := 0;
    while index < |items|
      invariant 0 <= index <= |items|
      invariant output == Outputs(t.index, tryElem, items, index)
      invariant failures == Failures(t.index, tryElem, items, index)
    {
      var value := items[index];
      var slot := t.index.Lookup(index);
      if slot.None? {
        failures := failures + [NotFits(value)];
      } else {
        var res := tryElem(slot.value, value);
        if res.Failure? {
          failures := failures + [res.error];
        } else {
          output := output + [res.input];
        }
      }
      index := index + 1;
    }
    if failures == [] {
      r := Success(Arr(output));
    } else {
      r := Failure(input, Multiple(failures));
    }
  }

  /** The failures of the first `k` positions are empty iff each of them fits. */
  lemma {:induction false} FailuresEmptyIff<T>(idx: TypesIndex<T>, tryElem: (T, Value) -> TypeResult,
                                               items: seq<Value>, k: nat)
    requires k <= |items|
    ensures Failures(idx, tryElem, items, k) == [] <==>
            forall i :: 0 <= i < k ==> PositionOutcome(idx, tryElem, items, i).Fits?
  {
    if k > 0 {
      FailuresEmptyIff(idx, tryElem, items, k - 1);
    }
  }

  /** When the first `k` positions fit, `output` holds their coerced values in order. */
  lemma {:induction false} OutputsWhenAllFit<T>(idx: TypesIndex<T>, tryElem: (T, Value) -> TypeResult,
                                                items: seq<Value>, k: nat)
    requires k <= |items|
    requires forall i :: 0 <= i < k ==> PositionOutcome(idx, tryElem, items, i).Fits?
    ensures |Outputs(idx, tryElem, items, k)| == k
    ensures forall i :: 0 <= i < k ==>
              Outputs(idx, tryElem, items, k)[i] == PositionOutcome(idx, tryElem, items, i).value
  {
    if k > 0 {
      OutputsWhenAllFit(idx, tryElem, items, k - 1);
    }
  }

  /**
   * A non-Array input fails at once with the input kept, whatever the
   * element types would have done.
   */
  lemma NonArrayFailsAtOnce<T>(t: TupleType<T>, f: (T, Value) -> TypeResult,
                               g: (T, Value) -> TypeResult, input: Value)
    requires !input.Arr?
    ensures Coerced(t, f, input) == Failure(input, NotAnArray(input))
    ensures Coerced(t, f, input) == Coerced(t, g, input)
  {
  }

  /** Coercion succeeds iff the input is an Array and every position fits. */
  lemma SuccessIffAllFit<T>(t: TupleType<T>, tryElem: (T, Value) -> TypeResult, input: Value)
    ensures Coerced(t, tryElem, input).Success? <==>
            input.Arr? &&
            forall i :: 0 <= i < |input.items| ==> PositionOutcome(t.index, tryElem, input.items, i).Fits?
  {
    if input.Arr? {
      FailuresEmptyIff(t.index, tryElem, input.items, |input.items|);
    }
  }

  /**
   * On success the output is an Array of the input's length, element `i`
   * being what position `i`'s type made of `input[i]`.
   */
  lemma SuccessOutput<T>(t: TupleType<T>, tryElem: (T, Value) -> TypeResult, input: Value)
    requires Coerced(t, tryElem, input).Success?
    ensures input.Arr?
    ensures var out := Coerced(t, tryElem, input).input;
            out.Arr? && |out.items| == |input.items| &&
            forall i :: 0 <= i < |input.items| ==>
              exists ty :: t.index.Lookup(i) == Some(ty) && tryElem(ty, input.items[i]) == Success(out.items[i])
  {
    SuccessIffAllFit(t, tryElem, input);
    OutputsWhenAllFit(t.index, tryElem, input.items, |input.items|);
    var out := Coerced(t, tryElem, input).input;
    forall i | 0 <= i < |input.items|
      ensures exists ty :: t.index.Lookup(i) == Some(ty) && tryElem(ty, input.items[i]) == Success(out.items[i])
    {
      var ty := t.index.Lookup(i).value;
      assert tryElem(ty, input.items[i]) == Success(out.items[i]);
    }
  }

  /**
   * The length is never checked against the fixed slots: an input no longer
   * than the fixed list is accepted iff each element passes its own slot.
   */
  lemma ShortInputAccepted<T>(t: TupleType<T>, tryElem: (T, Value) -> TypeResult, items: seq<Value>)
    requires |items| <= |t.index.slots|
    ensures Coerced(t, tryElem, Arr(items)).Success? <==>
            forall i :: 0 <= i < |items| ==> tryElem(t.index.slots[i], items[i]).Success?
  {
    SuccessIffAllFit(t, tryElem, Arr(items));
    assert forall i :: 0 <= i < |items| ==>
      (PositionOutcome(t.index, tryElem, items, i).Fits? <==> tryElem(t.index.slots[i], items[i]).Success?);
  }

  /** The positions below `k` that fail, in increasing order. */
  function FailingPositions<T>(idx: TypesIndex<T>, tryElem: (T, Value) -> TypeResult,
                               items: seq<Value>, k: nat): (ps: seq<nat>)
    requires k <= |items|
    ensures forall j :: 0 <= j < |ps| ==> ps[j] < k && PositionOutcome(idx, tryElem, items, ps[j]).Fails?
    ensures forall i :: 0 <= i < k && PositionOutcome(idx, tryElem, items, i).Fails? ==> i in ps
    ensures forall j, l :: 0 <= j < l < |ps| ==> ps[j] < ps[l]
  {
    if k == 0 then []
    else if PositionOutcome(idx, tryElem, items, k - 1).Fails?
    then FailingPositions(idx, tryElem, items, k - 1) + [k - 1]
    else FailingPositions(idx, tryElem, items, k - 1)
  }

  /** The `failures` array holds one error per failing position, in position order. */
  lemma {:induction false} FailuresAlongPositions<T>(idx: TypesIndex<T>, tryElem: (T, Value) -> TypeResult,
                                                     items: seq<Value>, k: nat)
    requires k <= |items|
    ensures var fs := Failures(idx, tryElem, items, k);
            var ps := FailingPositions(idx, tryElem, items, k);
            |fs| == |ps| &&
            forall j :: 0 <= j < |ps| ==> fs[j] == PositionOutcome(idx, tryElem, items, ps[j]).error
  {
    if k > 0 {
      FailuresAlongPositions(idx, tryElem, items, k - 1);
    }
  }

  /**
   * A failing Array keeps the input unchanged and reports a MultipleError
   * with one entry per failing position, in position order.
   */
  lemma FailureReport<T>(t: TupleType<T>, tryElem: (T, Value) -> TypeResult, input: Value)
    requires input.Arr?
    requires Coerced(t, tryElem, input).Failure?
    ensures var r := Coerced(t, tryElem, input);
            var ps := FailingPositions(t.index, tryElem, input.items, |input.items|);
            r.input == input && r.error.Multiple? && |ps| > 0 &&
            |r.error.errors| == |ps| &&
            forall j :: 0 <= j < |ps| ==>
              r.error.errors[j] == PositionOutcome(t.index, tryElem, input.items, ps[j]).error
  {
    FailuresAlongPositions(t.index, tryElem, input.items, |input.items|);
  }

  /**
   * Without a rest type, every position past the fixed slots fails, and its
   * "not fits" error is among the reported failures.
   */
  lemma OverflowWithoutRest<T>(t: TupleType<T>, tryElem: (T, Value) -> TypeResult, items: seq<Value>, i: nat)
    requires t.index.default.None?
    requires |t.index.slots| <= i < |items|
    ensures var r := Coerced(t, tryElem, Arr(items));
            r.Failure? && r.input == Arr(items) && r.error.Multiple? && NotFits(items[i]) in r.error.errors
  {
    SuccessIffAllFit(t, tryElem, Arr(items));
    FailureReport(t, tryElem, Arr(items));
    var ps := FailingPositions(t.index, tryElem, items, |items|);
    assert i in ps;
    var j :| 0 <= j < |ps| && ps[j] == i;
    assert Coerced(t, tryElem, Arr(items)).error.errors[j] == NotFits(items[i]);
  }

  // ---------------------------------------------------------------------------
  // `try`, `call_safe`, `call_unsafe` (tuple.rb:98-123)
  // ---------------------------------------------------------------------------

  /** `try(tuple, &block)`: the result, unless it failed and a block was given. */
  function Try<T, X>(t: TupleType<T>, tryElem: (T, Value) -> TypeResult, input: Value,
                     block: Option<TypeResult -> X>): (r: Tried<TypeResult, X>)
    ensures Coerced(t, tryElem, input).Success? || block.None? ==>
              r == Returned(Coerced(t, tryElem, input))
    ensures Coerced(t, tryElem, input).Failure? && block.Some? ==>
              r == Yielded(block.value(Coerced(t, tryElem, input)))
  {
    var result := Coerced(t, tryElem, input);
    if result.Success? || block.None? then Returned(result) else Yielded(block.value(result))
  }

  /**
   * `call_safe(tuple) { ... }`: the coerced Array, or, on failure, the value
   * of the fallback block (`return yield` leaves `call_safe` with it).
   */
  function CallSafe<T, X>(t: TupleType<T>, tryElem: (T, Value) -> TypeResult, input: Value,
                          fallback: () -> X): (r: Tried<Value, X>)
    ensures r.Returned? <==> Coerced(t, tryElem, input).Success?
    ensures r.Returned? ==> r.result == Coerced(t, tryElem, input).input &&
                              r.result.Arr? && input.Arr? && |r.result.items| == |input.items|
    ensures r.Yielded? ==> r.value == fallback()
  {
    match Try(t, tryElem, input, Some((_: TypeResult) => fallback()))
    case Returned(res) =>
      SuccessOutput(t, tryElem, input);
      Returned(res.input)
    case Yielded(x) => Yielded(x)
  }

  /** `call_unsafe(tuple)`: the coerced Array, or a raised `MapError` carrying the failure's error. */
  function CallUnsafe<T>(t: TupleType<T>, tryElem: (T, Value) -> TypeResult, input: Value): (r: Result<Value, Error>)
    ensures r.Ok? <==> Coerced(t, tryElem, input).Success?
    ensures r.Ok? ==> r.value == Coerced(t, tryElem, input).input && r.value.Arr? &&
                        input.Arr? && |r.value.items| == |input.items|
    ensures r.Err? ==> r.error == MapError(Coerced(t, tryElem, input).error)
  {
    match Try(t, tryElem, input, Some((failure: TypeResult) => failure))
    case Returned(res) =>
      SuccessOutput(t, tryElem, input);
      Ok(res.input)
    case Yielded(failure) => Err(MapError(failure.error))
  }
}
