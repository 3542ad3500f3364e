/**
 * `Dry::Tuple::Struct::ClassInterface` (lib/dry/tuple/struct.rb): a struct
 * class whose attributes can be given positionally. `auto_tuple` records an
 * order of attribute keys and derives the class's tuple type from the
 * attribute types in that order; `coerce_tuple` turns a coerced Array back
 * into an attribute Hash by zipping it with the key order.
 */
module TupleStruct {
  import opened Wrappers
  import opened Values
  import TupleTypes
  import ClassDecorator

  /** An attribute of the struct's schema: its key and its type. */
  datatype Attribute<T> = Attribute(name: string, ty: T)

  /** No key occurs twice. */
  predicate NoDup(s: seq<string>)
  {
    forall i, j :: 0 <= i < j < |s| ==> s[i] != s[j]
  }

  // ---------------------------------------------------------------------------
  // `keys_order | keys`: Ruby's Array union
  // ---------------------------------------------------------------------------

  /** `acc` followed by each element of `b`, left to right, that is not yet present. */
  function AddNew(acc: seq<string>, b: seq<string>): seq<string>
    decreases |b|
  {
    if b == [] then acc
    else AddNew(if b[0] in acc then acc else acc + [b[0]], b[1..])
  }

  /** `a | b`: the elements of `a`, then of `b`, each kept at its first occurrence. */
  function Union(a: seq<string>, b: seq<string>): seq<string>
  {
    AddNew([], a + b)
  }

  /** The position of the first occurrence of `x` in `s`. */
  function FirstIndex(s: seq<string>, x: string): (i: nat)
    requires x in s
    ensures i < |s| && s[i] == x && x !in s[..i]
  {
    if s[0] == x then 0
    else
      var j := FirstIndex(s[1..], x);
      assert s[..j + 1] == [s[0]] + s[1..][..j];
      j + 1
  }

  /** `AddNew(acc, b)` keeps `acc` as its prefix. */
  lemma {:induction false} AddNewPrefix(acc: seq<string>, b: seq<string>)
    ensures |acc| <= |AddNew(acc, b)| && AddNew(acc, b)[..|acc|] == acc
    decreases |b|
  {
    if b != [] {
      var acc' := if b[0] in acc then acc else acc + [b[0]];
      AddNewPrefix(acc', b[1..]);
      var r := AddNew(acc, b);
      assert r[..|acc|] == r[..|acc'|][..|acc|];
    }
  }

  /** `AddNew(acc, b)` holds what `acc` or `b` holds. */
  lemma {:induction false} AddNewMembers(acc: seq<string>, b: seq<string>)
    ensures forall x :: x in AddNew(acc, b) <==> x in acc || x in b
    decreases |b|
  {
    if b != [] {
      var acc' := if b[0] in acc then acc else acc + [b[0]];
      AddNewMembers(acc', b[1..]);
      assert b == [b[0]] + b[1..];
    }
  }

  /** `AddNew` adds no duplicate. */
  lemma {:induction false} AddNewNoDup(acc: seq<string>, b: seq<string>)
    requires NoDup(acc)
    ensures NoDup(AddNew(acc, b))
    decreases |b|
  {
    if b != [] {
      var acc' := if b[0] in acc then acc else acc + [b[0]];
      assert NoDup(acc');
      AddNewNoDup(acc', b[1..]);
    }
  }

  /** What `AddNew` appends comes from `b` and was missing from `acc`. */
  lemma {:induction false} AddNewSuffix(acc: seq<string>, b: seq<string>)
    ensures forall i :: |acc| <= i < |AddNew(acc, b)| ==>
              AddNew(acc, b)[i] in b && AddNew(acc, b)[i] !in acc
    decreases |b|
  {
    if b != [] {
      var acc' := if b[0] in acc then acc else acc + [b[0]];
      AddNewSuffix(acc', b[1..]);
      AddNewPrefix(acc', b[1..]);
      var r := AddNew(acc, b);
      forall i | |acc| <= i < |r| ensures r[i] in b && r[i] !in acc {
        if i >= |acc'| {
          assert r[i] in b[1..];
        } else {
          assert r[i] == r[..|acc'|][i] == b[0];
        }
      }
    }
  }

  /** What `AddNew` appends follows the order of first occurrence in `b`. */
  lemma {:induction false} AddNewOrder(acc: seq<string>, b: seq<string>)
    ensures var r := AddNew(acc, b);
            forall i, j :: |acc| <= i < j < |r| ==>
              r[i] in b && r[j] in b && FirstIndex(b, r[i]) < FirstIndex(b, r[j])
    decreases |b|
  {
    if b != [] {
      var acc' := if b[0] in acc then acc else acc + [b[0]];
      AddNewOrder(acc', b[1..]);
      AddNewSuffix(acc', b[1..]);
      AddNewSuffix(acc, b);
      AddNewPrefix(acc', b[1..]);
      var r := AddNew(acc, b);
      forall i, j | |acc| <= i < j < |r|
        ensures r[i] in b && r[j] in b && FirstIndex(b, r[i]) < FirstIndex(b, r[j])
      {
        assert b[0] in acc';
        assert r[j] != b[0];
        assert FirstIndex(b, r[j]) == FirstIndex(b[1..], r[j]) + 1;
        if i >= |acc'| {
          assert r[i] != b[0];
          assert FirstIndex(b, r[i]) == FirstIndex(b[1..], r[i]) + 1;
        } else {
          assert r[i] == r[..|acc'|][i] == b[0];
        }
      }
    }
  }

  /** Appending to `b` extends the union step by step. */
  lemma {:induction false} AddNewAppend(acc: seq<string>, a: seq<string>, b: seq<string>)
    ensures AddNew(acc, a + b) == AddNew(AddNew(acc, a), b)
    decreases |a|
  {
    if a == [] {
      assert a + b == b;
    } else {
      assert (a + b)[0] == a[0] && (a + b)[1..] == a[1..] + b;
      AddNewAppend(if a[0] in acc then acc else acc + [a[0]], a[1..], b);
    }
  }

  /** Elements that are all new and distinct are appended as they are. */
  lemma {:induction false} AddNewDistinct(acc: seq<string>, a: seq<string>)
    requires NoDup(acc + a)
    ensures AddNew(acc, a) == acc + a
    decreases |a|
  {
    if a != [] {
      assert (acc + a)[|acc|] == a[0];
      assert a[0] !in acc by {
        forall i | 0 <= i < |acc| ensures acc[i] != a[0] {
          assert (acc + a)[i] == acc[i];
        }
      }
      assert acc + a == (acc + [a[0]]) + a[1..];
      AddNewDistinct(acc + [a[0]], a[1..]);
    }
  }

  /** For a duplicate-free `a`, `a | b` is `a` followed by what `AddNew` appends from `b`. */
  lemma UnionFromDistinct(a: seq<string>, b: seq<string>)
    requires NoDup(a)
    ensures Union(a, b) == AddNew(a, b)
  {
    AddNewAppend([], a, b);
    assert [] + a == a;
    AddNewDistinct([], a);
  }

  /**
   * `a | b` has no duplicates and holds what `a` or `b` holds; when `a` has
   * no duplicates it is kept as the prefix, and the keys of `b` not in `a`
   * follow in the order they first occur in `b`.
   */
  lemma UnionOrder(a: seq<string>, b: seq<string>)
    ensures var r := Union(a, b);
            NoDup(r) && (forall x :: x in r <==> x in a || x in b)
    ensures NoDup(a) ==>
            var r := Union(a, b);
            |a| <= |r| && r[..|a|] == a &&
            (forall i :: |a| <= i < |r| ==> r[i] in b && r[i] !in a) &&
            (forall x :: x in b && x !in a ==> x in r[|a|..]) &&
            (forall i, j :: |a| <= i < j < |r| ==>
               r[i] in b && r[j] in b && FirstIndex(b, r[i]) < FirstIndex(b, r[j]))
  {
    AddNewMembers([], a + b);
    AddNewNoDup([], a + b);
    if NoDup(a) {
      UnionFromDistinct(a, b);
      var r := AddNew(a, b);
      AddNewPrefix(a, b);
      AddNewSuffix(a, b);
      AddNewOrder(a, b);
      AddNewMembers(a, b);
      assert r == r[..|a|] + r[|a|..];
    }
  }

  // ---------------------------------------------------------------------------
  // The attribute index and `values_at`
  // ---------------------------------------------------------------------------

  /** `schema.keys.map { |t| [t.name, t.type] }.to_h`: a later attribute of the same key wins. */
  function SchemaIndex<T>(schema: seq<Attribute<T>>): map<string, T>
    decreases |schema|
  {
    if schema == [] then map[]
    else
      var last := schema[|schema| - 1];
      SchemaIndex(schema[..|schema| - 1])[last.name := last.ty]
  }

  /** `index.values_at(*keys)`: `nil` for a key without an attribute. */
  function ValuesAt<T>(index: map<string, T>, keys: seq<string>): seq<Option<T>>
    decreases |keys|
  {
    if keys == [] then []
    else [if keys[0] in index then Some(index[keys[0]]) else None] + ValuesAt(index, keys[1..])
  }

  /** Attribute keys are distinct, as in a struct's schema. */
  predicate DistinctNames<T>(schema: seq<Attribute<T>>)
  {
    forall i, j :: 0 <= i < j < |schema| ==> schema[i].name != schema[j].name
  }

  /** With distinct keys, the index maps each attribute's key to its type, and knows no other key. */
  lemma {:induction false} SchemaIndexLookup<T>(schema: seq<Attribute<T>>)
    requires DistinctNames(schema)
    ensures var m := SchemaIndex(schema);
            (forall k :: k in m <==> exists i :: 0 <= i < |schema| && schema[i].name == k) &&
            (forall i :: 0 <= i < |schema| ==> m[schema[i].name] == schema[i].ty)
    decreases |schema|
  {
    if schema != [] {
      var init := schema[..|schema| - 1];
      assert DistinctNames(init);
      SchemaIndexLookup(init);
      var m := SchemaIndex(schema);
      forall k ensures k in m <==> exists i :: 0 <= i < |schema| && schema[i].name == k {
        if k in m && k != schema[|schema| - 1].name {
          var i :| 0 <= i < |init| && init[i].name == k;
          assert schema[i].name == k;
        }
        if exists i :: 0 <= i < |schema| && schema[i].name == k {
          var i :| 0 <= i < |schema| && schema[i].name == k;
          if i < |init| {
            assert init[i].name == k;
          }
        }
      }
      forall i | 0 <= i < |schema| ensures m[schema[i].name] == schema[i].ty {
        if i < |init| {
          assert init[i] == schema[i];
        }
      }
    }
  }

  /** `values_at` answers key by key, in the order of the keys. */
  lemma {:induction false} ValuesAtLookup<T>(index: map<string, T>, keys: seq<string>)
    ensures var vs := ValuesAt(index, keys);
            |vs| == |keys| &&
            forall i :: 0 <= i < |keys| ==>
              vs[i] == if keys[i] in index then Some(index[keys[i]]) else None
    decreases |keys|
  {
    if keys != [] {
      ValuesAtLookup(index, keys[1..]);
      var vs := ValuesAt(index, keys);
      forall i | 0 <= i < |keys|
        ensures vs[i] == if keys[i] in index then Some(index[keys[i]]) else None
      {
        if i > 0 {
          assert vs[i] == ValuesAt(index, keys[1..])[i - 1];
          assert keys[i] == keys[1..][i - 1];
        }
      }
    }
  }

  /**
   * The list `auto_tuple` hands to `Tuple.coerce`: for each key of the key
   * order, the type of the attribute of that key, or `nil` when the schema
   * has none.
   */
  lemma SlotTypesFollowKeys<T>(schema: seq<Attribute<T>>, keys: seq<string>)
    requires DistinctNames(schema)
    ensures var vs := ValuesAt(SchemaIndex(schema), keys);
            |vs| == |keys| &&
            (forall i, j :: 0 <= i < |keys| && 0 <= j < |schema| && schema[j].name == keys[i] ==>
               vs[i] == Some(schema[j].ty)) &&
            (forall i :: 0 <= i < |keys| && (forall j :: 0 <= j < |schema| ==> schema[j].name != keys[i]) ==>
               vs[i].None?)
  {
    SchemaIndexLookup(schema);
    ValuesAtLookup(SchemaIndex(schema), keys);
  }

  // ---------------------------------------------------------------------------
  // `keys_order.zip(input).to_h`
  // ---------------------------------------------------------------------------

  /** `keys.zip(input).to_h`: key `i` to `input[i]`, or `nil` past the input's end; a later key wins. */
  function ZipToHash(keys: seq<string>, input: seq<Value>): map<string, Value>
    decreases |keys|
  {
    if keys == [] then map[]
    else
      var n := |keys| - 1;
      ZipToHash(keys[..n], input)[keys[n] := if n < |input| then input[n] else Nil]
  }

  /**
   * The zipped Hash has exactly the keys of the key order; with distinct
   * keys, key `i` holds `input[i]`, or `nil` when the input is shorter.
   * Input elements past the last key appear nowhere.
   */
  lemma {:induction false} ZipToHashLookup(keys: seq<string>, input: seq<Value>)
    ensures ZipToHash(keys, input).Keys == set k | k in keys
    ensures NoDup(keys) ==>
            forall i :: 0 <= i < |keys| ==>
              ZipToHash(keys, input)[keys[i]] == if i < |input| then input[i] else Nil
    decreases |keys|
  {
    if keys != [] {
      var n := |keys| - 1;
      ZipToHashLookup(keys[..n], input);
      assert forall k :: k in keys <==> k in keys[..n] || k == keys[n] by {
        assert keys == keys[..n] + [keys[n]];
      }
      if NoDup(keys) {
        assert NoDup(keys[..n]);
        forall i | 0 <= i < |keys|
          ensures ZipToHash(keys, input)[keys[i]] == if i < |input| then input[i] else Nil
        {
          if i < n {
            assert keys[..n][i] == keys[i];
          }
        }
      }
    }
  }

  // ---------------------------------------------------------------------------
  // The struct class
  // ---------------------------------------------------------------------------

  /**
   * A struct class extended with the interface: its name and ancestors, its
   * schema, and the two class-level settings `keys_order` and `tuple`
   * (`nil` until `auto_tuple` sets it).
   */
  class StructClass<T> {
    const name: string
    const ancestors: seq<string>
    const schema: seq<Attribute<T>>
    var keysOrder: seq<string>
    var tuple: Option<TupleTypes.TupleType<T>>

    /** `extended(base)`: the key order starts empty and no tuple is set. */
    constructor Extended(name: string, ancestors: seq<string>, schema: seq<Attribute<T>>)
      ensures this.name == name && this.ancestors == ancestors && this.schema == schema
      ensures keysOrder == [] && tuple.None?
    {
      this.name := name;
      this.ancestors := ancestors;
      this.schema := schema;
      keysOrder := [];
      tuple := None;
    }

    /**
     * `auto_tuple(*keys)`: the key order becomes `keys_order | keys`, and the
     * tuple becomes `Tuple.coerce` of the attribute types in that order.
     * `fromList` is `Tuple.coerce`, which is not part of this model; the
     * `tuple` setter passes its result through `TypeCoercer`, which returns a
     * tuple type unchanged.
     */
    method AutoTuple(keys: seq<string>, fromList: seq<Option<T>> -> TupleTypes.TupleType<T>)
      modifies this
      ensures keysOrder == Union(old(keysOrder), keys)
      ensures tuple == Some(fromList(ValuesAt(SchemaIndex(schema), keysOrder)))
      ensures NoDup(keysOrder)
      ensures forall k :: k in keysOrder <==> k in old(keysOrder) || k in keys
      ensures NoDup(old(keysOrder)) ==>
                |old(keysOrder)| <= |keysOrder| && keysOrder[..|old(keysOrder)|] == old(keysOrder)
    {
      UnionOrder(keysOrder, keys);
      keysOrder := Union(keysOrder, keys);
      var index := SchemaIndex(schema);
      tuple := Some(fromList(ValuesAt(index, keysOrder)));
    }

    /**
     * `coerce_tuple(input)`: the attribute Hash of a positional Array. Its
     * keys are those of the key order; with a duplicate-free key order, key
     * `i` holds `input[i]`, or `nil` past the input's end.
     */
    function CoerceTuple(input: seq<Value>): (r: Value)
      reads this
      ensures r.Hash? && r.entries.Keys == set k | k in keysOrder
      ensures NoDup(keysOrder) ==>
              forall i :: 0 <= i < |keysOrder| ==>
                r.entries[keysOrder[i]] == if i < |input| then input[i] else Nil
    {
      ZipToHashLookup(keysOrder, input);
      Hash(ZipToHash(keysOrder, input))
    }

    /**
     * `try(input, &block)`: an Array goes to the tuple's `try`, anything else
     * to `super` (the struct's own Hash-based `try`). `None` is the error of
     * calling `try` on a class whose tuple was never set.
     */
    function Try<X>(input: Value, tryElem: (T, Value) -> TypeResult,
                    superTry: (Value, Option<TypeResult -> X>) -> Tried<TypeResult, X>,
                    block: Option<TypeResult -> X>): (r: Option<Tried<TypeResult, X>>)
      reads this
      ensures input.Arr? ==> (r.Some? <==> tuple.Some?)
      ensures input.Arr? && tuple.Some? ==>
                r == Some(TupleTypes.Try(tuple.value, tryElem, input, block))
      ensures !input.Arr? ==> r == Some(superTry(input, block))
    {
      if input.Arr? then
        match tuple
        case Some(t) => Some(TupleTypes.Try(t, tryElem, input, block))
        case None => None
      else Some(superTry(input, block))
    }

    /**
     * The class as the decorator sees it: its tuple, its own `coerce_tuple`
     * in the place of the one the decorator defers to, no `new_from_tuple`
     * (so `new` builds the instance), `Dry::Struct.new` as its `new`
     * (`structNew`, which raises on attributes its schema rejects), and the
     * struct's `super` calls.
     */
    function Decl(superCallSafe: (Value, Option<ClassDecorator.Block>) -> Result<Value, Error>,
                  superCallUnsafe: Value -> Result<Value, Error>,
                  structNew: Value -> Result<Value, Error>): (d: ClassDecorator.ClassDecl<T>)
      reads this
      requires tuple.Some?
      ensures d.name == name && d.ancestors == ancestors && d.tuple == tuple.value
      ensures d.superCoerceTuple.Some? &&
              forall xs :: d.superCoerceTuple.value(Arr(xs)) == CoerceTuple(xs)
      ensures d.superNewFromTuple.None? && d.construct == Some(structNew)
      ensures d.superCallSafe == superCallSafe && d.superCallUnsafe == superCallUnsafe
    {
      var keys := keysOrder;
      ClassDecorator.ClassDecl(name, ancestors, tuple.value,
        Some((v: Value) => Hash(ZipToHash(keys, if v.Arr? then v.items else []))),
        None, Some(structNew), superCallSafe, superCallUnsafe)
    }
  }

  /**
   * `StructClass[input]` on an Array: when the tuple accepts it, whatever
   * `Dry::Struct.new` makes of the attribute Hash that maps key `i` of the
   * key order to the coerced element `i`, or to `nil` past the input's end
   * (so a short input can still raise there); otherwise the raised
   * `MapError`.
   */
  lemma StructCallUnsafe<T>(s: StructClass<T>, tryElem: (T, Value) -> TypeResult, input: Value,
                            superCallSafe: (Value, Option<ClassDecorator.Block>) -> Result<Value, Error>,
                            superCallUnsafe: Value -> Result<Value, Error>,
                            structNew: Value -> Result<Value, Error>)
    requires s.tuple.Some? && input.Arr? && NoDup(s.keysOrder)
    ensures var r := ClassDecorator.CallUnsafe(s.Decl(superCallSafe, superCallUnsafe, structNew), tryElem, input);
            var c := TupleTypes.Coerced(s.tuple.value, tryElem, input);
            (c.Failure? ==> r == Err(MapError(c.error))) &&
            (c.Success? ==>
               c.input.Arr? && |c.input.items| == |input.items| &&
               var attrs := s.CoerceTuple(c.input.items);
               r == structNew(attrs) &&
               attrs.Hash? && attrs.entries.Keys == (set k | k in s.keysOrder) &&
               forall i :: 0 <= i < |s.keysOrder| ==>
                 attrs.entries[s.keysOrder[i]] == if i < |input.items| then c.input.items[i] else Nil)
  {
    var c := TupleTypes.Coerced(s.tuple.value, tryElem, input);
    if c.Success? {
      TupleTypes.SuccessOutput(s.tuple.value, tryElem, input);
      ZipToHashLookup(s.keysOrder, c.input.items);
    }
  }

  /**
   * Without a block, the struct's `try` on an Array answers for the tuple
   * step of `StructClass[input]`: a failure is the `MapError` the call
   * raises, and a success is the input the call hands on to
   * `Dry::Struct.new`, which may still raise.
   */
  lemma TryAgreesWithCall<T>(s: StructClass<T>, tryElem: (T, Value) -> TypeResult, input: Value,
                             superTry: (Value, Option<TypeResult -> Value>) -> Tried<TypeResult, Value>,
                             superCallSafe: (Value, Option<ClassDecorator.Block>) -> Result<Value, Error>,
                             superCallUnsafe: Value -> Result<Value, Error>,
                             structNew: Value -> Result<Value, Error>)
    requires s.tuple.Some? && input.Arr?
    ensures var t := s.Try(input, tryElem, superTry, None);
            var r := ClassDecorator.CallUnsafe(s.Decl(superCallSafe, superCallUnsafe, structNew), tryElem, input);
            t.Some? && t.value.Returned? &&
            (t.value.result.Failure? ==> r == Err(MapError(t.value.result.error))) &&
            (t.value.result.Success? ==>
               t.value.result.input.Arr? && r == structNew(s.CoerceTuple(t.value.result.input.items)))
  {
  }
}
