/**
 * The forms a `Dry::Types::Tuple` derives or renders (lib/dry/types/tuple.rb):
 * `of`, `lax`, `constrained?`, `to_ast` and the printer's `visit_tuple`.
 */
module TupleForms {
  import opened Wrappers
  import opened Values
  import opened TupleTypes

  // ---------------------------------------------------------------------------
  // `of` (tuple.rb:61-63)
  // ---------------------------------------------------------------------------

  /**
   * `of(*types)`: `with(types_index: build_index(types))`, a new type that
   * keeps the receiver's meta. The receiver, a value, is left as it was.
   */
  function Of<T>(t: TupleType<T>, items: seq<Item<T>>): (r: Result<TupleType<T>, Error>)
    requires FixedAreTypes(items)
    ensures r.Ok? <==> IndexOf(items).Ok?
    ensures r.Err? ==> r.error.ArgumentError?
    ensures r.Ok? ==> r.value.index == IndexOf(items).value && r.value.meta == t.meta
  {
    match IndexOf(items)
    case Ok(idx) => Ok(t.(index := idx))
    case Err(e) => Err(e)
  }

  /** The slots `of` produces depend on its arguments only, never on an earlier `of`. */
  lemma OfIndependentOfReceiver<T>(t1: TupleType<T>, t2: TupleType<T>, items: seq<Item<T>>)
    requires FixedAreTypes(items)
    ensures Of(t1, items).Ok? == Of(t2, items).Ok?
    ensures Of(t1, items).Ok? ==> Of(t1, items).value.index == Of(t2, items).value.index
  {
  }

  // ---------------------------------------------------------------------------
  // `lax` (tuple.rb:130-133)
  // ---------------------------------------------------------------------------

  /** `Dry::Types::Lax`, wrapping the type it makes lax. */
  datatype LaxType<X> = LaxOf(inner: X)

  /** Every fixed slot replaced by its lax form. */
  function LaxSlots<T>(slots: seq<T>, laxElem: T -> T): (r: seq<T>)
    ensures |r| == |slots|
    ensures forall i :: 0 <= i < |slots| ==> r[i] == laxElem(slots[i])
  {
    seq(|slots|, i requires 0 <= i < |slots| => laxElem(slots[i]))
  }

  /**
   * `lax` as written: `types_index.transform_values(&:lax)` returns a Hash
   * without the original's default, so the lax tuple has no rest type.
   */
  function Lax<T>(t: TupleType<T>, laxElem: T -> T): (r: LaxType<TupleType<T>>)
    ensures |r.inner.FixedTypes()| == |t.FixedTypes()|
    ensures forall i :: 0 <= i < |t.FixedTypes()| ==> r.inner.FixedTypes()[i] == laxElem(t.FixedTypes()[i])
    ensures r.inner.RestType().None? && r.inner.meta == t.meta
  {
    LaxOf(TupleType(TypesIndex(LaxSlots(t.index.slots, laxElem), None), t.meta))
  }

  /**
   * Even when the tuple has a rest type and every lax element type accepts
   * every value, the tuple inside `lax` rejects any Array longer than the
   * fixed slots, so `Lax` hands such an input back uncoerced.
   */
  lemma LaxRejectsRestPositions<T>(t: TupleType<T>, laxElem: T -> T,
                                   tryElem: (T, Value) -> TypeResult, items: seq<Value>)
    requires t.RestType().Some?
    requires forall ty, v :: tryElem(laxElem(ty), v).Success?
    requires |items| > |t.FixedTypes()|
    ensures Coerced(Lax(t, laxElem).inner, tryElem, Arr(items)).Failure?
    ensures Coerced(LaxKeepingRest(t, laxElem).inner, tryElem, Arr(items)).Success?
  {
    OverflowWithoutRest(Lax(t, laxElem).inner, tryElem, items, |t.FixedTypes()|);
    LaxKeepingRestAcceptsAll(t, laxElem, tryElem, items);
  }

  /** `lax` as evidently intended: the rest type is made lax too. */
  function LaxKeepingRest<T>(t: TupleType<T>, laxElem: T -> T): (r: LaxType<TupleType<T>>)
    ensures r.inner.FixedTypes() == Lax(t, laxElem).inner.FixedTypes()
    ensures r.inner.RestType() == (if t.RestType().Some? then Some(laxElem(t.RestType().value)) else None)
    ensures r.inner.meta == t.meta
  {
    var rest := match t.index.default
      case Some(ty) => Some(laxElem(ty))
      case None => None;
    LaxOf(TupleType(TypesIndex(LaxSlots(t.index.slots, laxElem), rest), t.meta))
  }

  /**
   * When lax element types never fail, the intended lax tuple accepts every
   * Array its original could have covered: any Array if it had a rest type.
   */
  lemma LaxKeepingRestAcceptsAll<T>(t: TupleType<T>, laxElem: T -> T,
                                    tryElem: (T, Value) -> TypeResult, items: seq<Value>)
    requires forall ty, v :: tryElem(laxElem(ty), v).Success?
    requires t.RestType().Some? || |items| <= |t.FixedTypes()|
    ensures Coerced(LaxKeepingRest(t, laxElem).inner, tryElem, Arr(items)).Success?
  {
    var lt := LaxKeepingRest(t, laxElem).inner;
    forall i | 0 <= i < |items|
      ensures PositionOutcome(lt.index, tryElem, items, i).Fits?
    {
      assert lt.index.Lookup(i).Some?;
      assert tryElem(lt.index.Lookup(i).value, items[i]).Success?;
    }
    SuccessIffAllFit(lt, tryElem, Arr(items));
  }

  // ---------------------------------------------------------------------------
  // `constrained?` (tuple.rb:150-152)
  // ---------------------------------------------------------------------------

  /** `any?`: some element satisfies `p`. */
  function AnyOf<T>(s: seq<T>, p: T -> bool): (b: bool)
    ensures b <==> exists i :: 0 <= i < |s| && p(s[i])
  {
    if s == [] then false
    else if p(s[0]) then true
    else
      var b := AnyOf(s[1..], p);
      assert forall i :: 1 <= i < |s| ==> s[i] == s[1..][i - 1];
      b
  }

  /** `constrained?`: the rest type or some fixed slot is constrained. */
  function IsConstrained<T>(t: TupleType<T>, constrained: T -> bool): (b: bool)
    ensures b <==> (t.RestType().Some? && constrained(t.RestType().value)) ||
                   exists i :: 0 <= i < |t.FixedTypes()| && constrained(t.FixedTypes()[i])
  {
    (t.RestType().Some? && constrained(t.RestType().value)) || AnyOf(t.FixedTypes(), constrained)
  }

  // ---------------------------------------------------------------------------
  // `to_ast` (tuple.rb:140-145)
  // ---------------------------------------------------------------------------

  /** A dry-types AST: symbols, arrays, and the booleans and Hashes they hold. */
  datatype Ast =
    | Symbol(name: string)
    | Node(children: seq<Ast>)
    | Flag(on: bool)
    | MetaHash(entries: map<string, Value>)

  /** The fixed slots' ASTs, followed by `[rest AST]` when there is a rest type. */
  function Structure<T>(t: TupleType<T>, elemAst: T -> Ast): (s: seq<Ast>)
    ensures |s| == |t.FixedTypes()| + (if t.RestType().Some? then 1 else 0)
    ensures forall i :: 0 <= i < |t.FixedTypes()| ==> s[i] == elemAst(t.FixedTypes()[i])
    ensures t.RestType().Some? ==> s[|t.FixedTypes()|] == Node([elemAst(t.RestType().value)])
  {
    var fixed := seq(|t.index.slots|, i requires 0 <= i < |t.index.slots| => elemAst(t.index.slots[i]));
    match t.index.default
    case None => fixed
    case Some(rest) => fixed + [Node([elemAst(rest)])]
  }

  /**
   * `to_ast(meta:)` as written: `structure << meta ? self.meta : EMPTY_HASH`
   * parses as `(structure << meta) ? ...`, so the `meta` flag itself is
   * appended and the meta Hash never reaches the AST.
   */
  function ToAst<T>(t: TupleType<T>, elemAst: T -> Ast, meta: bool): (r: Ast)
    ensures r.Node? && |r.children| == 2 && r.children[0] == Symbol("tuple")
    ensures var s := r.children[1];
            s.Node? && |s.children| == |t.FixedTypes()| + (if t.RestType().Some? then 1 else 0) + 1 &&
            s.children[..|s.children| - 1] == Structure(t, elemAst) &&
            s.children[|s.children| - 1] == Flag(meta)
  {
    Node([Symbol("tuple"), Node(Structure(t, elemAst) + [Flag(meta)])])
  }

  /** The AST never carries the meta Hash: its last entry is the flag, not `meta`. */
  lemma ToAstDropsMeta<T>(t: TupleType<T>, elemAst: T -> Ast)
    ensures var s := ToAst(t, elemAst, true).children[1].children;
            s[|s| - 1] == Flag(true) && s[|s| - 1] != MetaHash(t.meta)
  {
  }

  /** `to_ast(meta:)` as evidently intended: the meta Hash when asked for, else an empty Hash. */
  function ToAstWithMeta<T>(t: TupleType<T>, elemAst: T -> Ast, meta: bool): (r: Ast)
    ensures r.Node? && |r.children| == 2 && r.children[0] == Symbol("tuple")
    ensures var s := r.children[1];
            s.Node? && |s.children| == |t.FixedTypes()| + (if t.RestType().Some? then 1 else 0) + 1 &&
            s.children[..|s.children| - 1] == ToAst(t, elemAst, meta).children[1].children[..|s.children| - 1] &&
            s.children[|s.children| - 1] == MetaHash(if meta then t.meta else map[])
  {
    Node([Symbol("tuple"), Node(Structure(t, elemAst) + [MetaHash(if meta then t.meta else map[])])])
  }

  // ---------------------------------------------------------------------------
  // `Printer#visit_tuple` (tuple.rb:204-222)
  // ---------------------------------------------------------------------------

  /** `parts.join(sep)`. */
  function Join(sep: string, parts: seq<string>): string
  {
    if |parts| == 0 then ""
    else if |parts| == 1 then parts[0]
    else parts[0] + sep + Join(sep, parts[1..])
  }

  /** Joining non-empty parts gives the empty string only for no parts at all. */
  lemma {:induction false} JoinEmptyIff(sep: string, parts: seq<string>)
    requires forall i :: 0 <= i < |parts| ==> |parts[i]| > 0
    ensures Join(sep, parts) == "" <==> parts == []
  {
    if |parts| > 1 {
      assert |Join(sep, parts)| >= |parts[0]|;
    }
  }

  /** The rendered entries: `"i: Ti"` for each fixed slot, then `"*: R"` for the rest type. */
  function Entries<T>(t: TupleType<T>, show: T -> string): (es: seq<string>)
    ensures |es| == |t.FixedTypes()| + (if t.RestType().Some? then 1 else 0)
    ensures forall i :: 0 <= i < |t.FixedTypes()| ==> es[i] == DecimalString(i) + ": " + show(t.FixedTypes()[i])
    ensures t.RestType().Some? ==> es[|t.FixedTypes()|] == "*: " + show(t.RestType().value)
    ensures forall i :: 0 <= i < |es| ==> |es[i]| > 0
  {
    var slots := t.index.slots;
    var fixed := seq(|slots|, i requires 0 <= i < |slots| => DecimalString(i) + ": " + show(slots[i]));
    match t.index.default
    case None => fixed
    case Some(rest) => fixed + ["*: " + show(rest)]
  }

  /**
   * `visit_tuple`: `"Tuple<>"` when there is no slot and no rest type, else the
   * entries joined by `", "` between `"Tuple<"` and `">"`; `opts` is what
   * `visit_options` renders of the meta, not interpreted here.
   */
  function Render<T>(t: TupleType<T>, show: T -> string, opts: string): (r: string)
    ensures r == "Tuple<" + Join(", ", Entries(t, show)) + ">" + opts
    ensures r == "Tuple<>" + opts <==> t.FixedTypes() == [] && t.RestType().None?
  {
    var size := |t.index.slots| + (if t.index.default.Some? then 1 else 0);
    JoinEmptyIff(", ", Entries(t, show));
    if size == 0 then "Tuple<" + ">" + opts
    else "Tuple<" + Join(", ", Entries(t, show)) + ">" + opts
  }
}
