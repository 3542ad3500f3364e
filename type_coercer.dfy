/**
 * `Dry::Tuple::TypeCoercer` (lib/dry/tuple/type_coercer.rb): turns what a
 * class is given as its `tuple` into a tuple type.
 */
module TypeCoercer {
  import opened Wrappers
  import TupleTypes

  /** The type objects the coercer tells apart. */
  datatype TypeObj<T> =
    | TupleObj(tuple: TupleTypes.TupleType<T>)
    /** `Dry::Types::Constrained` around `inner`; `rule` names its constraint. */
    | Constrained(inner: TypeObj<T>, rule: string)
    /** Any other type object. */
    | OtherType(name: string)

  /**
   * The argument of `call`: an Array (whose entries `Tuple.coerce` reads),
   * a type object, `nil`, or anything else.
   */
  datatype Input<L, T> = ArrayIn(items: seq<L>) | TypeIn(ty: TypeObj<T>) | NilIn | OtherIn

  function Depth<T>(ty: TypeObj<T>): nat
  {
    match ty
    case Constrained(inner, _) => Depth(inner) + 1
    case _ => 0
  }

  function InputSize<L, T>(input: Input<L, T>): nat
  {
    match input
    case TypeIn(ty) => Depth(ty)
    case _ => 0
  }

  /**
   * `call(input, returning:)`. `fromList` is `Tuple.coerce`, which builds a
   * tuple type from an Array and is not part of this model; `any` is the
   * `any` type that `nominal.tuple` uses as its rest type. `None` is `nil`.
   */
  function Call<L, T>(input: Input<L, T>, returning: Option<TypeObj<T>>,
                      fromList: seq<L> -> TypeObj<T>, any: T): (r: Option<TypeObj<T>>)
    ensures input.ArrayIn? ==> r == Some(fromList(input.items))
    ensures input.NilIn? ==> r == Some(TupleObj(TupleTypes.NominalTuple(any)))
    ensures input.OtherIn? ==> r.None?
    ensures input.TypeIn? && input.ty.TupleObj? ==>
              r == Some(if returning.Some? then returning.value else input.ty)
    decreases InputSize(input)
  {
    match input
    case ArrayIn(items) => Some(fromList(items))
    case TypeIn(ty) =>
      (match ty
       case TupleObj(_) => Some(if returning.Some? then returning.value else ty)
       case Constrained(inner, _) => Call(TypeIn(inner), Some(ty), fromList, any)
       case OtherType(_) => None)
    case NilIn => Some(TupleObj(TupleTypes.NominalTuple(any)))
    case OtherIn => None
  }

  /** The type under all the constraints. */
  function Core<T>(ty: TypeObj<T>): TypeObj<T>
  {
    match ty
    case Constrained(inner, _) => Core(inner)
    case _ => ty
  }

  /** The innermost `Constrained` of a chain of constraints. */
  function Innermost<T>(ty: TypeObj<T>): (r: TypeObj<T>)
    requires ty.Constrained?
    ensures r.Constrained? && !r.inner.Constrained?
    ensures Core(r.inner) == Core(ty)
  {
    if ty.inner.Constrained? then Innermost(ty.inner) else ty
  }

  /**
   * On a type object, `call` finds a tuple type under any number of
   * constraints and answers with the innermost `Constrained` directly
   * around it (or the tuple type itself, or `returning`, when there is no
   * constraint); without a tuple type underneath it answers `nil`.
   */
  lemma {:induction false} CallOnType<L, T>(ty: TypeObj<T>, returning: Option<TypeObj<T>>,
                                            fromList: seq<L> -> TypeObj<T>, any: T)
    ensures var r := Call(TypeIn(ty), returning, fromList, any);
            if !Core(ty).TupleObj? then r.None?
            else if ty.Constrained? then r == Some(Innermost(ty)) && Innermost(ty).inner.TupleObj?
            else r == Some(if returning.Some? then returning.value else ty)
  {
    if ty.Constrained? {
      CallOnType(ty.inner, Some(ty), fromList, any);
    }
  }

  /** `TypeCoercer[*input, **opts]`: always the Array branch, `Tuple.coerce(input)`. */
  function Bracket<L, T>(input: seq<L>, returning: Option<TypeObj<T>>,
                         fromList: seq<L> -> TypeObj<T>, any: T): (r: Option<TypeObj<T>>)
    ensures r == Some(fromList(input))
  {
    Call(ArrayIn(input), returning, fromList, any)
  }
}
