/**
 * Worked examples from the repository's specs and documentation, over a few
 * concrete element types.
 */
module Examples {
  import opened Wrappers
  import opened Values
  import opened TupleTypes
  import TupleForms
  import ClassDecorator
  import TypeCoercer
  import TupleStruct

  /**
   * The element types the examples use: strict ones, coercing ones and a
   * sum. `CoercibleIntegerT` reads a decimal string, as `Coercible::Integer`
   * and `Params::Integer` both do; `ParamsSymbolT` turns a string into a
   * symbol; `CoercibleStringT` is `Kernel#String` on strings, symbols and
   * integers.
   */
  datatype Scalar =
    | StringT | IntegerT | SymbolT | HashT | AnyT
    | CoercibleIntegerT | ParamsSymbolT | CoercibleStringT
    | SumT(left: Scalar, right: Scalar)

  /** The types that never change the value they accept. */
  predicate Strict(t: Scalar)
  {
    match t
    case CoercibleIntegerT => false
    case ParamsSymbolT => false
    case CoercibleStringT => false
    case SumT(l, r) => Strict(l) && Strict(r)
    case _ => true
  }

  /** Ruby's `Integer#to_s`. */
  function IntegerText(i: int): string
  {
    if i >= 0 then DecimalString(i) else "-" + DecimalString(-i)
  }

  /** Their `try`; a sum tries its left type and, when that fails, its right one. */
  function TryScalar(t: Scalar, v: Value): (r: TypeResult)
    ensures r.Success? && Strict(t) ==> r.input == v
    ensures t == AnyT ==> r.Success?
    ensures t.SumT? ==> (r.Success? <==> TryScalar(t.left, v).Success? || TryScalar(t.right, v).Success?)
  {
    match t
    case StringT => if v.Str? then Success(v) else Failure(v, ElementError("must be a String"))
    case IntegerT => if v.Int? then Success(v) else Failure(v, ElementError("must be an Integer"))
    case SymbolT => if v.Sym? then Success(v) else Failure(v, ElementError("must be a Symbol"))
    case HashT => if v.Hash? then Success(v) else Failure(v, ElementError("must be a Hash"))
    case AnyT => Success(v)
    case CoercibleIntegerT =>
      if v.Int? then Success(v)
      else if v.Str? && |v.s| > 0 && IsDigits(v.s) then Success(Int(DigitsValue(v.s)))
      else Failure(v, ElementError("invalid value for Integer()"))
    case ParamsSymbolT =>
      if v.Sym? then Success(v)
      else if v.Str? then Success(Sym(v.s))
      else Failure(v, ElementError("can't convert to Symbol"))
    case CoercibleStringT =>
      if v.Str? then Success(v)
      else if v.Sym? then Success(Str(v.name))
      else if v.Int? then Success(Str(IntegerText(v.i)))
      else Failure(v, ElementError("can't convert into String"))
    case SumT(l, r) =>
      var first := TryScalar(l, v);
      if first.Success? then first else TryScalar(r, v)
  }

  /** How the printer shows each element type. */
  function Show(t: Scalar): string
  {
    match t
    case StringT => "Nominal<String>"
    case IntegerT => "Nominal<Integer>"
    case SymbolT => "Nominal<Symbol>"
    case HashT => "Nominal<Hash>"
    case AnyT => "Any"
    case CoercibleIntegerT => "Constructor<Nominal<Integer>>"
    case ParamsSymbolT => "Constructor<Nominal<Symbol>>"
    case CoercibleStringT => "Constructor<Nominal<String>>"
    case SumT(l, r) => "Sum<" + Show(l) + " | " + Show(r) + ">"
  }

  /** `Dry::Types["nominal.tuple"].of(Dry::Types["string"], Dry::Types["integer"])`. */
  function StrInt(): (t: TupleType<Scalar>)
    ensures t.FixedTypes() == [StringT, IntegerT] && t.RestType().None?
  {
    var items := [Type(StringT), Type(IntegerT)];
    IndexOfSplits(items);
    assert TypesOf(items) == [StringT, IntegerT];
    TupleForms.Of(NominalTuple(AnyT), items).value
  }

  /** `valid?` rejects a non-Array, a wrong member type and a wrong order, and accepts `["five", 5]`. */
  lemma ValidExamples()
    ensures Coerced(StrInt(), TryScalar, Int(5)).Failure?
    ensures Coerced(StrInt(), TryScalar, Arr([Int(5)])).Failure?
    ensures Coerced(StrInt(), TryScalar, Arr([Int(5), Str("five")])).Failure?
    ensures Coerced(StrInt(), TryScalar, Arr([Str("five"), Int(5)])) ==
            Success(Arr([Str("five"), Int(5)]))
  {
    var t := StrInt();
    var bad := [Int(5), Str("five")];
    assert Failures(t.index, TryScalar, bad, 1) == [ElementError("must be a String")];
    var good := [Str("five"), Int(5)];
    assert Failures(t.index, TryScalar, good, 1) == [];
    assert Outputs(t.index, TryScalar, good, 1) == [Str("five")];
  }

  /** `nominal.tuple.of(nominal.string, [nominal.integer])`. */
  function StrRestInt(): (t: TupleType<Scalar>)
    ensures t.FixedTypes() == [StringT] && t.RestType() == Some(IntegerT)
  {
    var items := [Type(StringT), List([IntegerT])];
    IndexOfSplits(items);
    assert TypesOf(items[..1]) == [StringT];
    TupleForms.Of(NominalTuple(AnyT), items).value
  }

  /** The entries of `nominal.tuple.of(nominal.string, [nominal.integer])`. */
  lemma EntriesStrRestInt()
    ensures TupleForms.Entries(StrRestInt(), Show) == ["0: Nominal<String>", "*: Nominal<Integer>"]
  {
    assert DigitChar(0) == '0';
    assert DecimalString(0) == "0";
    var es := TupleForms.Entries(StrRestInt(), Show);
    assert "0" + ": " + "Nominal<String>" == "0: Nominal<String>";
    assert "*: " + "Nominal<Integer>" == "*: Nominal<Integer>";
  }

  /** Two entries are joined with one separator between them. */
  lemma JoinPair(a: string, b: string)
    ensures TupleForms.Join(", ", [a, b]) == a + ", " + b
  {
    assert [a, b][1..] == [b];
  }

  /** A tuple with two entries renders them with one separator between them. */
  lemma RenderTwo<T>(t: TupleType<T>, show: T -> string, a: string, b: string)
    requires TupleForms.Entries(t, show) == [a, b]
    ensures TupleForms.Render(t, show, "") == "Tuple<" + a + ", " + b + ">"
  {
    JoinPair(a, b);
    assert "Tuple<" + (a + ", " + b) + ">" + "" == "Tuple<" + a + ", " + b + ">";
  }

  /** The printer renders `nominal.tuple.of(nominal.string, [nominal.integer])` as `Tuple<0: Nominal<String>, *: Nominal<Integer>>`. */
  lemma RenderStrRestInt()
    ensures TupleForms.Render(StrRestInt(), Show, "") == "Tuple<0: Nominal<String>, *: Nominal<Integer>>"
  {
    EntriesStrRestInt();
    RenderTwo(StrRestInt(), Show, "0: Nominal<String>", "*: Nominal<Integer>");
    RenderedText();
  }

  /** The text the printer assembles for the two entries. */
  lemma RenderedText()
    ensures "Tuple<" + "0: Nominal<String>" + ", " + "*: Nominal<Integer>" + ">" ==
            "Tuple<0: Nominal<String>, *: Nominal<Integer>>"
  {
  }

  /** The printer renders `nominal.tuple` as `Tuple<*: Any>`. */
  lemma RenderNominal()
    ensures TupleForms.Render(NominalTuple(AnyT), Show, "") == "Tuple<*: Any>"
  {
    var t := NominalTuple(AnyT);
    var es := TupleForms.Entries(t, Show);
    assert |es| == 1;
    assert es[0] == "*: " + Show(AnyT);
    assert "*: " + "Any" == "*: Any";
    assert es == ["*: Any"];
  }

  /**
   * `[integer, [string | symbol]]`: an integer, then any number of strings or
   * symbols. Every failing position is reported.
   */
  lemma RestExamples()
    ensures var t := TupleType(IndexOf([Type(IntegerT), List([SumT(StringT, SymbolT)])]).value, map[]);
            Coerced(t, TryScalar, Arr([Int(1), Str("a"), Sym("b")])).Success? &&
            Coerced(t, TryScalar, Arr([Str("x"), Int(2), Sym("c"), Int(3)])) ==
              Failure(Arr([Str("x"), Int(2), Sym("c"), Int(3)]),
                      Multiple([ElementError("must be an Integer"),
                                ElementError("must be a Symbol"),
                                ElementError("must be a Symbol")]))
  {
    var items := [Type(IntegerT), List([SumT(StringT, SymbolT)])];
    IndexOfSplits(items);
    assert TypesOf(items[..1]) == [IntegerT];
    var t := TupleType(IndexOf(items).value, map[]);
    assert t.index == TypesIndex([IntegerT], Some(SumT(StringT, SymbolT)));
    var ok := [Int(1), Str("a"), Sym("b")];
    assert Failures(t.index, TryScalar, ok, 2) == [];
    assert Failures(t.index, TryScalar, ok, 3) == [];
    var bad := [Str("x"), Int(2), Sym("c"), Int(3)];
    assert Failures(t.index, TryScalar, bad, 2) ==
           [ElementError("must be an Integer"), ElementError("must be a Symbol")];
    assert Failures(t.index, TryScalar, bad, 3) ==
           [ElementError("must be an Integer"), ElementError("must be a Symbol")];
    assert Failures(t.index, TryScalar, bad, 4) ==
           [ElementError("must be an Integer"), ElementError("must be a Symbol"),
            ElementError("must be a Symbol")];
  }

  /** `Params::Integer | Coercible::String`, the rest type of `ServiceArgs`. */
  function IntOrString(): Scalar
  {
    SumT(CoercibleIntegerT, CoercibleStringT)
  }

  /** `Types.Tuple(Types::Params::Symbol, [Types::Params::Integer | Types::Coercible::String])`. */
  function ServiceArgs(): (t: TupleType<Scalar>)
    ensures t.FixedTypes() == [ParamsSymbolT] && t.RestType() == Some(IntOrString())
  {
    var items := [Type(ParamsSymbolT), List([IntOrString()])];
    IndexOfSplits(items);
    assert TypesOf(items[..1]) == [ParamsSymbolT];
    TupleType(IndexOf(items).value, map[])
  }

  /** The digits `"300"` read as `300`. */
  lemma ThreeHundred()
    ensures IsDigits("300") && DigitsValue("300") == 300
  {
    assert "300"[..2] == "30" && "30"[..1] == "3" && "3"[..0] == "";
  }

  /** How the rest type of `ServiceArgs` reads `"300"` and `"sample"`. */
  lemma IntOrStringReads()
    ensures TryScalar(IntOrString(), Str("300")) == Success(Int(300))
    ensures TryScalar(IntOrString(), Str("sample")) == Success(Str("sample"))
  {
    ThreeHundred();
    assert !IsDigits("sample") by {
      assert "sample"[0] == 's';
    }
  }

  /** `ServiceArgs[['thumb', '300', '300', 'sample']]` is `[:thumb, 300, 300, "sample"]`. */
  lemma ServiceArgsExample()
    ensures Coerced(ServiceArgs(), TryScalar, Arr([Str("thumb"), Str("300"), Str("300"), Str("sample")])) ==
            Success(Arr([Sym("thumb"), Int(300), Int(300), Str("sample")]))
  {
    var ix := ServiceArgs().index;
    var input := [Str("thumb"), Str("300"), Str("300"), Str("sample")];
    IntOrStringReads();
    assert PositionOutcome(ix, TryScalar, input, 0) == Fits(Sym("thumb"));
    assert PositionOutcome(ix, TryScalar, input, 1) == Fits(Int(300));
    assert PositionOutcome(ix, TryScalar, input, 2) == Fits(Int(300));
    assert PositionOutcome(ix, TryScalar, input, 3) == Fits(Str("sample"));
    assert Failures(ix, TryScalar, input, 1) == [];
    assert Outputs(ix, TryScalar, input, 1) == [Sym("thumb")];
    assert Failures(ix, TryScalar, input, 2) == [];
    assert Outputs(ix, TryScalar, input, 2) == [Sym("thumb"), Int(300)];
    assert Failures(ix, TryScalar, input, 3) == [];
    assert Outputs(ix, TryScalar, input, 3) == [Sym("thumb"), Int(300), Int(300)];
    assert Failures(ix, TryScalar, input, 4) == [];
    assert Outputs(ix, TryScalar, input, 4) == [Sym("thumb"), Int(300), Int(300), Str("sample")];
  }

  // ---------------------------------------------------------------------------
  // A sum of two plain classes
  // ---------------------------------------------------------------------------

  function NoSuperSafe(v: Value, b: Option<ClassDecorator.Block>): Result<Value, Error>
  {
    Err(ElementError("no implicit conversion"))
  }

  function NoSuperUnsafe(v: Value): Result<Value, Error>
  {
    Err(ElementError("no implicit conversion"))
  }

  /** A plain class under `Poro` with the given tuple, no `super` hooks and a plain `new`. */
  function Poro(name: string, tuple: TupleType<Scalar>): ClassDecorator.ClassDecl<Scalar>
  {
    ClassDecorator.ClassDecl(name, ["Poro"], tuple, None, None, None, NoSuperSafe, NoSuperUnsafe)
  }

  /** A `Poro` class builds an instance holding the coerced Array. */
  lemma PoroBuilds(name: string, tuple: TupleType<Scalar>, input: Value)
    requires Coerced(tuple, TryScalar, input).Success?
    ensures ClassDecorator.Built(Poro(name, tuple), TryScalar, input) ==
            Ok(Instance([name, "Poro"], Coerced(tuple, TryScalar, input).input))
  {
    assert [name] + ["Poro"] == [name, "Poro"];
  }

  function PoroStrInt(): ClassDecorator.ClassDecl<Scalar>
  {
    Poro("PoroStrInt", TupleType(TypesIndex([StringT, CoercibleIntegerT], None), map[]))
  }

  function PoroSymHash(): ClassDecorator.ClassDecl<Scalar>
  {
    Poro("PoroSymHash", TupleType(TypesIndex([SymbolT, HashT], None), map[]))
  }

  function PoroSum(): ClassDecorator.Alternatives<Scalar>
  {
    ClassDecorator.Sum(ClassDecorator.One(PoroStrInt()), ClassDecorator.One(PoroSymHash()))
  }

  /** `(PoroStrInt | PoroSymHash)[['a', 1]]` builds a `PoroStrInt`. */
  lemma PoroSumStrInt()
    ensures ClassDecorator.SumCallUnsafe(PoroSum(), TryScalar, Arr([Str("a"), Int(1)])) ==
            Ok(Instance(["PoroStrInt", "Poro"], Arr([Str("a"), Int(1)])))
  {
    var cs := ClassDecorator.Classes(PoroSum());
    assert cs == [PoroStrInt(), PoroSymHash()];
    var input := [Str("a"), Int(1)];
    ClassDecorator.SumCallUnsafeResolves(PoroSum(), TryScalar, Arr(input));
    assert Failures(PoroStrInt().tuple.index, TryScalar, input, 1) == [];
    assert Outputs(PoroStrInt().tuple.index, TryScalar, input, 1) == [Str("a")];
    assert Failures(PoroStrInt().tuple.index, TryScalar, input, 2) == [];
    assert Outputs(PoroStrInt().tuple.index, TryScalar, input, 2) == [Str("a"), Int(1)];
    assert Coerced(PoroStrInt().tuple, TryScalar, Arr(input)) == Success(Arr(input));
    PoroBuilds("PoroStrInt", PoroStrInt().tuple, Arr(input));
    assert ClassDecorator.Built(PoroStrInt(), TryScalar, Arr(input)) ==
           Ok(Instance(["PoroStrInt", "Poro"], Arr(input)));
    ClassDecorator.FirstAcceptingPicks(cs, TryScalar, Arr(input), ClassDecorator.CallUnsafe(cs[1], TryScalar, Arr(input)), 0);
  }

  /** The coercible integer reads `'1'` as `1`. */
  lemma DigitStringCoerced()
    ensures TryScalar(CoercibleIntegerT, Str("1")) == Success(Int(1))
  {
    assert IsDigits("1");
    assert "1"[..0] == [];
  }

  /** `(PoroStrInt | PoroSymHash)[['a', '1']]` builds a `PoroStrInt` holding the coerced `1`. */
  lemma PoroSumStrDigits()
    ensures ClassDecorator.SumCallUnsafe(PoroSum(), TryScalar, Arr([Str("a"), Str("1")])) ==
            Ok(Instance(["PoroStrInt", "Poro"], Arr([Str("a"), Int(1)])))
  {
    var cs := ClassDecorator.Classes(PoroSum());
    assert cs == [PoroStrInt(), PoroSymHash()];
    var input := [Str("a"), Str("1")];
    DigitStringCoerced();
    ClassDecorator.SumCallUnsafeResolves(PoroSum(), TryScalar, Arr(input));
    assert Failures(PoroStrInt().tuple.index, TryScalar, input, 1) == [];
    assert Outputs(PoroStrInt().tuple.index, TryScalar, input, 1) == [Str("a")];
    assert PositionOutcome(PoroStrInt().tuple.index, TryScalar, input, 1) == Fits(Int(1));
    assert Failures(PoroStrInt().tuple.index, TryScalar, input, 2) == [];
    assert Outputs(PoroStrInt().tuple.index, TryScalar, input, 2) == [Str("a"), Int(1)];
    assert Coerced(PoroStrInt().tuple, TryScalar, Arr(input)) == Success(Arr([Str("a"), Int(1)]));
    PoroBuilds("PoroStrInt", PoroStrInt().tuple, Arr(input));
    assert ClassDecorator.Built(PoroStrInt(), TryScalar, Arr(input)) ==
           Ok(Instance(["PoroStrInt", "Poro"], Arr([Str("a"), Int(1)])));
    ClassDecorator.FirstAcceptingPicks(cs, TryScalar, Arr(input), ClassDecorator.CallUnsafe(cs[1], TryScalar, Arr(input)), 0);
  }

  /** `(PoroStrInt | PoroSymHash)[[:a, {}]]` builds a `PoroSymHash`. */
  lemma PoroSumSymHash()
    ensures ClassDecorator.SumCallUnsafe(PoroSum(), TryScalar, Arr([Sym("a"), Hash(map[])])) ==
            Ok(Instance(["PoroSymHash", "Poro"], Arr([Sym("a"), Hash(map[])])))
  {
    var cs := ClassDecorator.Classes(PoroSum());
    assert cs == [PoroStrInt(), PoroSymHash()];
    var input := [Sym("a"), Hash(map[])];
    ClassDecorator.SumCallUnsafeResolves(PoroSum(), TryScalar, Arr(input));
    assert Failures(PoroStrInt().tuple.index, TryScalar, input, 1) == [ElementError("must be a String")];
    assert Failures(PoroSymHash().tuple.index, TryScalar, input, 1) == [];
    assert Outputs(PoroSymHash().tuple.index, TryScalar, input, 1) == [Sym("a")];
    assert Failures(PoroStrInt().tuple.index, TryScalar, input, 2) != [];
    assert Failures(PoroSymHash().tuple.index, TryScalar, input, 2) == [];
    assert Outputs(PoroSymHash().tuple.index, TryScalar, input, 2) == [Sym("a"), Hash(map[])];
    assert Coerced(PoroSymHash().tuple, TryScalar, Arr(input)) == Success(Arr(input));
    PoroBuilds("PoroSymHash", PoroSymHash().tuple, Arr(input));
    assert ClassDecorator.Built(PoroSymHash(), TryScalar, Arr(input)) ==
           Ok(Instance(["PoroSymHash", "Poro"], Arr(input)));
    ClassDecorator.FirstAcceptingPicks(cs, TryScalar, Arr(input), ClassDecorator.CallUnsafe(cs[1], TryScalar, Arr(input)), 1);
  }

  // ---------------------------------------------------------------------------
  // TypeCoercer
  // ---------------------------------------------------------------------------

  /** `nil` gives `nominal.tuple`; a doubly constrained tuple gives the inner constraint. */
  lemma CoercerExamples(fromList: seq<Scalar> -> TypeCoercer.TypeObj<Scalar>)
    ensures TypeCoercer.Call(TypeCoercer.NilIn, None, fromList, AnyT) ==
            Some(TypeCoercer.TupleObj(NominalTuple(AnyT)))
    ensures var inner := TypeCoercer.Constrained(TypeCoercer.TupleObj(StrInt()), "size: 2");
            TypeCoercer.Call(TypeCoercer.TypeIn(TypeCoercer.Constrained(inner, "filled")), None, fromList, AnyT) ==
            Some(inner)
  {
    var inner := TypeCoercer.Constrained(TypeCoercer.TupleObj(StrInt()), "size: 2");
    TypeCoercer.CallOnType(TypeCoercer.Constrained(inner, "filled"), None, fromList, AnyT);
  }

  // ---------------------------------------------------------------------------
  // A struct
  // ---------------------------------------------------------------------------

  /** The two unions the key order goes through. */
  lemma AmbivalentUnions()
    ensures TupleStruct.Union([], ["left", "right"]) == ["left", "right"]
    ensures TupleStruct.Union(["left", "right"], ["prefer"]) == ["left", "right", "prefer"]
  {
    var lr := ["left", "right"];
    assert [] + lr == lr;
    TupleStruct.AddNewDistinct([], lr);
    TupleStruct.AddNewAppend([], lr, ["prefer"]);
    assert TupleStruct.AddNew(lr, ["prefer"]) == TupleStruct.AddNew(lr + ["prefer"], []);
  }

  /**
   * `Ambivalent` declares `auto_tuple :left, :right`; its extension
   * `AmbivalentButPrefer` adds `auto_tuple :prefer` on top of the inherited
   * key order (here the same class object stands for the subclass).
   */
  method AmbivalentKeys(fromList: seq<Option<Scalar>> -> TupleType<Scalar>)
    returns (first: seq<string>, second: seq<string>)
    ensures first == ["left", "right"]
    ensures second == ["left", "right", "prefer"]
  {
    var schema := [TupleStruct.Attribute("left", StringT), TupleStruct.Attribute("right", StringT),
                   TupleStruct.Attribute("prefer", SymbolT)];
    var s := new TupleStruct.StructClass.Extended("Ambivalent", [], schema);
    AmbivalentUnions();
    s.AutoTuple(["left", "right"], fromList);
    first := s.keysOrder;
    s.AutoTuple(["prefer"], fromList);
    second := s.keysOrder;
  }
}
