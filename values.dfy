/**
 * The Ruby values the tuple type and the class decorator handle, the errors
 * they report, and the `Dry::Types::Result` a type's `try` returns.
 */
module Values {
  import opened Wrappers

  /** A Ruby value, as far as this model needs to tell values apart. */
  datatype Value =
    | Nil
    | Str(s: string)
    | Int(i: int)
    | Sym(name: string)
    | Arr(items: seq<Value>)
    /** A symbol-keyed Hash, such as a struct's attributes. */
    | Hash(entries: map<string, Value>)
    /** An object: the names of its class and of that class's ancestors, and its state. */
    | Instance(lineage: seq<string>, state: Value)

  /** The errors the core produces or passes on. */
  datatype Error =
    /** "... must be an instance of Array" (the input is not an Array). */
    | NotAnArray(input: Value)
    /** "... not fits to the fixed-size tuple" (no slot type and no rest type). */
    | NotFits(value: Value)
    /** `MultipleError`: the failures of all failing positions, in position order. */
    | Multiple(errors: seq<Error>)
    /** `MapError`, raised with the message of the failed coercion's error. */
    | MapError(cause: Error)
    /** `ArgumentError`: the trailing rest list holds `size` types instead of one. */
    | ArgumentError(size: nat)
    /** An element type's own error, not interpreted here. */
    | ElementError(message: string)

  /** `Dry::Types::Result`: both cases carry `input` (the coerced value on success). */
  datatype TypeResult =
    | Success(input: Value)
    | Failure(input: Value, error: Error)

  /**
   * What `try` with an optional block returns: the result itself, or the value
   * of the block it yielded to.
   */
  datatype Tried<+R, +X> = Returned(result: R) | Yielded(value: X)

  /** The character of a decimal digit. */
  function DigitChar(d: nat): (c: char)
    requires d < 10
    ensures '0' <= c <= '9' && (c as int) - ('0' as int) == d
  {
    ('0' as int + d) as char
  }

  predicate IsDigits(s: string)
  {
    forall i :: 0 <= i < |s| ==> '0' <= s[i] <= '9'
  }

  /** The number a string of decimal digits denotes. */
  function DigitsValue(s: string): nat
    requires IsDigits(s)
  {
    if |s| == 0 then 0
    else DigitsValue(s[..|s| - 1]) * 10 + ((s[|s| - 1] as int) - ('0' as int))
  }

  /** Ruby's `Integer#to_s` for a non-negative integer. */
  function DecimalString(n: nat): (s: string)
    ensures |s| >= 1 && IsDigits(s)
    ensures |s| > 1 ==> s[0] != '0'
  {
    if n < 10 then [DigitChar(n)] else DecimalString(n / 10) + [DigitChar(n % 10)]
  }

  /** Reading back the digits of `DecimalString(n)` gives `n`. */
  lemma {:induction false} DecimalRoundTrip(n: nat)
    ensures DigitsValue(DecimalString(n)) == n
  {
    if n >= 10 {
      DecimalRoundTrip(n / 10);
      var s := DecimalString(n);
      assert s[..|s| - 1] == DecimalString(n / 10);
    }
  }
}
