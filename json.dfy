/**
 * JavaScript values as they appear in the stored collections, and the
 * handful of JavaScript operations the core applies to them: reading a
 * field, strict equality, truthiness, object spread, string and number
 * conversion, and the relational comparison `>=`.
 */
module Json {
  import Text
  import Wrappers

  /** A JSON-like value. `Undef` is what reading a missing field yields. */
  datatype Value =
    | Undef
    | Null
    | Bool(b: bool)
    | Num(n: int)
    | Str(s: string)
    | Arr(items: seq<Value>)
    | Obj(fields: map<string, Value>)

  /** A schemaless record: a mapping from field name to value. */
  type Record = map<string, Value>

  /** `r[k]`: the stored value, or `undefined` when the field is absent. */
  function Get(r: Record, k: string): Value
  {
    if k in r then r[k] else Undef
  }

  predicate IsNullish(v: Value)
  {
    v.Undef? || v.Null?
  }

  /**
   * `a === b`. Primitives compare by value. Arrays and objects compare by
   * identity; every record is a fresh result of parsing the stored text, so
   * an array or object inside it is never identical to another value.
   */
  predicate StrictEq(a: Value, b: Value)
  {
    a == b && !a.Arr? && !a.Obj?
  }

  /** JavaScript truthiness. */
  predicate Truthy(v: Value)
  {
    match v
    case Undef => false
    case Null => false
    case Bool(b) => b
    case Num(n) => n != 0
    case Str(s) => s != ""
    case Arr(_) => true
    case Obj(_) => true
  }

  /** `{ ...a, ...b }`: every field of `b` overrides the field of `a`. */
  function Merge(a: Record, b: Record): (r: Record)
    ensures r.Keys == a.Keys + b.Keys
    ensures forall k :: k in b ==> r[k] == b[k]
    ensures forall k :: k in a && k !in b ==> r[k] == a[k]
  {
    a + b
  }

  /** `String(v)`: JavaScript's conversion of a value to a string. */
  function JsString(v: Value): string
  {
    match v
    case Undef => "undefined"
    case Null => "null"
    case Bool(b) => if b then "true" else "false"
    case Num(n) => Text.IntToString(n)
    case Str(s) => s
    case Arr(items) => JoinElements(items)
    case Obj(_) => "[object Object]"
  }

  /** `items.join(",")`, where a null or undefined element contributes "". */
  function JoinElements(items: seq<Value>): string
    decreases items
  {
    if items == [] then ""
    else
      var head := if IsNullish(items[0]) then "" else JsString(items[0]);
      if |items| == 1 then head else head + "," + JoinElements(items[1..])
  }

  /** `v.toString()`: as `String(v)`, except that it throws on null and undefined. */
  function ToStringCall(v: Value): (r: Wrappers.Option<string>)
    ensures r.None? <==> IsNullish(v)
    ensures r.Some? ==> r.value == JsString(v)
  {
    if IsNullish(v) then Wrappers.None else Wrappers.Some(JsString(v))
  }

  // ---------------------------------------------------------------------------
  // `Number(v)`, restricted to integers

  /**
   * `Number(s)` for a string: surrounding white space is ignored, the empty
   * string is 0, otherwise an optional sign and decimal digits; `None` is NaN.
   */
  function StringToNumber(s: string): (r: Wrappers.Option<int>)
    ensures Text.Trim(s) == [] ==> r == Wrappers.Some(0)
  {
    var t := Text.Trim(s);
    if t == [] then Wrappers.Some(0)
    else
      var signed := t[0] == '-' || t[0] == '+';
      var body := if signed then t[1..] else t;
      if body != [] && Text.AllDigits(body) then
        Wrappers.Some(if t[0] == '-' then -(Text.DigitsValue(body) as int) else Text.DigitsValue(body))
      else Wrappers.None
  }

  /** `Number(v)`; `None` stands for NaN. An array reads as its joined elements. */
  function ToNumber(v: Value): (r: Wrappers.Option<int>)
    ensures v.Num? ==> r == Wrappers.Some(v.n)
    ensures v.Undef? || v.Obj? ==> r.None?
    ensures v.Null? ==> r == Wrappers.Some(0)
  {
    match v
    case Undef => Wrappers.None
    case Null => Wrappers.Some(0)
    case Bool(b) => Wrappers.Some(if b then 1 else 0)
    case Num(n) => Wrappers.Some(n)
    case Str(s) => StringToNumber(s)
    case Arr(items) => StringToNumber(JoinElements(items))
    case Obj(_) => Wrappers.None
  }

  lemma TrimOfNumeral(s: string)
    requires |s| > 0 && !Text.IsSpace(s[0]) && !Text.IsSpace(s[|s| - 1])
    ensures Text.Trim(s) == s
  {
    Text.TrimStartOfTrimmed(s);
    Text.TrimEndOfTrimmed(s);
  }

  /** The decimal spelling of an integer converts back to that integer. */
  lemma NumberOfIntToString(n: int)
    ensures StringToNumber(Text.IntToString(n)) == Wrappers.Some(n)
  {
    var s := Text.IntToString(n);
    if n < 0 {
      var d := Text.NatToString(-n);
      assert s == "-" + d;
      assert s[1..] == d;
      Text.NatToStringValue(-n);
      TrimOfNumeral(s);
    } else {
      Text.NatToStringValue(n);
      TrimOfNumeral(s);
    }
  }

  /** A number, and its string form, convert to themselves. */
  lemma ToNumberOfNumbers(n: int)
    ensures ToNumber(Num(n)) == Wrappers.Some(n)
    ensures ToNumber(Str(Text.IntToString(n))) == Wrappers.Some(n)
    ensures ToNumber(Bool(true)) == Wrappers.Some(1) && ToNumber(Bool(false)) == Wrappers.Some(0)
  {
    NumberOfIntToString(n);
  }

  /** Text with a letter in it is not a number. */
  lemma WordIsNaN()
    ensures ToNumber(Str("ten")) == Wrappers.None
    ensures ToNumber(Str("12 apples")) == Wrappers.None
  {
    TrimOfNumeral("ten");
    TrimOfNumeral("12 apples");
    assert !Text.IsDigit("12 apples"[2]);
  }

  // ---------------------------------------------------------------------------
  // The relational comparison `x >= y`

  /** The primitive a relational operator works on: an array or object becomes its string form. */
  function ToPrimitive(v: Value): (r: Value)
    ensures !r.Arr? && !r.Obj?
    ensures r.Str? <==> v.Str? || v.Arr? || v.Obj?
    ensures r.Str? ==> r.s == JsString(v)
    ensures !v.Arr? && !v.Obj? ==> r == v
  {
    if v.Arr? || v.Obj? then Str(JsString(v)) else v
  }

  /** `a < b` on two strings: character order at the first difference, a proper prefix first. */
  predicate StringLess(a: string, b: string)
  {
    b != [] && (a == [] || a[0] < b[0] || (a[0] == b[0] && StringLess(a[1..], b[1..])))
  }

  /**
   * `x >= y`: two strings compare as text; otherwise both sides are read by
   * `Number()`, and NaN on either side makes the comparison false.
   */
  predicate GreaterOrEqual(x: Value, y: Value)
  {
    var px := ToPrimitive(x);
    var py := ToPrimitive(y);
    if px.Str? && py.Str? then !StringLess(px.s, py.s)
    else ToNumber(px).Some? && ToNumber(py).Some? && ToNumber(px).value >= ToNumber(py).value
  }

  /** `String({})` is not a numeral. */
  lemma ObjectStringIsNaN()
    ensures StringToNumber("[object Object]") == Wrappers.None
  {
    TrimOfNumeral("[object Object]");
    assert !Text.IsDigit("[object Object]"[0]);
  }

  /** Reading a value's primitive by `Number()` is reading the value by `Number()`. */
  lemma ToNumberOfPrimitive(v: Value)
    ensures ToNumber(ToPrimitive(v)) == ToNumber(v)
  {
    if v.Obj? {
      ObjectStringIsNaN();
    }
  }

  /** Against a number, `x >= n` reads `x` by `Number()`. */
  lemma GreaterOrEqualNumber(x: Value, n: int)
    ensures GreaterOrEqual(x, Num(n)) <==> ToNumber(x).Some? && ToNumber(x).value >= n
  {
    ToNumberOfPrimitive(x);
  }

  /** Two numbers compare as numbers. */
  lemma GreaterOrEqualNumbers(a: int, b: int)
    ensures GreaterOrEqual(Num(a), Num(b)) <==> a >= b
  {
  }

  /** Two strings compare as text, whatever numbers they spell. */
  lemma GreaterOrEqualStrings(a: string, b: string)
    ensures GreaterOrEqual(Str(a), Str(b)) <==> !StringLess(a, b)
  {
  }

  lemma {:induction false} StringLessIrreflexive(a: string)
    ensures !StringLess(a, a)
  {
    if a != [] {
      StringLessIrreflexive(a[1..]);
    }
  }

  /** Of two different strings, exactly one is less than the other. */
  lemma {:induction false} StringLessTotal(a: string, b: string)
    requires a != b
    ensures StringLess(a, b) != StringLess(b, a)
  {
    if a != [] && b != [] && a[0] == b[0] {
      assert a[1..] != b[1..] by {
        assert a == [a[0]] + a[1..] && b == [b[0]] + b[1..];
      }
      StringLessTotal(a[1..], b[1..]);
    }
  }

  lemma {:induction false} StringLessTransitive(a: string, b: string, c: string)
    requires StringLess(a, b) && StringLess(b, c)
    ensures StringLess(a, c)
  {
    if a != [] && a[0] == b[0] && b[0] == c[0] {
      StringLessTransitive(a[1..], b[1..], c[1..]);
    }
  }

  /**
   * The difference the two readings make: "95" is at least 90 as a number,
   * yet less than "100" as text, while 95 is less than 100.
   */
  lemma NumeralComparisons()
    ensures GreaterOrEqual(Str("95"), Num(90))
    ensures GreaterOrEqual(Str("95"), Str("100"))
    ensures !GreaterOrEqual(Num(95), Num(100))
    ensures GreaterOrEqual(Arr([Num(95)]), Num(90))
  {
    TrimOfNumeral("95");
    assert Text.DigitsValue("95") == 95 by {
      assert "95"[..1] == "9";
    }
    assert JoinElements([Num(95)]) == "95" by {
      assert Text.IntToString(95) == "95";
    }
  }
}
