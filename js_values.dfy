/** The small fragment of JavaScript values the form engine handles. */
module JsValues {

  datatype Option<+T> = None | Some(value: T)

  /** A primitive: `undefined`, a string, an integral number or a boolean. */
  datatype Prim = Undefined | Str(s: string) | Num(n: int) | Bool(b: bool)

  /** One item of a repeatable group: an object from sub-field id to primitive. */
  type Item = map<string, Prim>

  /** What a form-data key holds: a primitive, or an array of items. */
  datatype Value = Scalar(prim: Prim) | Rows(rows: seq<Item>)

  /** The form data record; a key that is absent reads as `undefined`. */
  type FormData = map<string, Value>

  /** The outcome of code that may throw: a result, or a TypeError raised by calling
      a method (`includes`, `forEach`, `map`, `filter`) on a value that lacks it. */
  datatype Run<+T> = Ok(value: T) | TypeError

  /** JavaScript truthiness: `undefined`, `""`, `0` and `false` are falsy. */
  predicate PrimTruthy(p: Prim) {
    match p
    case Undefined => false
    case Str(s) => s != ""
    case Num(n) => n != 0
    case Bool(b) => b
  }

  /** Every array is truthy, the empty one included. */
  predicate Truthy(v: Value) {
    match v
    case Scalar(p) => PrimTruthy(p)
    case Rows(_) => true
  }

  /** `data[k]` */
  function Get(data: FormData, k: string): Value {
    if k in data then data[k] else Scalar(Undefined)
  }

  /** `item[k]` */
  function ItemGet(item: Item, k: string): Prim {
    if k in item then item[k] else Undefined
  }

  /** `a === b` where `b` is a primitive: an array is never strictly equal to one. */
  predicate StrictEquals(a: Value, b: Prim) {
    a.Scalar? && a.prim == b
  }

  predicate IsDigit(c: char) {
    '0' <= c <= '9'
  }

  function DigitChar(d: nat): (c: char)
    requires d < 10
    ensures IsDigit(c)
  {
    ('0' as int + d) as char
  }

  /** The decimal digits of a natural number, most significant first. */
  function Digits(n: nat): (r: string)
    ensures |r| >= 1
  {
    if n < 10 then [DigitChar(n)] else Digits(n / 10) + [DigitChar(n % 10)]
  }

  /** `String(n)` for an integral number (no exponent form below 10^21). */
  function Decimal(n: int): string {
    if n < 0 then "-" + Digits(-n) else Digits(n)
  }

  /** `String(p)`, the coercion a regular-expression test applies to its argument. */
  function JsString(p: Prim): string {
    match p
    case Undefined => "undefined"
    case Str(s) => s
    case Num(n) => Decimal(n)
    case Bool(b) => if b then "true" else "false"
  }

  /** A match of `/^\d{10}$/`: exactly ten characters, each in 0-9. */
  predicate TenDigitString(s: string) {
    |s| == 10 && forall i :: 0 <= i < |s| ==> IsDigit(s[i])
  }

  /** `/^\d{10}$/.test(p)` */
  predicate MatchesPhonePattern(p: Prim) {
    TenDigitString(JsString(p))
  }

  /** `isNaN(Number(v))`. How `Number` reads a string is left to `numeric`,
      which says whether a string converts to a number; the other cases are
      fixed: numbers and booleans convert, `[]` converts to 0, and an array of
      objects converts to NaN. */
  predicate NumberIsNaN(v: Value, numeric: string -> bool) {
    match v
    case Scalar(Undefined) => true
    case Scalar(Str(s)) => !numeric(s)
    case Scalar(Num(_)) => false
    case Scalar(Bool(_)) => false
    case Rows(rows) => |rows| > 0
  }

  function Pow10(k: nat): (r: nat)
    ensures r >= 1
  {
    if k == 0 then 1 else 10 * Pow10(k - 1)
  }

  lemma {:induction false} DigitsAreDigits(n: nat)
    ensures forall i :: 0 <= i < |Digits(n)| ==> IsDigit(Digits(n)[i])
  {
    if n >= 10 {
      DigitsAreDigits(n / 10);
      assert Digits(n) == Digits(n / 10) + [DigitChar(n % 10)];
    }
  }

  /** A natural number has at most `k` digits exactly when it is below 10^k. */
  lemma {:induction false} DigitsCount(n: nat, k: nat)
    requires k >= 1
    ensures |Digits(n)| <= k <==> n < Pow10(k)
  {
    if n >= 10 {
      if k == 1 {
        assert |Digits(n / 10)| >= 1;
      } else {
        DigitsCount(n / 10, k - 1);
        assert Pow10(k) == 10 * Pow10(k - 1);
      }
    } else {
      assert Pow10(k) == 10 * Pow10(k - 1);
    }
  }

  /** An integral number passes the phone pattern exactly when it has ten digits. */
  lemma NumberMatchesPhonePattern(n: int)
    ensures MatchesPhonePattern(Num(n)) <==> 1_000_000_000 <= n <= 9_999_999_999
  {
    if n < 0 {
      assert !IsDigit(Decimal(n)[0]);
    } else {
      DigitsCount(n, 10);
      DigitsCount(n, 9);
      DigitsAreDigits(n);
      assert Pow10(9) == 1_000_000_000 by {
        assert Pow10(3) == 1000;
        assert Pow10(6) == 1000 * Pow10(3);
      }
      assert Pow10(10) == 10 * Pow10(9);
    }
  }
}
