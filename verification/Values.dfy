/** Typed values: comparison looks at the payload, printing looks at the null flag first. */
module Values {
  import opened Common

  datatype TypeId = INVALID | BOOLEAN | INTEGER | FLOAT | VARCHAR

  type Magnitude = r: real | r >= 0.0 witness 0.0

  /** A FLOAT has a sign of its own, so there are two zeros. */
  datatype Value = Null(ty: TypeId) | Bool(b: bool) | Int(i: int) | Float(minus: bool, size: Magnitude) | Str(s: string)

  function TypeOf(v: Value): TypeId {
    match v
    case Null(t) => t
    case Bool(_) => BOOLEAN
    case Int(_) => INTEGER
    case Float(_, _) => FLOAT
    case Str(_) => VARCHAR
  }

  /** What a null carries besides its flag. */
  function Payload(v: Value): Value {
    if !v.Null? then v
    else
      match v.ty
      case BOOLEAN => Bool(false)
      case INTEGER => Int(0)
      case FLOAT => Float(false, 0.0)
      case VARCHAR => Str("")
      case INVALID => v
  }

  function AsReal(v: Value): real
    requires v.Float?
  {
    if v.minus then 0.0 - v.size else v.size
  }

  /** Equality of payloads; the two zeros are equal. */
  predicate SamePayload(a: Value, b: Value) {
    var x, y := Payload(a), Payload(b);
    if x.Float? && y.Float? then AsReal(x) == AsReal(y) else x == y
  }

  /** Nothing on a type mismatch, an assertion failure in `Value::CompareEquals`. */
  function CompareEquals(a: Value, b: Value): Option<bool> {
    if TypeOf(a) != TypeOf(b) || TypeOf(a) == INVALID then None else Some(SamePayload(a, b))
  }

  function StringLess(a: string, b: string): bool {
    if b == "" then false
    else if a == "" then true
    else a[0] < b[0] || (a[0] == b[0] && StringLess(a[1..], b[1..]))
  }

  function CompareLessThan(a: Value, b: Value): Option<bool> {
    if TypeOf(a) != TypeOf(b) then None
    else
      var x, y := Payload(a), Payload(b);
      if x.Int? && y.Int? then Some(x.i < y.i)
      else if x.Float? && y.Float? then Some(AsReal(x) < AsReal(y))
      else if x.Str? && y.Str? then Some(StringLess(x.s, y.s))
      else None
  }

  // ---------- printing ----------

  const Digits: string := "0123456789"

  function Decimal(n: nat): (r: string)
    ensures r != "" && forall c :: c in r ==> c in Digits
  {
    (if n < 10 then "" else Decimal(n / 10)) + [Digits[n % 10]]
  }

  function PrintInt(i: int): string {
    if i < 0 then "-" + Decimal(-i) else Decimal(i)
  }

  /** The nearest number of hundredths, the even one of two. */
  function Hundredths(size: Magnitude): nat {
    var n := (size * 100.0).Floor;
    var rest := size * 100.0 - n as real;
    if rest > 0.5 || (rest == 0.5 && n % 2 == 1) then n + 1 else n
  }

  function PrintHundredths(n: nat): string {
    Decimal(n / 100) + "." + [Digits[n % 100 / 10], Digits[n % 10]]
  }

  /** Two decimals behind the sign, which stays even if all digits are zero. */
  function PrintFloat(minus: bool, size: Magnitude): string {
    (if minus then "-" else "") + PrintHundredths(Hundredths(size))
  }

  function Abs(i: int): nat {
    if i < 0 then -i else i
  }

  function ToString(v: Value): string {
    match v
    case Null(_) => "NULL"
    case Bool(b) => if b then "true" else "false"
    case Int(i) => PrintInt(i)
    case Float(minus, size) => PrintFloat(minus, size)
    case Str(s) => s
  }

  lemma DigitIndex(i: nat, j: nat)
    requires i < 10 && j < 10 && Digits[i] == Digits[j]
    ensures i == j
  {
  }

  lemma {:induction false} DecimalInjective(m: nat, n: nat)
    requires Decimal(m) == Decimal(n)
    ensures m == n
    decreases m
  {
    var a, b := Decimal(m), Decimal(n);
    assert a[|a| - 1] == Digits[m % 10] && b[|b| - 1] == Digits[n % 10];
    DigitIndex(m % 10, n % 10);
    assert a[..|a| - 1] == if m < 10 then "" else Decimal(m / 10);
    assert b[..|b| - 1] == if n < 10 then "" else Decimal(n / 10);
    if m >= 10 && n >= 10 {
      DecimalInjective(m / 10, n / 10);
    }
  }

  lemma PrintIntInjective(i: int, j: int)
    requires PrintInt(i) == PrintInt(j)
    ensures i == j
  {
    hide Decimal;
    assert Decimal(Abs(i))[0] in Digits && Decimal(Abs(j))[0] in Digits;
    if i < 0 && j < 0 {
      assert PrintInt(i)[1..] == Decimal(-i) && PrintInt(j)[1..] == Decimal(-j);
      DecimalInjective(-i, -j);
    } else if i >= 0 && j >= 0 {
      DecimalInjective(i, j);
    }
  }

  lemma IntIsNotNull(i: int)
    ensures PrintInt(i) != "NULL"
  {
    var c := PrintInt(i)[0];
    assert Decimal(Abs(i))[0] in Digits;
    assert c == '-' || c in Digits;
  }

  lemma Recomposed(n: nat)
    ensures n == 100 * (n / 100) + 10 * (n % 100 / 10) + n % 10
  {
  }

  lemma HundredthsInjective(m: nat, n: nat)
    requires PrintHundredths(m) == PrintHundredths(n)
    ensures m == n
  {
    hide Decimal;
    var a, b := PrintHundredths(m), PrintHundredths(n);
    SplitText(Decimal(m / 100), Decimal(n / 100), Digits[m % 100 / 10], Digits[n % 100 / 10], Digits[m % 10],
      Digits[n % 10]);
    DecimalInjective(m / 100, n / 100);
    DigitIndex(m % 100 / 10, n % 100 / 10);
    DigitIndex(m % 10, n % 10);
    Recomposed(m);
    Recomposed(n);
  }

  lemma SplitText(p: string, q: string, c: char, d: char, e: char, f: char)
    requires p + "." + [c, e] == q + "." + [d, f]
    ensures p == q && c == d && e == f
  {
    var a, b := p + "." + [c, e], q + "." + [d, f];
    assert p == a[..|a| - 3] && q == b[..|b| - 3];
    assert c == a[|a| - 2] && d == b[|b| - 2] && e == a[|a| - 1] && f == b[|b| - 1];
  }

  lemma SignedText(minus: bool, size: Magnitude)
    ensures var s, t := PrintFloat(minus, size), PrintHundredths(Hundredths(size));
            && s != "" && s != "NULL" && (s[0] == '-' <==> minus) && t == s[if minus then 1 else 0..]
  {
    hide Hundredths, Decimal;
    var n := Hundredths(size);
    var t := PrintHundredths(n);
    assert Decimal(n / 100)[0] in Digits && t[0] == Decimal(n / 100)[0];
    assert minus ==> ("-" + t)[1..] == t;
    assert !minus ==> "" + t == t == t[0..];
    assert t[0] != 'N' && t[0] != '-';
  }

  /** FLOATs print alike exactly if they have the same sign and round to the same hundredth. */
  lemma FloatText(a: Value, b: Value)
    requires a.Float? && b.Float?
    ensures ToString(a) == ToString(b) <==> a.minus == b.minus && Hundredths(a.size) == Hundredths(b.size)
    ensures ToString(a) != "NULL"
  {
    hide Hundredths, PrintHundredths, PrintFloat;
    SignedText(a.minus, a.size);
    SignedText(b.minus, b.size);
    assert a.minus == b.minus && Hundredths(a.size) == Hundredths(b.size) ==> ToString(a) == ToString(b) by {
      SameText(a.minus, a.size, b.size);
    }
    if ToString(a) == ToString(b) {
      HundredthsInjective(Hundredths(a.size), Hundredths(b.size));
    }
  }

  lemma SameText(minus: bool, x: Magnitude, y: Magnitude)
    ensures Hundredths(x) == Hundredths(y) ==> PrintFloat(minus, x) == PrintFloat(minus, y)
  {
  }

  /** Different FLOATs that round to the same hundredth, or the two zeros. */
  predicate Confused(a: Value, b: Value) {
    a.Float? && b.Float? &&
    if a.minus == b.minus then a.size != b.size && Hundredths(a.size) == Hundredths(b.size)
      else a.size == 0.0 && b.size == 0.0
  }

  /** Two keys that printing and comparing take differently: a null whose payload, or whose printed form,
      looks like a value, or two FLOATs that are confused. */
  predicate LookAlike(a: Value, b: Value) {
    if a.Null? != b.Null? then SamePayload(a, b) || ToString(a) == ToString(b) else Confused(a, b)
  }

  /** For keys of one type, two values print alike exactly when they compare equal, unless they are
      look-alikes. */
  lemma KeyAgreement(a: Value, b: Value)
    requires TypeOf(a) == TypeOf(b) && TypeOf(a) != INVALID
    ensures (ToString(a) == ToString(b) <==> CompareEquals(a, b) == Some(true)) <==> !LookAlike(a, b)
  {
    hide Hundredths, PrintHundredths, Decimal;
    if a.Int? && b.Int? && ToString(a) == ToString(b) { PrintIntInjective(a.i, b.i); }
    if a.Int? { IntIsNotNull(a.i); }
    if b.Int? { IntIsNotNull(b.i); }
    if a.Float? && b.Float? { FloatText(a, b); }
    if a.Float? { FloatText(a, a); }
    if b.Float? { FloatText(b, b); }
  }

  /** FLOAT keys: what prints alike need not be equal, and what is equal need not print alike. */
  lemma FloatsConfused()
    ensures Confused(Float(false, 1.0 / 1024.0), Float(false, 1.0 / 512.0))
            && Confused(Float(true, 0.0), Float(false, 0.0))
  {
    assert Hundredths(1.0 / 1024.0) == 0 by { assert (1.0 / 1024.0 * 100.0).Floor == 0; }
    assert Hundredths(1.0 / 512.0) == 0 by { assert (1.0 / 512.0 * 100.0).Floor == 0; }
  }
}
