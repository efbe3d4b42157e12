/** The JavaScript values the record store and the summary work with: the
    JSON scalars a record field can hold, JavaScript truthiness, the number
    type with its NaN, and the decimal text of a number. */
module Values {

  datatype Option<+T> = None | Some(value: T)

  /** A JSON scalar as `JSON.parse` gives it back, restricted to integer
      numbers; `undefined` is not a value here (an absent field is None). */
  datatype Value = Str(s: string) | Num(n: int) | Bool(b: bool) | Null

  /** A stored record: an object from field names to values. */
  type Record = map<string, Value>

  /** `r[field]` in JavaScript: `undefined` (None) when the field is absent. */
  function Get(r: Record, field: string): Option<Value>
  {
    if field in r then Some(r[field]) else None
  }

  /** JavaScript truthiness: `undefined`, `null`, `false`, `0` and `""` are falsy. */
  predicate Truthy(v: Option<Value>)
  {
    match v
    case None => false
    case Some(Str(s)) => s != ""
    case Some(Num(n)) => n != 0
    case Some(Bool(b)) => b
    case Some(Null) => false
  }

  /** A JavaScript number as the summary uses it: NaN or an exact value in
      fixed units (cents, milligrams), so that sums are exact. */
  datatype JsNumber = NaN | Finite(value: int)

  /** `+` on numbers: NaN absorbs everything. */
  function Add(a: JsNumber, b: JsNumber): JsNumber
  {
    if a.NaN? || b.NaN? then NaN else Finite(a.value + b.value)
  }

  lemma AddAssociative(a: JsNumber, b: JsNumber, c: JsNumber)
    ensures Add(Add(a, b), c) == Add(a, Add(b, c))
  {
  }

  lemma AddCommutative(a: JsNumber, b: JsNumber)
    ensures Add(a, b) == Add(b, a)
  {
  }

  /** The 0 a reduce starts from changes nothing. */
  lemma AddZero(a: JsNumber)
    ensures Add(Finite(0), a) == a && Add(a, Finite(0)) == a
  {
  }

  /** `ns.reduce((sum, n) => sum + n, 0)`: the sum folded from the left. */
  function Sum(ns: seq<JsNumber>): JsNumber
  {
    if ns == [] then Finite(0) else Add(Sum(ns[..|ns| - 1]), ns[|ns| - 1])
  }

  /** The sum of a concatenation is the sum of the sums. */
  lemma {:induction false} SumConcat(a: seq<JsNumber>, b: seq<JsNumber>)
    ensures Sum(a + b) == Add(Sum(a), Sum(b))
  {
    if b == [] {
      assert a + b == a;
    } else {
      var b' := b[..|b| - 1];
      assert (a + b)[..|a + b| - 1] == a + b';
      SumConcat(a, b');
      AddAssociative(Sum(a), Sum(b'), b[|b| - 1]);
    }
  }

  /** The sum is NaN exactly when some term is. */
  lemma {:induction false} SumNaN(ns: seq<JsNumber>)
    ensures Sum(ns).NaN? <==> exists i :: 0 <= i < |ns| && ns[i].NaN?
  {
    if ns != [] {
      var p := ns[..|ns| - 1];
      SumNaN(p);
      assert forall i :: 0 <= i < |p| ==> p[i] == ns[i];
    }
  }

  // ---------------------------------------------------------------------------
  // Decimal text of numbers: `Date.now().toString()` and template literals

  function DigitChar(d: nat): (c: char)
    requires d < 10
  {
    (d + '0' as int) as char
  }

  function DigitValue(c: char): int
  {
    c as int - '0' as int
  }

  predicate IsDigits(s: string)
  {
    forall i :: 0 <= i < |s| ==> '0' <= s[i] <= '9'
  }

  /** The decimal text JavaScript prints for a non-negative integer. */
  function NatToString(n: nat): (s: string)
    ensures |s| >= 1 && IsDigits(s)
    ensures n < 10 <==> |s| == 1
  {
    if n < 10 then [DigitChar(n)] else NatToString(n / 10) + [DigitChar(n % 10)]
  }

  /** Reads a run of decimal digits back as a number. */
  function ParseNat(s: string): nat
    requires IsDigits(s)
  {
    if s == [] then 0
    else ParseNat(s[..|s| - 1]) * 10 + DigitValue(s[|s| - 1])
  }

  /** Printing a number and reading it back gives the number. */
  lemma {:induction false} ParseNatToString(n: nat)
    ensures ParseNat(NatToString(n)) == n
  {
    var s := NatToString(n);
    if n < 10 {
      assert s[..|s| - 1] == [];
    } else {
      assert s[..|s| - 1] == NatToString(n / 10);
      ParseNatToString(n / 10);
    }
  }

  /** Distinct numbers print differently. */
  lemma NatToStringInjective(a: nat, b: nat)
    ensures NatToString(a) == NatToString(b) ==> a == b
  {
    ParseNatToString(a);
    ParseNatToString(b);
  }

  /** The decimal text JavaScript prints for an integer. */
  function IntToString(n: int): string
  {
    if n < 0 then "-" + NatToString(-n) else NatToString(n)
  }

  /** What `${v}` in a template literal prints for a field value. */
  function ToJsString(v: Option<Value>): string
  {
    match v
    case None => "undefined"
    case Some(Str(s)) => s
    case Some(Num(n)) => IntToString(n)
    case Some(Bool(b)) => if b then "true" else "false"
    case Some(Null) => "null"
  }
}
