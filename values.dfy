/** The dynamically typed values that reach the core from YAML settings and
    from the scraper's records, and the three Python conversions applied to
    them: truthiness (`bool(v)`, `if v`), `int(v)` and `str(v)`. */
module PyValues {
  import opened Text
  import opened Wrappers

  /** A Python value as the core sees it: `None`, a bool, an int, a str, a
      list, or a dict with string keys. */
  datatype Value =
    | VNone
    | VBool(b: bool)
    | VInt(i: int)
    | VStr(s: string)
    | VList(items: seq<Value>)
    | VMap(m: map<string, Value>)

  /** `bool(v)`: `None`, `False`, `0`, `""`, `[]` and `{}` are false. */
  predicate Truthy(v: Value) {
    match v
    case VNone => false
    case VBool(b) => b
    case VInt(i) => i != 0
    case VStr(s) => s != ""
    case VList(items) => items != []
    case VMap(m) => m != map[]
  }

  /** Python's `int(s)` on a str: optional surrounding whitespace, an
      optional sign, then one or more decimal digits. `None` stands for the
      `ValueError` it raises otherwise. */
  function ParseInt(s: string): Option<int> {
    var t := Strip(s);
    if t == "" then None
    else if t[0] == '-' || t[0] == '+' then
      var digits := t[1..];
      if digits != "" && AllDigits(digits) then
        var v: int := DigitsValue(digits);
        Some(if t[0] == '-' then -v else v)
      else None
    else if AllDigits(t) then Some(DigitsValue(t))
    else None
  }

  /** `int(v)`; `None` stands for the `TypeError` or `ValueError` it raises. */
  function IntOf(v: Value): Option<int> {
    match v
    case VBool(b) => Some(if b then 1 else 0)
    case VInt(i) => Some(i)
    case VStr(s) => ParseInt(s)
    case _ => None
  }

  /** `str(v)` for the scalar values; lists and dicts (whose `repr` the
      model does not render) give `None`. */
  function StrOf(v: Value): Option<string> {
    match v
    case VNone => Some("None")
    case VBool(b) => Some(if b then "True" else "False")
    case VInt(i) => Some(DecimalInt(i))
    case VStr(s) => Some(s)
    case _ => None
  }

  /** `d.get(k, default)` */
  function Get(d: map<string, Value>, k: string, default: Value): (v: Value)
    ensures k in d ==> v == d[k]
    ensures k !in d ==> v == default
  {
    if k in d then d[k] else default
  }

  lemma StripDigits(s: string)
    requires AllDigits(s)
    ensures Strip(s) == s
  {
    if s != [] {
      assert !IsSpace(s[0]) && !IsSpace(s[|s| - 1]);
      StripNoop(s);
    }
  }

  /** A run of digits after a minus reads as its value, negated. */
  lemma ParseSigned(d: string, v: nat)
    requires d != "" && AllDigits(d) && DigitsValue(d) == v
    ensures ParseInt("-" + d) == Some(-(v as int))
  {
    var t := "-" + d;
    assert t[0] == '-' && t[1..] == d;
    assert !IsSpace(t[0]) && !IsSpace(t[|t| - 1]);
    StripNoop(t);
  }

  /** A run of digits reads as its value. */
  lemma ParseUnsigned(d: string, v: nat)
    requires d != "" && AllDigits(d) && DigitsValue(d) == v
    ensures ParseInt(d) == Some(v as int)
  {
    StripDigits(d);
    assert d[0] != '-' && d[0] != '+';
  }

  /** `int(str(n)) == n`: an integer printed in decimal reads back as itself. */
  lemma ParseDecimal(n: int)
    ensures ParseInt(DecimalInt(n)) == Some(n)
    ensures IntOf(VStr(StrOf(VInt(n)).value)) == Some(n)
  {
    assert IntOf(VStr(StrOf(VInt(n)).value)) == ParseInt(DecimalInt(n));
    if n < 0 {
      var m: nat := -n;
      assert DecimalInt(n) == "-" + DecimalNat(m);
      DigitsValueDecimal(m);
      ParseSigned(DecimalNat(m), m);
    } else {
      var m: nat := n;
      assert DecimalInt(n) == DecimalNat(m);
      DigitsValueDecimal(m);
      ParseUnsigned(DecimalNat(m), m);
    }
  }
}
