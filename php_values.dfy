/** The PHP scalar values a form field or a table cell can hold, and PHP's `empty()`. */
module PhpValues {
  import opened Wrappers

  /** A PHP scalar (floats, arrays and objects are not modelled). */
  datatype Value = Null | Bool(b: bool) | Int(i: int) | Str(s: string)

  /** PHP `empty($v)`: null, false, 0, '' and '0' are empty; every other scalar is not. */
  predicate IsEmpty(v: Value) {
    match v
    case Null => true
    case Bool(b) => !b
    case Int(i) => i == 0
    case Str(s) => s == "" || s == "0"
  }

  /** PHP `empty()` on a possibly unset string setting. */
  predicate IsEmptyName(name: Option<string>) {
    match name
    case None => true
    case Some(s) => IsEmpty(Str(s))
  }

  /**
   * Which values `empty()` treats as empty: exactly null, false, 0, '' and
   * '0'. Look-alikes such as '00', ' ', '0.0', -1 and true are not empty.
   */
  lemma EmptyValues(v: Value)
    ensures IsEmpty(v) <==> v == Null || v == Bool(false) || v == Int(0) || v == Str("") || v == Str("0")
    ensures !IsEmpty(Str("00")) && !IsEmpty(Str(" ")) && !IsEmpty(Str("0.0"))
    ensures !IsEmpty(Int(-1)) && !IsEmpty(Bool(true))
  {
  }

  /** An ignore-field setting counts as set exactly when it names a key other than '' and '0'. */
  lemma IgnoreFieldNames(name: Option<string>)
    ensures !IsEmptyName(name) <==> name.Some? && name.value != "" && name.value != "0"
    ensures IsEmptyName(None) && IsEmptyName(Some("")) && IsEmptyName(Some("0")) && !IsEmptyName(Some("id"))
  {
  }

  /** Reading `$data[$key]`: an unset key reads as null (PHP only emits a notice). */
  function Lookup(data: map<string, Value>, key: string): (v: Value)
    ensures key !in data ==> v == Null
    ensures key in data ==> v == data[key]
  {
    if key in data then data[key] else Null
  }
}
