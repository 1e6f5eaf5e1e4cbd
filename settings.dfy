/** Values of the module's project settings as PHP sees them, and the few PHP
    conversions the core applies to them. */
module Settings {

  /** A setting value: absent (null), a checkbox (bool) or text. */
  datatype Value = Null | Flag(b: bool) | Text(s: string)

  /** One configuration instance: setting key to value. */
  type Instance = map<string, Value>

  /** `$instance[$key]`: a missing key reads as null. */
  function Get(instance: Instance, key: string): (v: Value)
    ensures key !in instance ==> v == Null
  {
    if key in instance then instance[key] else Null
  }

  /** PHP's conversion of a setting value to string: null and false give "",
      true gives "1". */
  function TextOf(v: Value): (s: string)
    ensures v.Text? ==> s == v.s
    ensures v.Null? ==> s == ""
  {
    match v
    case Null => ""
    case Flag(b) => if b then "1" else ""
    case Text(s) => s
  }

  /** PHP truthiness: null, false, "" and "0" are false. */
  predicate Truthy(v: Value) {
    match v
    case Null => false
    case Flag(b) => b
    case Text(s) => s != "" && s != "0"
  }

  /** PHP's loose `$value == $s` against a string: null equals only "", a bool
      compares with the string's truthiness, text compares as text. */
  predicate LooseEquals(v: Value, s: string) {
    match v
    case Null => s == ""
    case Flag(b) => b == Truthy(Text(s))
    case Text(t) => t == s
  }

}
