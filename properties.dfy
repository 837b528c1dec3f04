/**
 * Custom properties of editor objects and scenes: string-keyed maps of
 * loosely typed values, read with `obj.get(key, default)`.
 */
module ObjectProperties {

  /** A stored property value. */
  datatype PropValue = BoolProp(b: bool) | RealProp(r: real) | IntProp(i: int) | StringProp(s: string)

  type PropertyMap = map<string, PropValue>

  /** `v` is what a number read of `key` may give: the default when absent, a stored real as it is. */
  predicate ReadsReal(props: PropertyMap, key: string, default: real, v: real) {
    (key !in props ==> v == default) && (key in props && props[key].RealProp? ==> v == props[key].r)
  }

  /** `v` is what a truth-value read of `key` may give: the default when absent, a stored boolean as it is. */
  predicate ReadsBool(props: PropertyMap, key: string, default: bool, v: bool) {
    (key !in props ==> v == default) && (key in props && props[key].BoolProp? ==> v == props[key].b)
  }

  /** `v` is what a string read of `key` may give: the default when absent, a stored string as it is. */
  predicate ReadsString(props: PropertyMap, key: string, default: string, v: string) {
    (key !in props ==> v == default) && (key in props && props[key].StringProp? ==> v == props[key].s)
  }

  /**
   * `obj.get(key, default)` read as a number: a stored integer or boolean
   * counts as its numeric value; an absent key or a string gives the default.
   */
  function GetReal(props: PropertyMap, key: string, default: real): (r: real)
    ensures key !in props ==> r == default
    ensures key in props && props[key].RealProp? ==> r == props[key].r
  {
    if key !in props then default
    else match props[key]
      case RealProp(r) => r
      case IntProp(i) => i as real
      case BoolProp(b) => if b then 1.0 else 0.0
      case StringProp(_) => default
  }

  /**
   * `obj.get(key, default)` read as a truth value, as Python's truthiness
   * reads it: numbers are true when non-zero, strings when non-empty.
   */
  function GetBool(props: PropertyMap, key: string, default: bool): (r: bool)
    ensures key !in props ==> r == default
    ensures key in props && props[key].BoolProp? ==> r == props[key].b
    ensures key in props && !props[key].StringProp? ==> (r <==> GetReal(props, key, 0.0) != 0.0)
  {
    if key !in props then default
    else match props[key]
      case BoolProp(b) => b
      case RealProp(r) => r != 0.0
      case IntProp(i) => i != 0
      case StringProp(s) => s != ""
  }

  /** `obj.get(key, default)` read as a string; a non-string value gives the default. */
  function GetString(props: PropertyMap, key: string, default: string): (r: string)
    ensures key !in props ==> r == default
    ensures key in props && props[key].StringProp? ==> r == props[key].s
  {
    if key in props && props[key].StringProp? then props[key].s else default
  }
}
