/** The small part of JavaScript value semantics the service worker's rules
    depend on: the values a message payload can take, truthiness (`&&`),
    property access, and `String.prototype.includes`. */
module JsValues {

  /** A structured-clone message payload. Numbers are integers here: floating
      point (and NaN, which is falsy) is not modelled. */
  datatype JsValue =
    | Undefined
    | Null
    | Bool(b: bool)
    | Num(n: int)
    | Str(s: string)
    | Object(props: map<string, JsValue>)

  /** JavaScript's ToBoolean, as applied by `&&`. */
  predicate Truthy(v: JsValue)
  {
    match v
    case Undefined => false
    case Null => false
    case Bool(b) => b
    case Num(n) => n != 0
    case Str(s) => s != ""
    case Object(_) => true
  }

  /** `v.name` for a truthy `v`: an object's own property, or `undefined` when it
      has none. Primitive wrappers carry no own properties of interest here, so
      reading them also gives `undefined`. */
  function Property(v: JsValue, name: string): JsValue
  {
    match v
    case Object(props) => if name in props then props[name] else Undefined
    case _ => Undefined
  }

  /** `sub` occurs in `s` starting at index `i`. */
  ghost predicate OccursAt(s: string, sub: string, i: int)
  {
    0 <= i && i + |sub| <= |s| && s[i..i + |sub|] == sub
  }

  /** An occurrence in `s` at `i + 1` is an occurrence in `s[1..]` at `i`. */
  lemma ShiftOccurrence(s: string, sub: string)
    requires |s| > 0
    ensures forall i :: 0 <= i ==> (OccursAt(s, sub, i + 1) <==> OccursAt(s[1..], sub, i))
  {
  }

  /** `s.includes(sub)`: true exactly when `sub` occurs somewhere in `s`
      (so always for the empty `sub`). */
  function Includes(s: string, sub: string): (b: bool)
    ensures b <==> exists i :: OccursAt(s, sub, i)
    decreases |s|
  {
    if |sub| > |s| then
      assert forall i :: !OccursAt(s, sub, i);
      false
    else if s[..|sub|] == sub then
      assert OccursAt(s, sub, 0);
      true
    else
      ShiftOccurrence(s, sub);
      assert !OccursAt(s, sub, 0);
      assert forall i :: OccursAt(s, sub, i) ==> OccursAt(s[1..], sub, i - 1);
      Includes(s[1..], sub)
  }

  /** A string that lacks one of the characters of `sub` does not include `sub`. */
  lemma MissingCharacter(s: string, sub: string, k: nat)
    requires k < |sub| && sub[k] !in s
    ensures !Includes(s, sub)
  {
  }
}
