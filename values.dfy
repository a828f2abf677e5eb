// PHP's dynamically typed values, as the array helpers and the configuration
// see them: scalars, null, (nested) arrays and plain objects.

module Values {
  import opened Text

  /** Array keys: integers or strings. */
  datatype Key = IntKey(n: int) | StrKey(s: string)

  datatype Value =
    | Null
    | Bool(b: bool)
    | Int(i: int)
    | Str(s: string)
    | Arr(entries: seq<(Key, Value)>)
    | Obj(fields: seq<(Key, Value)>)

  /** is_scalar (floats are not modelled). */
  predicate IsScalar(v: Value)
  {
    v.Bool? || v.Int? || v.Str?
  }

  /** PHP's empty(): null, false, 0, "", "0" and the empty array. */
  predicate Empty(v: Value)
  {
    match v
    case Null => true
    case Bool(b) => !b
    case Int(i) => i == 0
    case Str(s) => s == "" || s == "0"
    case Arr(e) => e == []
    case Obj(_) => false
  }

  predicate NonEmptyArray(v: Value)
  {
    v.Arr? && v.entries != []
  }

  /**
   * count($a, COUNT_RECURSIVE), from entry i on: every entry counts once and
   * a nested array adds its own recursive count.
   */
  function CountFrom(v: Value, i: nat): nat
    requires v.Arr? && i <= |v.entries|
    decreases v, |v.entries| - i
  {
    if i == |v.entries| then 0
    else
      var x := v.entries[i].1;
      1 + (if x.Arr? then CountFrom(x, 0) else 0) + CountFrom(v, i + 1)
  }

  function CountRecursive(a: seq<(Key, Value)>): nat
  {
    CountFrom(Arr(a), 0)
  }

  /**
   * The recursive count is never below the plain count, and equals it exactly
   * when no entry from i on is a non-empty array.
   */
  lemma {:induction false} CountFromBound(v: Value, i: nat)
    requires v.Arr? && i <= |v.entries|
    ensures CountFrom(v, i) >= |v.entries| - i
    ensures CountFrom(v, i) == |v.entries| - i <==>
            forall j :: i <= j < |v.entries| ==> !NonEmptyArray(v.entries[j].1)
    decreases v, |v.entries| - i
  {
    if i < |v.entries| {
      var x := v.entries[i].1;
      CountFromBound(v, i + 1);
      if x.Arr? {
        CountFromBound(x, 0);
      }
    }
  }

  /** The PHP cast of a value used as an array key. */
  function AsKey(v: Value): Key
  {
    match v
    case Int(i) => IntKey(i)
    case Bool(b) => IntKey(if b then 1 else 0)
    case Str(s) => if IsCanonicalInt(s) then IntKey(ParseNat(s)) else StrKey(s)
    case _ => StrKey("")
  }

  /** A decimal string without a superfluous leading zero, which PHP turns into an integer key. */
  predicate IsCanonicalInt(s: string)
  {
    |s| >= 1 && AllDigits(s) && (s[0] != '0' || |s| == 1)
  }

  /** An integer in decimal, with a leading '-' when negative. */
  function IntText(n: int): (r: string)
    ensures r != []
  {
    if n >= 0 then NatToString(n) else "-" + NatToString(-n)
  }

  /** The string a key reads as. */
  function KeyText(k: Key): string
  {
    match k
    case StrKey(s) => s
    case IntKey(n) => IntText(n)
  }

  /** PHP's string conversion: null and false give "", true gives "1", an array "Array". */
  function ValueText(v: Value): string
  {
    match v
    case Null => ""
    case Bool(b) => if b then "1" else ""
    case Int(i) => IntText(i)
    case Str(s) => s
    case Arr(_) => "Array"
    case Obj(_) => "Object"
  }
}
