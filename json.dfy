/**
 * JSON documents as the backend's JavaScript sees them: parsed values plus
 * `undefined`, the property reads and writes the handlers perform (with the
 * TypeErrors JavaScript raises in strict mode), truthiness, loose equality
 * (`==`), numeric conversion, string conversion of property keys, and the
 * `JSON.parse(JSON.stringify(x))` deep clone.
 *
 * Numbers are integers here; an operation that would raise a TypeError
 * yields `None`.
 */
module Json {
  import opened Wrappers
  import opened Text
  import opened Numbers

  datatype Value =
    | Undefined
    | Null
    | Bool(b: bool)
    | Num(n: int)
    | Str(s: string)
    | Arr(elems: seq<Value>)
    | Obj(fields: map<string, Value>)

  /** JavaScript truthiness. */
  predicate Truthy(v: Value) {
    match v
    case Undefined => false
    case Null => false
    case Bool(b) => b
    case Num(n) => n != 0
    case Str(s) => s != ""
    case Arr(_) => true
    case Obj(_) => true
  }

  /** `x || d`. */
  function Or(x: Value, d: Value): (r: Value)
    ensures Truthy(x) ==> r == x
    ensures !Truthy(x) ==> r == d
  {
    if Truthy(x) then x else d
  }

  /** `x == null`: undefined or null. */
  predicate Nullish(v: Value) {
    v.Undefined? || v.Null?
  }

  /** `typeof v == "object"` (arrays and null included). */
  predicate TypeofObject(v: Value) {
    v.Null? || v.Arr? || v.Obj?
  }

  // ---------------------------------------------------------------------
  // string conversion and array indices

  /** The text of one array element inside `String(array)`: null and undefined render empty. */
  function ElemText(v: Value): string
    decreases v, 1
  {
    if Nullish(v) then "" else ToText(v)
  }

  /** `String(v)`, which is also how a value becomes a property key. */
  function ToText(v: Value): string
    decreases v, 0
  {
    match v
    case Undefined => "undefined"
    case Null => "null"
    case Bool(b) => if b then "true" else "false"
    case Num(n) => IntText(n)
    case Str(s) => s
    case Arr(es) => Join(seq(|es|, i requires 0 <= i < |es| => ElemText(es[i])), ',')
    case Obj(_) => "[object Object]"
  }

  /** The array index a property key denotes: the canonical decimal form of a natural number. */
  function IndexKey(k: string): (r: Option<nat>)
    ensures r.Some? ==> NatText(r.value) == k
  {
    if |k| > 0 && AllDigits(k) && NatText(DigitsValue(k)) == k then Some(DigitsValue(k)) else None
  }

  /** Every natural number is the index its decimal text denotes. */
  lemma IndexKeyOfNat(n: nat)
    ensures IndexKey(NatText(n)) == Some(n)
  {
    NatTextValue(n);
  }

  /** A plain (non-numeric) name is never an array index. */
  lemma IndexKeyOfName(k: string)
    requires |k| > 0 && !IsDigit(k[0])
    ensures IndexKey(k) == None
  {
  }

  /** `arr[i] = x` on an array's elements: holes up to `i` are undefined. */
  function SetElem(es: seq<Value>, i: nat, x: Value): (r: seq<Value>)
    ensures |r| == if i < |es| then |es| else i + 1
    ensures r[i] == x
    ensures forall j :: 0 <= j < |es| && j != i ==> r[j] == es[j]
    ensures forall j :: |es| <= j < i ==> r[j] == Undefined
  {
    if i < |es| then es[i := x] else es + seq(i - |es|, _ => Undefined) + [x]
  }

  // ---------------------------------------------------------------------
  // property access

  /** `v[key]`; `None` is the TypeError of reading a property of null or undefined. */
  function Get(v: Value, key: Value): (r: Option<Value>)
    ensures r.None? <==> Nullish(v)
    ensures v.Obj? ==> r == Some(if ToText(key) in v.fields then v.fields[ToText(key)] else Undefined)
  {
    var k := ToText(key);
    match v
    case Undefined => None
    case Null => None
    case Bool(_) => Some(Undefined)
    case Num(_) => Some(Undefined)
    case Str(s) =>
      if k == "length" then Some(Num(|s|))
      else (match IndexKey(k)
        case Some(i) => if i < |s| then Some(Str([s[i]])) else Some(Undefined)
        case None => Some(Undefined))
    case Arr(es) =>
      if k == "length" then Some(Num(|es|))
      else (match IndexKey(k)
        case Some(i) => if i < |es| then Some(es[i]) else Some(Undefined)
        case None => Some(Undefined))
    case Obj(m) => Some(if k in m then m[k] else Undefined)
  }

  /** `v.name`. */
  function Field(v: Value, name: string): Option<Value> {
    Get(v, Str(name))
  }

  /**
   * `v[key] = x` in strict mode. Writing to null, undefined or a primitive is
   * a TypeError. On an array an index key sets an element and any other key
   * names a property that `JSON.stringify` drops, so the array is unchanged.
   * The key "length" is not special here: in JavaScript writing it truncates
   * or extends the array, or throws a RangeError for an invalid length; the
   * model keeps the array as it was.
   */
  function Put(v: Value, key: Value, x: Value): (r: Option<Value>)
    ensures r.Some? <==> v.Arr? || v.Obj?
    ensures v.Obj? ==> r == Some(Obj(v.fields[ToText(key) := x]))
    ensures r.Some? ==> r.value.Arr? == v.Arr?
  {
    var k := ToText(key);
    match v
    case Arr(es) =>
      (match IndexKey(k)
       case Some(i) => Some(Arr(SetElem(es, i, x)))
       case None => Some(v))
    case Obj(m) => Some(Obj(m[k := x]))
    case _ => None
  }

  /** What is written is what is read back. */
  lemma GetPut(v: Value, key: Value, x: Value)
    requires v.Obj? || (v.Arr? && IndexKey(ToText(key)).Some?)
    ensures Put(v, key, x).Some? && Get(Put(v, key, x).value, key) == Some(x)
  {
    var k := ToText(key);
    if v.Arr? {
      assert IndexKey(k) != None;
      assert k != "length";
    }
  }

  /** Writing one key leaves every other key of an object as it was. */
  lemma GetPutOther(v: Value, key: Value, other: Value, x: Value)
    requires v.Obj? && ToText(key) != ToText(other)
    ensures Get(Put(v, key, x).value, other) == Get(v, other)
  {
  }

  /** `v.hasOwnProperty(key)`; `None` for null and undefined. */
  function HasOwn(v: Value, key: Value): (r: Option<bool>)
    ensures r.None? <==> Nullish(v)
    ensures v.Obj? ==> r == Some(ToText(key) in v.fields)
  {
    var k := ToText(key);
    match v
    case Undefined => None
    case Null => None
    case Bool(_) => Some(false)
    case Num(_) => Some(false)
    case Str(s) => Some(k == "length" || (IndexKey(k).Some? && IndexKey(k).value < |s|))
    case Arr(es) => Some(k == "length" || (IndexKey(k).Some? && IndexKey(k).value < |es|))
    case Obj(m) => Some(k in m)
  }

  /**
   * `root[p0][p1]...[pn] = x`: every step but the last reads a property
   * (a TypeError on null or undefined), the last one writes. The objects on
   * the way are mutated in place, which the value model expresses by writing
   * each one back into its parent.
   */
  function PutPath(root: Value, path: seq<Value>, x: Value): (r: Option<Value>)
    requires |path| >= 1
    ensures r.Some? ==> (root.Arr? || root.Obj?) && r.value.Obj? == root.Obj?
    decreases |path|
  {
    if |path| == 1 then Put(root, path[0], x)
    else
      match Get(root, path[0])
      case None => None
      case Some(child) =>
        match PutPath(child, path[1..], x)
        case None => None
        case Some(child') => Put(root, path[0], child')
  }

  /** `root[p0]...[pn]`, each step a property read. */
  function GetPath(root: Value, path: seq<Value>): Option<Value>
    decreases |path|
  {
    if |path| == 0 then Some(root)
    else
      match Get(root, path[0])
      case None => None
      case Some(child) => GetPath(child, path[1..])
  }

  /** Every container on the path, the last one included, is a plain object. */
  predicate ObjectsAlong(root: Value, path: seq<Value>)
    decreases |path|
  {
    root.Obj? &&
    (|path| <= 1 || ObjectsAlong(Get(root, path[0]).value, path[1..]))
  }

  /** A path write through objects succeeds, and reading the path gives the written value. */
  lemma {:induction false} PutPathThenGet(root: Value, path: seq<Value>, x: Value)
    requires |path| >= 1 && ObjectsAlong(root, path)
    ensures PutPath(root, path, x).Some?
    ensures GetPath(PutPath(root, path, x).value, path) == Some(x)
    decreases |path|
  {
    if |path| == 1 {
      GetPut(root, path[0], x);
      assert path[1..] == [];
    } else {
      var child := Get(root, path[0]).value;
      PutPathThenGet(child, path[1..], x);
      GetPut(root, path[0], PutPath(child, path[1..], x).value);
    }
  }

  // ---------------------------------------------------------------------
  // numeric conversion and loose equality

  function BoolNum(b: bool): int {
    if b then 1 else 0
  }

  /** `Number(v)`; `None` is NaN. Objects and arrays go through their string form. */
  function ToNumber(v: Value): Option<Decimal> {
    match v
    case Undefined => None
    case Null => Some(Decimal(0, 0))
    case Bool(b) => Some(Decimal(BoolNum(b), 0))
    case Num(n) => Some(Decimal(n, 0))
    case Str(s) => NumberOf(s)
    case Arr(_) => NumberOf(ToText(v))
    case Obj(_) => None
  }

  /** An object converts through its string form, which is not a number. */
  lemma ObjectIsNaN(fields: map<string, Value>)
    ensures ToNumber(Obj(fields)) == NumberOf(ToText(Obj(fields)))
  {
    NotANumber(ToText(Obj(fields)));
  }

  /** `v >= 0` (false when `v` converts to NaN). */
  predicate AtLeast(v: Value, m: int) {
    var d := ToNumber(v);
    d.Some? && !Less(d.value, Decimal(m, 0))
  }

  /** `v <= m` (false when `v` converts to NaN). */
  predicate AtMost(v: Value, m: int) {
    var d := ToNumber(v);
    d.Some? && !Less(Decimal(m, 0), d.value)
  }

  /** The rank that each coercion step of `==` lowers. */
  function EqRank(v: Value): nat {
    match v
    case Bool(_) => 2
    case Arr(_) => 1
    case Obj(_) => 1
    case _ => 0
  }

  /** A number equals the numeric value of a string (NaN equals nothing). */
  predicate NumEqText(n: int, s: string) {
    var d := NumberOf(s);
    d.Some? && Same(d.value, Decimal(n, 0))
  }

  /**
   * `a == b`. Two objects are equal only when they are the same object, and
   * no two distinct objects reach a comparison in this backend, so objects
   * are never equal to one another; against a number or a string an object
   * compares through its string form.
   */
  predicate LooseEq(a: Value, b: Value)
    decreases EqRank(a) + EqRank(b)
  {
    if Nullish(a) || Nullish(b) then Nullish(a) && Nullish(b)
    else if a.Bool? && b.Bool? then a.b == b.b
    else if a.Bool? then LooseEq(Num(BoolNum(a.b)), b)
    else if b.Bool? then LooseEq(a, Num(BoolNum(b.b)))
    else if a.Num? && b.Num? then a.n == b.n
    else if a.Str? && b.Str? then a.s == b.s
    else if a.Num? && b.Str? then NumEqText(a.n, b.s)
    else if a.Str? && b.Num? then NumEqText(b.n, a.s)
    else if (a.Arr? || a.Obj?) && (b.Arr? || b.Obj?) then false
    else if a.Obj? then b.Str? && b.s == ToText(a)
    else if b.Obj? then a.Str? && a.s == ToText(b)
    else if a.Arr? then LooseEq(Str(ToText(a)), b)
    else LooseEq(a, Str(ToText(b)))
  }

  /** An object against a number or a string compares through its string form, like an array. */
  lemma ObjectThroughText(a: Value, b: Value)
    requires a.Obj? && (b.Num? || b.Str?)
    ensures LooseEq(a, b) == LooseEq(Str(ToText(a)), b)
  {
    if b.Num? {
      NotANumber(ToText(a));
    }
  }

  /** `==` is symmetric. */
  lemma {:induction false} LooseEqSymmetric(a: Value, b: Value)
    ensures LooseEq(a, b) == LooseEq(b, a)
    decreases EqRank(a) + EqRank(b)
  {
    if Nullish(a) || Nullish(b) {
    } else if a.Bool? && b.Bool? {
    } else if a.Bool? {
      LooseEqSymmetric(Num(BoolNum(a.b)), b);
    } else if b.Bool? {
      LooseEqSymmetric(a, Num(BoolNum(b.b)));
    } else if (a.Arr? || a.Obj?) && (b.Arr? || b.Obj?) {
    } else if a.Arr? {
      LooseEqSymmetric(Str(ToText(a)), b);
    } else if b.Arr? {
      LooseEqSymmetric(a, Str(ToText(b)));
    }
  }

  /** A value loosely equal to a number converts to that number. */
  lemma LooseEqNum(a: Value, m: int)
    ensures LooseEq(a, Num(m)) ==> ToNumber(a).Some? && Same(ToNumber(a).value, Decimal(m, 0))
  {
    if a.Bool? {
      BoolEqNum(a.b, m);
    } else if a.Num? {
      LessIntegers(a.n, m);
    } else if a.Str? {
      TextEqNum(a.s, m);
    } else if a.Arr? {
      ArrayEqNum(a.elems, m);
    }
  }

  lemma BoolEqNum(b: bool, m: int)
    ensures LooseEq(Bool(b), Num(m)) <==> BoolNum(b) == m
    ensures ToNumber(Bool(b)) == Some(Decimal(BoolNum(b), 0))
    ensures Same(Decimal(BoolNum(b), 0), Decimal(m, 0)) <==> BoolNum(b) == m
  {
    assert LooseEq(Bool(b), Num(m)) == LooseEq(Num(BoolNum(b)), Num(m));
    LessIntegers(BoolNum(b), m);
  }

  lemma TextEqNum(t: string, m: int)
    ensures LooseEq(Str(t), Num(m)) == NumEqText(m, t)
  {
    var a, b := Str(t), Num(m);
    assert !Nullish(a) && !Nullish(b) && !a.Bool? && !b.Bool?;
    assert !(a.Num? && b.Num?) && !(a.Str? && b.Str?) && !(a.Num? && b.Str?);
  }

  lemma ArrayEqNum(es: seq<Value>, m: int)
    ensures LooseEq(Arr(es), Num(m)) == NumEqText(m, ToText(Arr(es)))
    ensures ToNumber(Arr(es)) == NumberOf(ToText(Arr(es)))
  {
    var t := ToText(Arr(es));
    assert LooseEq(Arr(es), Num(m)) == LooseEq(Str(t), Num(m));
    TextEqNum(t, m);
  }

  /** Nothing is both `>= 0` and `== -1`. */
  lemma NonNegativeNotMinusOne(v: Value)
    requires AtLeast(v, 0)
    ensures !LooseEq(v, Num(-1))
  {
    LooseEqNum(v, -1);
    var d := ToNumber(v).value;
    Trichotomy(d, Decimal(0, 0));
    assert Less(Decimal(-1, 0), Decimal(0, 0));
  }

  // ---------------------------------------------------------------------
  // JSON round trip

  /** A value `JSON.stringify` reproduces exactly: no undefined anywhere. */
  predicate IsJson(v: Value)
    decreases v
  {
    match v
    case Undefined => false
    case Arr(es) => forall i :: 0 <= i < |es| ==> IsJson(es[i])
    case Obj(m) => forall k :: k in m ==> IsJson(m[k])
    case _ => true
  }

  /**
   * `JSON.parse(JSON.stringify(v))` for a value inside an object or array:
   * undefined fields are dropped and undefined elements become null.
   */
  function Clone(v: Value): Value
    decreases v
  {
    match v
    case Arr(es) => Arr(seq(|es|, i requires 0 <= i < |es| => if es[i].Undefined? then Null else Clone(es[i])))
    case Obj(m) => Obj(map k | k in m && !m[k].Undefined? :: Clone(m[k]))
    case _ => v
  }

  /** The clone of a defined value is JSON. */
  lemma {:induction false} CloneIsJson(v: Value)
    requires !v.Undefined?
    ensures IsJson(Clone(v))
    decreases v
  {
    match v
    case Arr(es) =>
      forall i | 0 <= i < |es| && !es[i].Undefined?
        ensures IsJson(Clone(es[i]))
      {
        CloneIsJson(es[i]);
      }
    case Obj(m) =>
      forall k | k in m && !m[k].Undefined?
        ensures IsJson(Clone(m[k]))
      {
        CloneIsJson(m[k]);
      }
    case _ =>
  }

  /** Cloning JSON changes nothing. */
  lemma {:induction false} CloneOfJson(v: Value)
    requires IsJson(v)
    ensures Clone(v) == v
    decreases v
  {
    match v
    case Arr(es) =>
      forall i | 0 <= i < |es|
        ensures Clone(es[i]) == es[i]
      {
        CloneOfJson(es[i]);
      }
      assert Clone(v).elems == es;
    case Obj(m) =>
      forall k | k in m
        ensures Clone(m[k]) == m[k]
      {
        CloneOfJson(m[k]);
      }
      assert Clone(v).fields == m;
    case _ =>
  }

  /** A second clone changes nothing. */
  lemma CloneIdempotent(v: Value)
    requires !v.Undefined?
    ensures Clone(Clone(v)) == Clone(v)
  {
    CloneIsJson(v);
    CloneOfJson(Clone(v));
  }

  /** Clones of every value of a map of fields, with undefined entries dropped. */
  function CloneFields(m: map<string, Value>): (r: map<string, Value>)
    ensures forall k :: k in r ==> IsJson(r[k])
  {
    var r := map k | k in m && !m[k].Undefined? :: Clone(m[k]);
    assert forall k :: k in r ==> IsJson(r[k]) by {
      forall k | k in r ensures IsJson(r[k]) {
        CloneIsJson(m[k]);
      }
    }
    r
  }

  /** Fields whose values are all JSON clone to themselves. */
  lemma CloneFieldsOfJson(m: map<string, Value>)
    requires forall k :: k in m ==> IsJson(m[k])
    ensures CloneFields(m) == m
  {
    forall k | k in m ensures Clone(m[k]) == m[k] {
      CloneOfJson(m[k]);
    }
  }
}
