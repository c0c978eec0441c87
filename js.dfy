/**
 * The JavaScript values and the heap that the muxjs library works on.
 *
 * Primitives are values; objects and arrays are references into a heap,
 * so that two composites are identical exactly when they are the same
 * reference.  The heap also keeps the non-enumerable method properties
 * that the array hook installs on arrays, and the closure variables
 * (`hook`) that those installed proxies share.
 */
module Js {

  datatype Option<+T> = None | Some(value: T)

  /** The kinds of exception the library's code can raise. */
  datatype Exception =
    | TypeError       // property access on undefined/null, write to a primitive, redefining a property
    | ReferenceError  // reading a variable that is not declared
    | PlainError      // `new Error(msg)` thrown by the expect helper
    | Unsupported     // a write the model does not cover (a named property of an array)

  datatype Result<+T> = Ok(value: T) | Err(error: Exception)

  type Ref = nat

  /** A JavaScript value; composites carry their heap reference. */
  datatype Value =
    | Undefined
    | Null
    | Bool(b: bool)
    | Num(n: int)
    | NaN
    | Str(s: string)
    | Obj(ref: Ref)
    | Arr(ref: Ref)
  {
    predicate IsComposite() { Obj? || Arr? }
  }

  /** What a heap reference points to: a plain object or an array. */
  datatype Container =
    | ObjC(fields: map<string, Value>)
    | ArrC(items: seq<Value>)

  /** `===` : NaN is the one value that is not identical to itself. */
  predicate StrictEq(a: Value, b: Value)
  {
    a == b && !a.NaN?
  }

  /** ToBoolean: the falsy values are undefined, null, false, 0, NaN and "". */
  predicate Truthy(v: Value)
  {
    match v
    case Undefined => false
    case Null => false
    case Bool(b) => b
    case Num(n) => n != 0
    case NaN => false
    case Str(s) => s != ""
    case Obj(_) => true
    case Arr(_) => true
  }

  /** The tag `Object.prototype.toString` reports, lower-cased (the `type` helper of util.js). */
  datatype TypeTag = UndefinedTag | NullTag | BooleanTag | NumberTag | StringTag | ObjectTag | ArrayTag

  function TypeOf(v: Value): TypeTag
  {
    match v
    case Undefined => UndefinedTag
    case Null => NullTag
    case Bool(_) => BooleanTag
    case Num(_) => NumberTag
    case NaN => NumberTag
    case Str(_) => StringTag
    case Obj(_) => ObjectTag
    case Arr(_) => ArrayTag
  }

  predicate IsDigit(c: char) { '0' <= c <= '9' }

  function DigitsValue(s: string): nat
    requires forall i :: 0 <= i < |s| ==> IsDigit(s[i])
  {
    if s == [] then 0
    else
      assert IsDigit(s[|s| - 1]);
      DigitsValue(s[..|s| - 1]) * 10 + (s[|s| - 1] as int - '0' as int)
  }

  /** The array index a property key denotes: a canonical decimal numeral. */
  function IndexOf(key: string): Option<nat>
  {
    if |key| > 0 && (forall i :: 0 <= i < |key| ==> IsDigit(key[i])) && (key[0] != '0' || |key| == 1)
    then Some(DigitsValue(key))
    else None
  }

  /** `container[key]` on a container that exists. */
  function ReadCell(c: Container, key: string): Value
  {
    match c
    case ObjC(fields) => if key in fields then fields[key] else Undefined
    case ArrC(items) =>
      if key == "length" then Num(|items|)
      else match IndexOf(key)
        case Some(i) => if i < |items| then items[i] else Undefined
        case None => Undefined
  }

  /** `v[key]` read: undefined and null throw, primitives other than strings have no own properties. */
  function GetProp(cells: map<Ref, Container>, v: Value, key: string): Result<Value>
  {
    match v
    case Undefined => Err(TypeError)
    case Null => Err(TypeError)
    case Obj(r) => if r in cells then Ok(ReadCell(cells[r], key)) else Err(TypeError)
    case Arr(r) => if r in cells then Ok(ReadCell(cells[r], key)) else Err(TypeError)
    case Str(s) =>
      if key == "length" then Ok(Num(|s|))
      else (match IndexOf(key)
        case Some(i) => if i < |s| then Ok(Str([s[i]])) else Ok(Undefined)
        case None => Ok(Undefined))
    case _ => Ok(Undefined)
  }

  function Holes(n: nat): (r: seq<Value>)
    ensures |r| == n && forall i :: 0 <= i < n ==> r[i] == Undefined
  {
    if n == 0 then [] else Holes(n - 1) + [Undefined]
  }

  /** `container[key] = val` on a container that exists. */
  function WriteCell(c: Container, key: string, val: Value): Result<Container>
  {
    match c
    case ObjC(fields) => Ok(ObjC(fields[key := val]))
    case ArrC(items) =>
      match IndexOf(key)
      case Some(i) =>
        if i < |items| then Ok(ArrC(items[i := val]))
        else Ok(ArrC(items + Holes(i - |items|) + [val]))
      case None => Err(Unsupported)
  }

  /** The reference a write `v[key] = ...` lands in, when `v` is a composite. */
  function Target(v: Value): Option<Ref>
  {
    if v.IsComposite() then Some(v.ref) else None
  }

  /** `v[key] = val` in strict mode: undefined, null and primitives throw. */
  function PutProp(cells: map<Ref, Container>, v: Value, key: string, val: Value): Result<map<Ref, Container>>
  {
    if v.IsComposite() && v.ref in cells then
      match WriteCell(cells[v.ref], key, val)
      case Ok(c) => Ok(cells[v.ref := c])
      case Err(e) => Err(e)
    else Err(TypeError)
  }

  /** A write never changes the kind of a container and never removes an object key. */
  lemma WriteCellKeepsShape(c: Container, key: string, val: Value)
    requires WriteCell(c, key, val).Ok?
    ensures c.ObjC? <==> WriteCell(c, key, val).value.ObjC?
    ensures c.ObjC? ==> c.fields.Keys + {key} == WriteCell(c, key, val).value.fields.Keys
  {
  }

  /** Reading back the key just written gives the value written. */
  lemma {:induction false} ReadAfterWrite(c: Container, key: string, val: Value)
    requires WriteCell(c, key, val).Ok?
    ensures ReadCell(WriteCell(c, key, val).value, key) == val
  {
    match c
    case ObjC(_) =>
    case ArrC(items) =>
      var i := IndexOf(key).value;
      assert IndexOf(key).Some?;
      assert IsDigit(key[0]);
      assert key != "length" by { assert "length"[0] == 'l'; }
      if i >= |items| {
        var r := items + Holes(i - |items|) + [val];
        assert r[i] == val;
      }
  }

  datatype Impl = Native(name: string) | AttachedConcat

  /** An own method property of an array: either a plain function or a hook proxy. */
  datatype Method =
    | Plain(impl: Impl)
    | Proxy(native: Impl, cell: nat)   // `cell` is the index of the closure variable `hook`

  type HookId = nat

  /** The JavaScript heap: data cells, own methods installed on arrays, closure cells. */
  class Heap {
    var cells: map<Ref, Container>
    var methods: map<Ref, map<string, Method>>
    var closures: seq<HookId>
    var next: nat
    var hooks: nat

    ghost predicate Valid()
      reads this
    {
      && (forall r :: r in cells ==> r < next)
      && ProxiesBound(methods, |closures|)
    }

    constructor ()
      ensures Valid()
      ensures cells == map[] && methods == map[] && closures == []
    {
      cells, methods, closures := map[], map[], [];
      next, hooks := 0, 0;
    }

    /** A fresh object or array. */
    method Alloc(c: Container) returns (r: Ref)
      requires Valid()
      modifies this
      ensures Valid()
      ensures r !in old(cells) && cells == old(cells)[r := c]
      ensures methods == old(methods) && closures == old(closures) && hooks == old(hooks)
    {
      r := next;
      cells := cells[r := c];
      next := next + 1;
    }

    /** A fresh function identity, for a hook closure. */
    method NewHook() returns (k: HookId)
      modifies this`hooks
      ensures k == old(hooks) && hooks == old(hooks) + 1
    {
      k := hooks;
      hooks := hooks + 1;
    }
  }

  /** Every installed proxy names a closure cell that exists. */
  ghost predicate ProxiesBound(methods: map<Ref, map<string, Method>>, n: nat)
  {
    forall r, m :: r in methods && m in methods[r] && methods[r][m].Proxy? ==> methods[r][m].cell < n
  }

  /** Concatenation is associative. */
  lemma AppendAssoc<T>(a: seq<T>, b: seq<T>, c: seq<T>)
    ensures a + (b + c) == a + b + c
  {
  }
}
