/**
 * The helpers of lib/util.js: the change rule `diff`, the in-place writers
 * `patch` and `merge`, the copy helpers and the own-key iterator `objEach`.
 * The `type` helper is `Js.TypeOf`.
 */
module Util {
  import opened Js

  // ---------------------------------------------------------------------
  // diff

  /** `diff(next, pre)`: `next !== pre || next instanceof Object`. */
  predicate Diff(next: Value, pre: Value)
  {
    !StrictEq(next, pre) || next.IsComposite()
  }

  /** Two values differ unless they are the same primitive (NaN excepted); a composite always differs. */
  lemma DiffCases(next: Value, pre: Value)
    ensures !Diff(next, pre) <==> next == pre && !next.IsComposite() && !next.NaN?
    ensures next.IsComposite() ==> Diff(next, pre)
    ensures !next.IsComposite() && !next.NaN? ==> !Diff(next, next)
    ensures Diff(NaN, NaN)
  {
  }

  // ---------------------------------------------------------------------
  // patch

  /** What `patch(obj, prop, d)` leaves in the heap, or the exception it raises. */
  function PatchSpec(cells: map<Ref, Container>, obj: Value, prop: string, d: Value): Result<map<Ref, Container>>
  {
    match GetProp(cells, obj, prop)
    case Err(e) => Err(e)
    case Ok(cur) => if Truthy(cur) then Ok(cells) else PutProp(cells, obj, prop, d)
  }

  /** `patch(obj, prop, defValue)`: assign `defValue` only when `obj[prop]` is falsy. */
  method Patch(h: Heap, obj: Value, prop: string, d: Value) returns (r: Result<()>)
    modifies h`cells
    ensures PatchSpec(old(h.cells), obj, prop, d).Ok? ==>
              r.Ok? && h.cells == PatchSpec(old(h.cells), obj, prop, d).value
    ensures PatchSpec(old(h.cells), obj, prop, d).Err? ==>
              r == Err(PatchSpec(old(h.cells), obj, prop, d).error) && h.cells == old(h.cells)
  {
    var cur := GetProp(h.cells, obj, prop);
    if cur.Err? {
      return Err(cur.error);
    }
    if !Truthy(cur.value) {
      var written := PutProp(h.cells, obj, prop, d);
      if written.Err? {
        return Err(written.error);
      }
      h.cells := written.value;
    }
    return Ok(());
  }

  /** A patched property is truthy afterwards exactly when it was, or the default is. */
  lemma PatchWritesOnlyFalsy(cells: map<Ref, Container>, obj: Value, prop: string, d: Value)
    requires obj.Obj? && obj.ref in cells && cells[obj.ref].ObjC?
    ensures PatchSpec(cells, obj, prop, d).Ok?
    ensures Truthy(ReadCell(cells[obj.ref], prop)) ==> PatchSpec(cells, obj, prop, d).value == cells
    ensures !Truthy(ReadCell(cells[obj.ref], prop)) ==>
              PatchSpec(cells, obj, prop, d).value == cells[obj.ref := ObjC(cells[obj.ref].fields[prop := d])]
  {
  }

  /** `patch` on a key holding 0, "" or false overwrites it; on undefined or null it throws. */
  lemma PatchFalsyValues(cells: map<Ref, Container>, obj: Value, prop: string, d: Value)
    requires obj.Obj? && obj.ref in cells && cells[obj.ref].ObjC?
    requires prop in cells[obj.ref].fields
    requires cells[obj.ref].fields[prop] in {Num(0), Str(""), Bool(false)}
    ensures PatchSpec(cells, obj, prop, d) == Ok(cells[obj.ref := ObjC(cells[obj.ref].fields[prop := d])])
    ensures PatchSpec(cells, Undefined, prop, d) == Err(TypeError)
    ensures PatchSpec(cells, Null, prop, d) == Err(TypeError)
  {
  }

  // ---------------------------------------------------------------------
  // objEach

  /** The own enumerable keys and values `for (key in obj)` with `hasOwnProperty` visits. */
  function OwnFields(cells: map<Ref, Container>, obj: Value): Result<map<string, Value>>
  {
    match obj
    case Obj(r) => if r in cells && cells[r].ObjC? then Ok(cells[r].fields) else Ok(map[])
    case Arr(_) => Err(Unsupported)
    case _ => Ok(map[])
  }

  /**
   * `objEach(obj, fn)`: one call `fn(key, obj[key])` per own key.  The calls
   * are returned in the order made; `fn` itself is opaque.
   */
  method ObjEach(h: Heap, obj: Value) returns (calls: Result<seq<(string, Value)>>)
    ensures OwnFields(h.cells, obj).Err? ==> calls == Err(OwnFields(h.cells, obj).error)
    ensures OwnFields(h.cells, obj).Ok? ==> calls.Ok? && EachOnce(calls.value, OwnFields(h.cells, obj).value)
  {
    var own := OwnFields(h.cells, obj);
    if own.Err? {
      return Err(own.error);
    }
    var fields := own.value;
    var todo := fields.Keys;
    var made: seq<(string, Value)> := [];
    while todo != {}
      invariant todo <= fields.Keys
      invariant forall i :: 0 <= i < |made| ==> made[i].0 in fields && made[i].0 !in todo && made[i].1 == fields[made[i].0]
      invariant forall i, j :: 0 <= i < j < |made| ==> made[i].0 != made[j].0
      invariant forall k :: k in fields && k !in todo ==> exists i :: 0 <= i < |made| && made[i].0 == k
      decreases todo
    {
      var k :| k in todo;
      ghost var before := made;
      made := made + [(k, fields[k])];
      assert forall i :: 0 <= i < |before| ==> made[i] == before[i];
      assert made[|before|].0 == k;
      todo := todo - {k};
    }
    return Ok(made);
  }

  /** Every key of `fields` is called exactly once, with its value. */
  ghost predicate EachOnce(calls: seq<(string, Value)>, fields: map<string, Value>)
  {
    && (forall i :: 0 <= i < |calls| ==> calls[i].0 in fields && calls[i].1 == fields[calls[i].0])
    && (forall i, j :: 0 <= i < j < |calls| ==> calls[i].0 != calls[j].0)
    && (forall k :: k in fields ==> exists i :: 0 <= i < |calls| && calls[i].0 == k)
  }

  /** Calling once per key means as many calls as keys. */
  lemma EachOnceCount(calls: seq<(string, Value)>, fields: map<string, Value>)
    requires EachOnce(calls, fields)
    ensures |calls| == |fields.Keys|
  {
    var keys := set i | 0 <= i < |calls| :: calls[i].0;
    assert keys == fields.Keys;
    DistinctKeysCount(calls);
  }

  lemma {:induction false} DistinctKeysCount(calls: seq<(string, Value)>)
    requires forall i, j :: 0 <= i < j < |calls| ==> calls[i].0 != calls[j].0
    ensures |set i | 0 <= i < |calls| :: calls[i].0| == |calls|
  {
    if calls != [] {
      var init := calls[..|calls| - 1];
      DistinctKeysCount(init);
      var before := set i | 0 <= i < |init| :: init[i].0;
      var after := set i | 0 <= i < |calls| :: calls[i].0;
      assert after == before + {calls[|calls| - 1].0};
      assert calls[|calls| - 1].0 !in before;
    }
  }

  // ---------------------------------------------------------------------
  // merge

  /** `merge(dest, source)`: the heap after copying every own key of `source` onto `dest`. */
  function MergeSpec(cells: map<Ref, Container>, dest: Value, source: Value): Result<map<Ref, Container>>
  {
    match OwnFields(cells, source)
    case Err(e) => Err(e)
    case Ok(src) =>
      if src == map[] then Ok(cells)
      else if dest.Obj? && dest.ref in cells && cells[dest.ref].ObjC? then
        Ok(cells[dest.ref := ObjC(cells[dest.ref].fields + src)])
      else if dest.Arr? then Err(Unsupported)
      else Err(TypeError)
  }

  /** `merge(dest, source)`: copies each own key of `source` onto `dest` and returns `dest`. */
  method Merge(h: Heap, dest: Value, source: Value) returns (r: Result<Value>)
    modifies h`cells
    ensures MergeSpec(old(h.cells), dest, source).Ok? ==>
              r == Ok(dest) && h.cells == MergeSpec(old(h.cells), dest, source).value
    ensures MergeSpec(old(h.cells), dest, source).Err? ==>
              r == Err(MergeSpec(old(h.cells), dest, source).error) && h.cells == old(h.cells)
  {
    var own := OwnFields(h.cells, source);
    if own.Err? {
      return Err(own.error);
    }
    var src := own.value;
    if src == map[] {
      return Ok(dest);
    }
    if !(dest.Obj? && dest.ref in h.cells && h.cells[dest.ref].ObjC?) {
      return if dest.Arr? then Err(Unsupported) else Err(TypeError);
    }
    ghost var start := h.cells[dest.ref].fields;
    var todo := src.Keys;
    while todo != {}
      invariant todo <= src.Keys
      invariant dest.ref in h.cells && h.cells[dest.ref].ObjC?
      invariant h.cells == old(h.cells)[dest.ref := h.cells[dest.ref]]
      invariant h.cells[dest.ref].fields == start + map k | k in src.Keys - todo :: src[k]
      decreases todo
    {
      var k :| k in todo;
      h.cells := h.cells[dest.ref := ObjC(h.cells[dest.ref].fields[k := src[k]])];
      todo := todo - {k};
    }
    assert src.Keys - todo == src.Keys;
    assert (map k | k in src.Keys :: src[k]) == src;
    return Ok(dest);
  }

  /** After a merge, `dest` has the source's keys with the source's values and keeps its other keys. */
  lemma MergeContents(cells: map<Ref, Container>, dest: Ref, source: Value, k: string)
    requires dest in cells && cells[dest].ObjC?
    requires OwnFields(cells, source).Ok?
    ensures MergeSpec(cells, Obj(dest), source).Ok?
    ensures var after := MergeSpec(cells, Obj(dest), source).value;
            var src := OwnFields(cells, source).value;
            && after[dest].ObjC?
            && (k in src ==> after[dest].fields[k] == src[k])
            && (k !in src && k in cells[dest].fields ==> after[dest].fields[k] == cells[dest].fields[k])
            && (k in after[dest].fields <==> k in src || k in cells[dest].fields)
            && (forall r :: r in cells && r != dest ==> after[r] == cells[r])
  {
  }

  /** Merging into an empty object gives exactly the source's own keys: `merge({}, model)` is a snapshot. */
  lemma MergeIntoEmpty(cells: map<Ref, Container>, dest: Ref, source: Value)
    requires dest in cells && cells[dest] == ObjC(map[])
    requires OwnFields(cells, source).Ok?
    ensures MergeSpec(cells, Obj(dest), source) == Ok(cells[dest := ObjC(OwnFields(cells, source).value)])
  {
    var src := OwnFields(cells, source).value;
    if src == map[] {
      assert cells[dest := ObjC(src)] == cells;
    } else {
      assert map[] + src == src;
    }
  }

  // ---------------------------------------------------------------------
  // copyArray

  /** `copyArray(arr)`: a fresh array, filled from the last index down to 0. */
  method CopyArray(h: Heap, src: Ref) returns (r: Ref)
    requires h.Valid()
    requires src in h.cells && h.cells[src].ArrC?
    modifies h
    ensures h.Valid()
    ensures r !in old(h.cells) && h.cells == old(h.cells)[r := old(h.cells)[src]]
    ensures h.methods == old(h.methods) && h.closures == old(h.closures)
  {
    var items := h.cells[src].items;
    var len := |items|;
    var buffer := new Value[len](_ => Undefined);
    while len > 0
      invariant 0 <= len <= buffer.Length == |items|
      invariant buffer[len..] == items[len..]
      modifies buffer
    {
      len := len - 1;
      buffer[len] := items[len];
    }
    assert buffer[..] == buffer[0..];
    r := h.Alloc(ArrC(buffer[..]));
  }

  // ---------------------------------------------------------------------
  // copyObject

  /**
   * `copyObject()` as written: it hands its callback to `objEach` as the object
   * to iterate, with no function; a function literal has no own enumerable
   * keys, so the loop never runs and the result is always a fresh `{}`.
   */
  method CopyObjectAsWritten(h: Heap, obj: Value) returns (r: Ref)
    requires h.Valid()
    modifies h
    ensures h.Valid()
    ensures r !in old(h.cells) && h.cells == old(h.cells)[r := ObjC(map[])]
  {
    var copied: map<string, Value> := map[];
    r := h.Alloc(ObjC(copied));
  }

  /** The evident intent: a fresh object holding the argument's own keys and values. */
  method CopyObject(h: Heap, obj: Value) returns (r: Result<Ref>)
    requires h.Valid()
    modifies h
    ensures h.Valid()
    ensures OwnFields(old(h.cells), obj).Ok? ==>
              r.Ok? && r.value !in old(h.cells) && h.cells == old(h.cells)[r.value := ObjC(OwnFields(old(h.cells), obj).value)]
    ensures OwnFields(old(h.cells), obj).Err? ==> r == Err(OwnFields(old(h.cells), obj).error) && h.cells == old(h.cells)
  {
    var calls := ObjEach(h, obj);
    if calls.Err? {
      return Err(calls.error);
    }
    var copied := CopyEach(calls.value, OwnFields(h.cells, obj).value);
    var ref := h.Alloc(ObjC(copied));
    return Ok(ref);
  }

  /** The callback of the intended `copyObject`: `copy[key] = value` for each call, in order. */
  method CopyEach(each: seq<(string, Value)>, ghost fields: map<string, Value>) returns (copied: map<string, Value>)
    requires EachOnce(each, fields)
    ensures copied == fields
  {
    copied := map[];
    var i := 0;
    while i < |each|
      invariant 0 <= i <= |each|
      invariant copied.Keys == set j | 0 <= j < i :: each[j].0
      invariant forall k :: k in copied ==> k in fields && copied[k] == fields[k]
    {
      copied := copied[each[i].0 := each[i].1];
      i := i + 1;
    }
    assert copied.Keys == fields.Keys by {
      forall k | k in fields ensures k in copied {
        var j :| 0 <= j < |each| && each[j].0 == k;
      }
    }
  }

  /** The code as written loses every key: copying `{a: 1}` yields `{}`, not `{a: 1}`. */
  lemma CopyObjectLosesKeys(cells: map<Ref, Container>, r: Ref)
    requires r in cells && cells[r] == ObjC(map["a" := Num(1)])
    ensures OwnFields(cells, Obj(r)) == Ok(map["a" := Num(1)])
    ensures ObjC(map[]) != ObjC(OwnFields(cells, Obj(r)).value)
  {
    assert "a" in OwnFields(cells, Obj(r)).value;
  }
}
