/**
 * The array mutation hook of lib/array-hook.js.
 *
 * Installing the hook gives an array own, non-enumerable proxies for eight
 * mutating methods.  Each proxy captured the method it replaces and reads
 * the closure variable `hook` of the installing call; the `__hook__` setter
 * attached to a proxy reassigns that variable.  In the heap model a proxy is
 * `Proxy(native, cell)` and `closures[cell]` is the variable's current hook.
 * `$util.def(o, k, d)` is read as `Object.defineProperty(o, k, d)`.
 */
module ArrayHook {
  import opened Js

  /** The methods the hook replaces, in installation order. */
  const HookMethods: seq<string> := ["splice", "push", "pop", "shift", "unshift", "reverse", "sort", "$concat"]

  /** The own method properties of an array. */
  function OwnMethods(methods: map<Ref, map<string, Method>>, arr: Ref): map<string, Method>
  {
    if arr in methods then methods[arr] else map[]
  }

  /** `arr[m] && arr[m][hookFlag]`: the method is already a hook proxy. */
  predicate IsHooked(own: map<string, Method>, m: string)
  {
    m in own && own[m].Proxy?
  }

  /** `arr[m] || attachMethods[m]`: an own plain method, else the array built-in, else the attached `$concat`. */
  function NativeOf(own: map<string, Method>, m: string): Impl
  {
    if m in own && own[m].Plain? then own[m].impl
    else if m == "$concat" then AttachedConcat
    else Native(m)
  }

  /** The own methods after installing with closure cell `cell`, once the methods in `done` are processed. */
  function InstalledOwn(own: map<string, Method>, cell: nat, done: seq<string>): map<string, Method>
  {
    map m | m in own.Keys + (set d | d in done) :: if m in done && !IsHooked(own, m) then Proxy(NativeOf(own, m), cell) else own[m]
  }

  /** A call `arr[m](...args)` made through a proxy: the hook invoked with `(arr, m, nativeMethod, args)`. */
  datatype HookCall = HookCall(hook: HookId, self: Ref, name: string, native: Impl, args: seq<Value>)

  /** What calling the own method `m` of `arr` does, when it is a proxy. */
  function Invoke(methods: map<Ref, map<string, Method>>, closures: seq<HookId>, arr: Ref, m: string, args: seq<Value>): Option<HookCall>
  {
    var own := OwnMethods(methods, arr);
    if IsHooked(own, m) && own[m].cell < |closures| then
      Some(HookCall(closures[own[m].cell], arr, m, own[m].native, args))
    else None
  }

  lemma HookMethodsDistinct()
    ensures forall i, j :: 0 <= i < j < |HookMethods| ==> HookMethods[i] != HookMethods[j]
  {
  }

  /**
   * One method of the installer's loop: an existing proxy gets its closure
   * cell reset to `hook` (`arr[m][hookFlag](hook)`); otherwise a new proxy
   * capturing `arr[m] || attachMethods[m]` is defined, reading cell `cell`.
   */
  function InstallStep(own: map<string, Method>, closures: seq<HookId>, cell: nat, hook: HookId, m: string): (map<string, Method>, seq<HookId>)
  {
    if IsHooked(own, m) then
      (own, if own[m].cell < |closures| then closures[own[m].cell := hook] else closures)
    else
      (own[m := Proxy(NativeOf(own, m), cell)], closures)
  }

  /** The installer's loop over the methods in `done`, in order. */
  function InstallFold(own: map<string, Method>, closures: seq<HookId>, cell: nat, hook: HookId, done: seq<string>): (map<string, Method>, seq<HookId>)
  {
    if done == [] then (own, closures)
    else
      var before := InstallFold(own, closures, cell, hook, done[..|done| - 1]);
      InstallStep(before.0, before.1, cell, hook, done[|done| - 1])
  }

  /** A whole installation: a fresh closure cell holding `hook`, then the loop over the eight methods. */
  function InstallSpec(own: map<string, Method>, closures: seq<HookId>, hook: HookId): (map<string, Method>, seq<HookId>)
  {
    InstallFold(own, closures + [hook], |closures|, hook, HookMethods)
  }

  /**
   * The exported installer `(arr, hook)`: for each hook method, reset the
   * hook of an existing proxy, or define a new proxy capturing the current
   * method.  The call's own `hook` variable is a fresh closure cell.
   */
  method Install(h: Heap, arr: Ref, hook: HookId)
    requires h.Valid()
    modifies h`methods, h`closures
    ensures h.Valid()
    ensures h.methods == old(h.methods)[arr := InstallSpec(OwnMethods(old(h.methods), arr), old(h.closures), hook).0]
    ensures h.closures == InstallSpec(OwnMethods(old(h.methods), arr), old(h.closures), hook).1
  {
    var cell := |h.closures|;
    var closures := h.closures + [hook];
    var own := OwnMethods(h.methods, arr);
    ghost var own0, closures0 := own, closures;
    var i := 0;
    while i < |HookMethods|
      invariant 0 <= i <= |HookMethods|
      invariant (own, closures) == InstallFold(own0, closures0, cell, hook, HookMethods[..i])
      invariant unchanged(h)
    {
      var m := HookMethods[i];
      InstallFoldNext(own0, closures0, cell, hook, HookMethods, i);
      if m in own && own[m].Proxy? {
        // `arr[m][hookFlag](hook)`
        if own[m].cell < |closures| {
          closures := closures[own[m].cell := hook];
        }
      } else {
        var native := if m in own && own[m].Plain? then own[m].impl else if m == "$concat" then AttachedConcat else Native(m);
        own := own[m := Proxy(native, cell)];
      }
      i := i + 1;
    }
    assert HookMethods[..i] == HookMethods;
    assert (own, closures) == InstallSpec(OwnMethods(old(h.methods), arr), old(h.closures), hook);
    h.methods := h.methods[arr := own];
    h.closures := closures;
    InstallKeepsBound(h, old(h.methods), old(h.closures), arr, hook);
  }

  lemma InstallFoldNext(own: map<string, Method>, closures: seq<HookId>, cell: nat, hook: HookId, done: seq<string>, i: nat)
    requires i < |done|
    ensures var before := InstallFold(own, closures, cell, hook, done[..i]);
            InstallFold(own, closures, cell, hook, done[..i + 1]) == InstallStep(before.0, before.1, cell, hook, done[i])
  {
    assert done[..i + 1][..i] == done[..i];
  }

  lemma InstallKeepsBound(h: Heap, methods: map<Ref, map<string, Method>>, closures: seq<HookId>, arr: Ref, hook: HookId)
    requires ProxiesBound(methods, |closures|)
    ensures var after := InstallSpec(OwnMethods(methods, arr), closures, hook);
            ProxiesBound(methods[arr := after.0], |after.1|)
  {
    var own := OwnMethods(methods, arr);
    InstallFoldOwn(own, closures + [hook], |closures|, hook, HookMethods);
    InstallFoldClosures(own, closures + [hook], |closures|, hook, HookMethods);
    var after := InstallSpec(own, closures, hook);
    var ms: map<Ref, map<string, Method>> := methods[arr := after.0];
    forall r: Ref, m: string | r in ms && m in ms[r] && ms[r][m].Proxy?
      ensures ms[r][m].cell < |after.1|
    {
      if r == arr && !(m in own && own[m] == after.0[m]) {
        assert m in HookMethods;
      }
    }
  }
  /** The loop's effect on the own methods, stated without the loop: see `InstalledOwn`. */
  lemma {:induction false} InstallFoldOwn(own: map<string, Method>, closures: seq<HookId>, cell: nat, hook: HookId, done: seq<string>)
    requires forall i, j :: 0 <= i < j < |done| ==> done[i] != done[j]
    ensures InstallFold(own, closures, cell, hook, done).0 == InstalledOwn(own, cell, done)
  {
    if done == [] {
      assert InstalledOwn(own, cell, done) == own;
    } else {
      var init := done[..|done| - 1];
      var m := done[|done| - 1];
      InstallFoldOwn(own, closures, cell, hook, init);
      assert m !in init;
      var before := InstalledOwn(own, cell, init);
      var after := InstallFold(own, closures, cell, hook, done).0;
      var want := InstalledOwn(own, cell, done);
      assert m in before <==> m in own;
      assert m in own ==> before[m] == own[m];
      assert after == InstallStep(before, InstallFold(own, closures, cell, hook, init).1, cell, hook, m).0;
      assert forall d :: d in done <==> d in init || d == m;
      assert after.Keys == want.Keys;
      forall k | k in after
        ensures after[k] == want[k]
      {
        if k != m {
          assert after[k] == before[k];
        }
      }
    }
  }

  /**
   * The loop's effect on the closure cells: their number is unchanged, each
   * cell of a proxy it met now holds `hook`, and every other cell is untouched.
   */
  lemma {:induction false} InstallFoldClosures(own: map<string, Method>, closures: seq<HookId>, cell: nat, hook: HookId, done: seq<string>)
    requires forall i, j :: 0 <= i < j < |done| ==> done[i] != done[j]
    ensures |InstallFold(own, closures, cell, hook, done).1| == |closures|
    ensures forall m :: m in done && IsHooked(own, m) && own[m].cell < |closures| ==>
              InstallFold(own, closures, cell, hook, done).1[own[m].cell] == hook
    ensures forall i :: 0 <= i < |closures| && (forall m :: m in done && IsHooked(own, m) ==> own[m].cell != i) ==>
              InstallFold(own, closures, cell, hook, done).1[i] == closures[i]
  {
    if done != [] {
      var init := done[..|done| - 1];
      var m := done[|done| - 1];
      InstallFoldClosures(own, closures, cell, hook, init);
      InstallFoldOwn(own, closures, cell, hook, init);
      assert m !in init;
      var before := InstalledOwn(own, cell, init);
      assert IsHooked(before, m) <==> IsHooked(own, m);
      assert IsHooked(own, m) ==> before[m] == own[m];
      assert forall d :: d in done <==> d in init || d == m;
    }
  }

  // ---------------------------------------------------------------------
  // Properties of installation

  /** Installing gives exactly the eight hook methods a proxy and leaves every other own property as it was. */
  lemma InstallReplacesExactly(own: map<string, Method>, closures: seq<HookId>, hook: HookId, m: string)
    ensures m in HookMethods ==> IsHooked(InstallSpec(own, closures, hook).0, m)
    ensures m !in HookMethods ==> (m in InstallSpec(own, closures, hook).0 <==> m in own)
    ensures m !in HookMethods && m in own ==> InstallSpec(own, closures, hook).0[m] == own[m]
  {
    HookMethodsDistinct();
    InstallFoldOwn(own, closures + [hook], |closures|, hook, HookMethods);
  }

  /**
   * After installing, calling any hook method invokes the installed hook once,
   * with the array, the method name, the captured method and the arguments.
   */
  lemma InvokeAfterInstall(methods: map<Ref, map<string, Method>>, closures: seq<HookId>, arr: Ref, hook: HookId, m: string, args: seq<Value>)
    requires ProxiesBound(methods, |closures|)
    requires m in HookMethods
    ensures var own := OwnMethods(methods, arr);
            var after := InstallSpec(own, closures, hook);
            Invoke(methods[arr := after.0], after.1, arr, m, args) ==
              Some(HookCall(hook, arr, m, if IsHooked(own, m) then own[m].native else NativeOf(own, m), args))
  {
    var own := OwnMethods(methods, arr);
    HookMethodsDistinct();
    InstallFoldOwn(own, closures + [hook], |closures|, hook, HookMethods);
    InstallFoldClosures(own, closures + [hook], |closures|, hook, HookMethods);
    if IsHooked(own, m) {
      assert own[m].cell < |closures| by {
        assert arr in methods && m in methods[arr] && methods[arr][m].Proxy?;
      }
    } else {
      forall k | k in HookMethods && IsHooked(own, k)
        ensures own[k].cell != |closures|
      {
        assert arr in methods && k in methods[arr] && methods[arr][k].Proxy?;
      }
    }
  }

  /** Re-hooking a hooked array defines no second wrapper: the proxies and their captured methods stay. */
  lemma RehookKeepsProxies(own: map<string, Method>, closures: seq<HookId>, hook: HookId)
    requires forall m :: m in HookMethods ==> IsHooked(own, m)
    ensures InstallSpec(own, closures, hook).0 == own
  {
    HookMethodsDistinct();
    InstallFoldOwn(own, closures + [hook], |closures|, hook, HookMethods);
  }

  /** Re-hooking points every existing proxy at the new hook, with its captured method unchanged. */
  lemma RehookSwapsHook(methods: map<Ref, map<string, Method>>, closures: seq<HookId>, arr: Ref, hook: HookId, m: string, args: seq<Value>)
    requires ProxiesBound(methods, |closures|)
    requires forall k :: k in HookMethods ==> IsHooked(OwnMethods(methods, arr), k)
    requires m in HookMethods
    ensures var own := OwnMethods(methods, arr);
            var after := InstallSpec(own, closures, hook);
            && IsHooked(own, m)
            && Invoke(methods[arr := after.0], after.1, arr, m, args) == Some(HookCall(hook, arr, m, own[m].native, args))
  {
    InvokeAfterInstall(methods, closures, arr, hook, m, args);
  }

  /** An array without its own `$concat` gets the attached implementation behind the proxy. */
  lemma ConcatCapturesAttached(own: map<string, Method>, closures: seq<HookId>, hook: HookId)
    requires "$concat" !in own
    ensures InstallSpec(own, closures, hook).0["$concat"] == Proxy(AttachedConcat, |closures|)
  {
    HookMethodsDistinct();
    InstallFoldOwn(own, closures + [hook], |closures|, hook, HookMethods);
  }

  // ---------------------------------------------------------------------
  // $concat

  /** The items one argument contributes: an array's items, the array's current items for itself, else the value. */
  function Spread(cells: map<Ref, Container>, arr: Ref, cur: seq<Value>, a: Value): seq<Value>
  {
    if TypeOf(a) == ArrayTag then
      if a.ref == arr then cur
      else if a.ref in cells && cells[a.ref].ArrC? then cells[a.ref].items
      else []
    else [a]
  }

  /** The items of `arr` after `$concat` processed `args` in order, starting from `cur`. */
  function ConcatFold(cells: map<Ref, Container>, arr: Ref, cur: seq<Value>, args: seq<Value>): seq<Value>
  {
    if args == [] then cur
    else
      var before := ConcatFold(cells, arr, cur, args[..|args| - 1]);
      before + Spread(cells, arr, before, args[|args| - 1])
  }

  /** `attachMethods.$concat`: push each argument, spreading arrays one level; returns the same array. */
  method Concat(h: Heap, arr: Ref, args: seq<Value>) returns (r: Ref)
    requires arr in h.cells && h.cells[arr].ArrC?
    modifies h`cells
    ensures r == arr
    ensures h.cells == old(h.cells)[arr := ArrC(ConcatFold(old(h.cells), arr, old(h.cells)[arr].items, args))]
  {
    ghost var start := h.cells[arr].items;
    var i := 0;
    while i < |args|
      invariant 0 <= i <= |args|
      invariant h.cells == old(h.cells)[arr := ArrC(ConcatFold(old(h.cells), arr, start, args[..i]))]
    {
      var a := args[i];
      ghost var base := h.cells[arr].items;
      assert args[..i + 1][..i] == args[..i];
      if TypeOf(a) == ArrayTag {
        var src := if a.ref in h.cells && h.cells[a.ref].ArrC? then h.cells[a.ref].items else [];
        assert src == Spread(old(h.cells), arr, base, a);
        assert h.cells == old(h.cells)[arr := ArrC(base + src[..0])] by {
          assert base + src[..0] == base;
        }
        var j := 0;
        while j < |src|
          invariant 0 <= j <= |src|
          invariant h.cells == old(h.cells)[arr := ArrC(base + src[..j])]
        {
          // `_push.call(arr, item)`
          h.cells := h.cells[arr := ArrC(h.cells[arr].items + [src[j]])];
          assert base + src[..j + 1] == base + src[..j] + [src[j]];
          j := j + 1;
        }
        assert src[..j] == src;
      } else {
        h.cells := h.cells[arr := ArrC(h.cells[arr].items + [a])];
      }
      i := i + 1;
    }
    assert args[..i] == args;
    return arr;
  }

  /** The items an argument contributes when it is not the array itself. */
  function Piece(cells: map<Ref, Container>, a: Value): seq<Value>
  {
    if a.Arr? then (if a.ref in cells && cells[a.ref].ArrC? then cells[a.ref].items else []) else [a]
  }

  /** One-level flattening of an argument list, left to right. */
  function Flatten(cells: map<Ref, Container>, args: seq<Value>): seq<Value>
  {
    if args == [] then [] else Piece(cells, args[0]) + Flatten(cells, args[1..])
  }

  /** How many items an argument contributes: its length for an array, one otherwise. */
  function Width(cells: map<Ref, Container>, a: Value): nat
  {
    if a.Arr? then (if a.ref in cells && cells[a.ref].ArrC? then |cells[a.ref].items| else 0) else 1
  }

  function TotalWidth(cells: map<Ref, Container>, args: seq<Value>): nat
  {
    if args == [] then 0 else TotalWidth(cells, args[..|args| - 1]) + Width(cells, args[|args| - 1])
  }

  lemma {:induction false} FlattenSnoc(cells: map<Ref, Container>, args: seq<Value>, a: Value)
    ensures Flatten(cells, args + [a]) == Flatten(cells, args) + Piece(cells, a)
  {
    if args == [] {
      assert [a][1..] == [];
    } else {
      assert (args + [a])[1..] == args[1..] + [a];
      FlattenSnoc(cells, args[1..], a);
    }
  }

  /** `$concat` never touches the items already in the array. */
  lemma {:induction false} ConcatKeepsPrefix(cells: map<Ref, Container>, arr: Ref, cur: seq<Value>, args: seq<Value>)
    ensures |cur| <= |ConcatFold(cells, arr, cur, args)|
    ensures ConcatFold(cells, arr, cur, args)[..|cur|] == cur
  {
    if args != [] {
      ConcatKeepsPrefix(cells, arr, cur, args[..|args| - 1]);
    }
  }

  /**
   * When the array is not among its own arguments, `$concat` appends the
   * one-level flattening of the arguments, and the length grows by each
   * array argument's length plus one per other argument.
   */
  lemma {:induction false} ConcatFlattens(cells: map<Ref, Container>, arr: Ref, cur: seq<Value>, args: seq<Value>)
    requires Arr(arr) !in args
    ensures ConcatFold(cells, arr, cur, args) == cur + Flatten(cells, args)
    ensures |ConcatFold(cells, arr, cur, args)| == |cur| + TotalWidth(cells, args)
  {
    if args == [] {
      assert cur + [] == cur;
    } else {
      var init := args[..|args| - 1];
      var last := args[|args| - 1];
      assert Arr(arr) !in init;
      ConcatFlattens(cells, arr, cur, init);
      FlattenSnoc(cells, init, last);
      assert args == init + [last];
      assert Spread(cells, arr, ConcatFold(cells, arr, cur, init), last) == Piece(cells, last);
    }
  }

  /** `[1, 2].$concat(3, [4])` gives `[1, 2, 3, 4]`. */
  lemma ConcatExample(cells: map<Ref, Container>, arr: Ref, four: Ref, args: seq<Value>)
    requires arr != four && four in cells && cells[four] == ArrC([Num(4)])
    requires args == [Num(3), Arr(four)]
    ensures ConcatFold(cells, arr, [Num(1), Num(2)], args) == [Num(1), Num(2), Num(3), Num(4)]
  {
    assert args[..1] == [Num(3)];
    assert ConcatFold(cells, arr, [Num(1), Num(2)], args[..1]) == [Num(1), Num(2), Num(3)];
  }

  /** `arr.$concat(arr)` appends the array's own items once: the snapshot is the items before the call. */
  lemma ConcatSelf(cells: map<Ref, Container>, arr: Ref, cur: seq<Value>)
    ensures ConcatFold(cells, arr, cur, [Arr(arr)]) == cur + cur
  {
    assert [Arr(arr)][..0] == [];
  }
}
