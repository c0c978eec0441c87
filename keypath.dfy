/**
 * Key paths (lib/keypath.js): normalisation of bracket access into dot
 * access, and reading and writing through a dot-separated path.
 */
module KeyPath {
  import opened Js

  predicate IsBracket(c: char) { c == '[' || c == ']' }

  /** The first position at or after `j` that holds a bracket, or `|s|`. */
  function BracketEnd(s: string, j: nat): (e: nat)
    requires j <= |s|
    ensures j <= e <= |s|
    ensures forall k :: j <= k < e ==> !IsBracket(s[k])
    ensures e < |s| ==> IsBracket(s[e])
    decreases |s| - j
  {
    if j == |s| || IsBracket(s[j]) then j else BracketEnd(s, j + 1)
  }

  /**
   * Whether the pattern `\[([^\[\]])+\]` matches at the start of `s`, and if
   * so the position of its closing bracket.  The run of non-brackets is
   * greedy and can only be followed by the first bracket after it.
   */
  function MatchAt(s: string): (m: Option<nat>)
    ensures m.Some? ==> 2 <= m.value < |s| && s[0] == '[' && s[m.value] == ']'
  {
    if |s| > 0 && s[0] == '[' then
      var e := BracketEnd(s, 1);
      if 2 <= e < |s| && s[e] == ']' then Some(e) else None
    else None
  }

  /**
   * `_keyPathNormalize`: every match of `\[([^\[\]])+\]`, scanning left to
   * right, becomes "." followed by the capture group, which holds only the
   * last character the `+` consumed.
   */
  function Normalize(s: string): string
    decreases |s|
  {
    if s == [] then []
    else match MatchAt(s)
      case Some(e) => ['.', s[e - 1]] + Normalize(s[e + 1..])
      case None => [s[0]] + Normalize(s[1..])
  }

  /** `String.prototype.split('.')`: the pieces between the dots, always at least one. */
  function Split(s: string): (parts: seq<string>)
    ensures |parts| >= 1
    ensures forall i :: 0 <= i < |parts| ==> '.' !in parts[i]
  {
    if s == [] then [""]
    else if s[0] == '.' then [""] + Split(s[1..])
    else
      var rest := Split(s[1..]);
      [[s[0]] + rest[0]] + rest[1..]
  }

  /** The inverse of Split: the pieces joined with dots. */
  function JoinDots(parts: seq<string>): string
    requires |parts| >= 1
  {
    if |parts| == 1 then parts[0] else parts[0] + "." + JoinDots(parts[1..])
  }

  /** `dest = dest[key]` for each key in turn. */
  function Walk(cells: map<Ref, Container>, v: Value, keys: seq<string>): Result<Value>
    decreases |keys|
  {
    if keys == [] then Ok(v)
    else match GetProp(cells, v, keys[0])
      case Ok(w) => Walk(cells, w, keys[1..])
      case Err(e) => Err(e)
  }

  /** The references whose containers a walk reads. */
  function Visited(cells: map<Ref, Container>, v: Value, keys: seq<string>): set<Ref>
    decreases |keys|
  {
    if keys == [] then {}
    else
      (if v.IsComposite() then {v.ref} else {}) +
      match GetProp(cells, v, keys[0])
      case Ok(w) => Visited(cells, w, keys[1..])
      case Err(_) => {}
  }

  /** The segments of a key path. */
  function Parts(keypath: string): seq<string>
  {
    Split(Normalize(keypath))
  }

  /** `_get(obj, keypath)` */
  function Get(cells: map<Ref, Container>, obj: Value, keypath: string): Result<Value>
  {
    Walk(cells, obj, Parts(keypath))
  }

  /** The effect of `_set(obj, keypath, value)` on the heap. */
  function SetSpec(cells: map<Ref, Container>, obj: Value, keypath: string, value: Value): Result<map<Ref, Container>>
  {
    var parts := Parts(keypath);
    match Walk(cells, obj, parts[..|parts| - 1])
    case Ok(dest) => PutProp(cells, dest, parts[|parts| - 1], value)
    case Err(e) => Err(e)
  }

  /** The container `_set` writes into, when the walk succeeds. */
  function SetTarget(cells: map<Ref, Container>, obj: Value, keypath: string): Result<Value>
  {
    var parts := Parts(keypath);
    Walk(cells, obj, parts[..|parts| - 1])
  }

  /**
   * `_set(obj, keypath, value)`: walk all segments but the last, then assign
   * the last one on the container reached; returns the same `obj`.
   */
  method Set(h: Heap, obj: Value, keypath: string, value: Value) returns (r: Result<Value>)
    requires h.Valid()
    modifies h`cells
    ensures h.Valid()
    ensures SetSpec(old(h.cells), obj, keypath, value).Ok? ==>
              r == Ok(obj) && h.cells == SetSpec(old(h.cells), obj, keypath, value).value
    ensures SetSpec(old(h.cells), obj, keypath, value).Err? ==>
              r == Err(SetSpec(old(h.cells), obj, keypath, value).error) && h.cells == old(h.cells)
  {
    var parts := Split(Normalize(keypath));
    var last := parts[|parts| - 1];
    var init := parts[..|parts| - 1];
    var dest := obj;
    var i := 0;
    while i < |init|
      invariant 0 <= i <= |init|
      invariant Walk(h.cells, obj, init) == Walk(h.cells, dest, init[i..])
    {
      var step := GetProp(h.cells, dest, init[i]);
      assert init[i..][1..] == init[i + 1..];
      if step.Err? {
        return Err(step.error);
      }
      dest := step.value;
      i := i + 1;
    }
    var written := PutProp(h.cells, dest, last, value);
    if written.Err? {
      return Err(written.error);
    }
    h.cells := written.value;
    return Ok(obj);
  }

  // ---------------------------------------------------------------------
  // Normalisation

  /** A path without `[` is returned unchanged. */
  lemma {:induction false} NormalizeNoBracket(s: string)
    requires forall i :: 0 <= i < |s| ==> s[i] != '['
    ensures Normalize(s) == s
  {
    if s != [] {
      assert MatchAt(s).None?;
      NormalizeNoBracket(s[1..]);
    }
  }

  /** A prefix without `[` cannot start a match, so normalisation leaves it as it is. */
  lemma {:induction false} NormalizeBracketFreePrefix(a: string, b: string)
    requires '[' !in a
    ensures Normalize(a + b) == a + Normalize(b)
    decreases |a|
  {
    if a != [] {
      assert (a + b)[0] == a[0] && a[0] != '[';
      assert MatchAt(a + b).None?;
      assert (a + b)[1..] == a[1..] + b;
      assert '[' !in a[1..] by {
        forall i | 0 <= i < |a[1..]| ensures a[1..][i] != '[' { assert a[1..][i] == a[i + 1]; }
      }
      NormalizeBracketFreePrefix(a[1..], b);
      assert a == [a[0]] + a[1..];
    } else {
      assert a + b == b;
    }
  }

  /** A match never reaches into a suffix that starts with `[`, so normalisation splits there. */
  lemma {:induction false} NormalizeSplitBeforeBracket(a: string, b: string)
    requires |b| > 0 && b[0] == '['
    ensures Normalize(a + b) == Normalize(a) + Normalize(b)
    decreases |a|
  {
    if a != [] {
      MatchAtPrefix(a, b);
      var n := if MatchAt(a).Some? then MatchAt(a).value + 1 else 1;
      var out := NormalizeStep(a, b, n);
      NormalizeSplitBeforeBracket(a[n..], b);
      AppendAssoc(out, Normalize(a[n..]), Normalize(b));
    } else {
      assert a + b == b;
    }
  }

  /**
   * One step of `Normalize` emits the same text for `a` and for `a + b` and
   * consumes the same `n` characters, a whole match or one character.
   */
  lemma NormalizeStep(a: string, b: string, n: nat) returns (out: string)
    requires |a| > 0 && |b| > 0 && MatchAt(a + b) == MatchAt(a)
    requires n == if MatchAt(a).Some? then MatchAt(a).value + 1 else 1
    ensures n <= |a|
    ensures out == if MatchAt(a).Some? then ['.', a[n - 2]] else [a[0]]
    ensures Normalize(a) == out + Normalize(a[n..]) && Normalize(a + b) == out + Normalize(a[n..] + b)
  {
    out := if MatchAt(a).Some? then ['.', a[n - 2]] else [a[0]];
    var s := a + b;
    assert s[n..] == a[n..] + b;
    if MatchAt(a).Some? {
      assert s[n - 2] == a[n - 2];
    }
  }

  /** Appending a suffix that starts with `[` does not change whether, or where, a match at the start ends. */
  lemma MatchAtPrefix(a: string, b: string)
    requires |a| > 0 && |b| > 0 && b[0] == '['
    ensures MatchAt(a + b) == MatchAt(a)
  {
    var s := a + b;
    if a[0] == '[' {
      BracketEndPrefix(a, b, 1);
      var ea := BracketEnd(a, 1);
      if ea == |a| {
        assert s[ea] == '[';
      }
    }
  }

  lemma {:induction false} BracketEndPrefix(a: string, b: string, j: nat)
    requires j <= |a| && |b| > 0 && b[0] == '['
    ensures BracketEnd(a, j) < |a| ==> BracketEnd(a + b, j) == BracketEnd(a, j)
    ensures BracketEnd(a, j) == |a| ==> BracketEnd(a + b, j) == |a|
    decreases |a| - j
  {
    if j < |a| && !IsBracket(a[j]) {
      BracketEndPrefix(a, b, j + 1);
    }
  }

  /**
   * A bracket segment `[w]` with a non-empty bracket-free `w` becomes "."
   * followed by the LAST character of `w`: "[1]" gives ".1", "[10]" gives ".0".
   */
  lemma {:induction false} NormalizeBracketSegment(p: string, w: string, q: string)
    requires |w| > 0 && forall i :: 0 <= i < |w| ==> !IsBracket(w[i])
    ensures Normalize(p + "[" + w + "]" + q) == Normalize(p) + "." + [w[|w| - 1]] + Normalize(q)
  {
    var seg := "[" + w + "]" + q;
    var out := "." + [w[|w| - 1]];
    NormalizeSegment(w, q);
    NormalizeSplitBeforeBracket(p, seg);
    SegmentAssoc(p, w, q);
    AppendAssoc(Normalize(p), out, Normalize(q));
  }

  /** How `p[w]q` splits around its bracket segment. */
  lemma SegmentAssoc(p: string, w: string, q: string)
    ensures p + "[" + w + "]" + q == p + ("[" + w + "]" + q)
  {
  }

  /** `[w]q` with a non-empty bracket-free `w` normalises to "." then the last character of `w`, then `q` normalised. */
  lemma NormalizeSegment(w: string, q: string)
    requires |w| > 0 && forall i :: 0 <= i < |w| ==> !IsBracket(w[i])
    ensures Normalize("[" + w + "]" + q) == "." + [w[|w| - 1]] + Normalize(q)
  {
    var seg := "[" + w + "]" + q;
    assert BracketEnd(seg, 1) == |w| + 1 by {
      BracketEndRun(seg, 1, |w| + 1);
    }
    assert MatchAt(seg) == Some(|w| + 1);
    assert seg[|w| + 2..] == q;
    assert seg[|w|] == w[|w| - 1];
  }

  lemma {:induction false} BracketEndRun(s: string, j: nat, e: nat)
    requires j <= e < |s| && IsBracket(s[e])
    requires forall k :: j <= k < e ==> !IsBracket(s[k])
    ensures BracketEnd(s, j) == e
    decreases e - j
  {
    if j < e {
      BracketEndRun(s, j + 1, e);
    }
  }

  /** Between bracket-free text, `p[w]q` normalises to `p.cq` where `c` is the last character of `w`. */
  lemma NormalizePlainIndex(p: string, w: string, q: string)
    requires '[' !in p && '[' !in q
    requires |w| > 0 && forall i :: 0 <= i < |w| ==> !IsBracket(w[i])
    ensures Normalize(p + "[" + w + "]" + q) == p + "." + [w[|w| - 1]] + q
  {
    NormalizeBracketSegment(p, w, q);
    NormalizeNoBracket(p);
    NormalizeNoBracket(q);
  }

  /** The documented example: "person.books[1].title" gives "person.books.1.title". */
  lemma NormalizeExample(s: string, p: string, q: string)
    requires p == "person.books" && q == ".title" && s == p + "[1]" + q
    ensures Normalize(s) == p + ".1" + q
  {
    assert s == p + "[" + "1" + "]" + q;
    NormalizePlainIndex(p, "1", q);
  }

  /** Multi-character bracket contents collapse to their last character: "a[10]" gives "a.0". */
  lemma NormalizeKeepsLastCharacter(s: string)
    requires s == "a[10]"
    ensures Normalize(s) == "a.0"
  {
    assert s == "a" + "[" + "10" + "]" + "";
    NormalizePlainIndex("a", "10", "");
  }

  /** An empty bracket pair is not a match and is left as it is. */
  lemma NormalizeEmptyBrackets(p: string, q: string)
    requires forall i :: 0 <= i < |p| ==> p[i] != '['
    requires forall i :: 0 <= i < |q| ==> q[i] != '['
    ensures Normalize(p + "[]" + q) == p + "[]" + q
  {
    var tail := "[]" + q;
    assert p + "[]" + q == p + tail;
    NormalizeSplitBeforeBracket(p, tail);
    NormalizeNoBracket(p);
    assert tail[0] == '[' && tail[1] == ']';
    assert BracketEnd(tail, 1) == 1;
    assert MatchAt(tail).None?;
    var rest := tail[1..];
    forall i | 0 <= i < |rest| ensures rest[i] != '[' {
      if i > 0 { assert rest[i] == q[i - 1]; }
    }
    NormalizeNoBracket(rest);
    assert [tail[0]] + rest == tail;
  }

  /** Normalisation is not idempotent: a second pass can find a new match ("[[a]]"). */
  lemma NormalizeNotIdempotent(s: string)
    requires s == "[[a]]"
    ensures Normalize(s) == "[.a]"
    ensures Normalize(Normalize(s)) == ".a"
  {
    NormalizeNestedBrackets();
    NormalizeDotInBrackets();
  }

  /** Only the inner pair of "[[a]]" matches on the first pass. */
  lemma NormalizeNestedBrackets()
    ensures Normalize("[[a]]") == "[.a]"
  {
    var p, w, q := "[", "a", "]";
    NormalizeBracketSegment(p, w, q);
    NormalizeNoBracket(q);
    NormalizeLoneBracket();
    assert p + "[" + w + "]" + q == "[[a]]";
    assert Normalize(p) + "." + [w[|w| - 1]] + Normalize(q) == "[.a]";
  }

  /** A lone "[" is not a match. */
  lemma NormalizeLoneBracket()
    ensures Normalize("[") == "["
  {
    assert MatchAt("[").None?;
    assert Normalize("[") == "[" + Normalize("");
  }

  /** "[.a]" is itself a match, keeping its last character. */
  lemma NormalizeDotInBrackets()
    ensures Normalize("[.a]") == ".a"
  {
    var t := "[.a]";
    assert t == "" + "[" + ".a" + "]" + "";
    NormalizeBracketSegment("", ".a", "");
  }

  /** Quotes inside brackets are not stripped: `a["x"]` keeps the closing quote only. */
  lemma NormalizeKeepsQuote(s: string)
    requires s == "a[\"x\"]"
    ensures Normalize(s) == "a.\""
  {
    assert s == "a" + "[" + "\"x\"" + "]" + "";
    NormalizePlainIndex("a", "\"x\"", "");
  }

  // ---------------------------------------------------------------------
  // Splitting

  /** Splitting then joining gives the path back. */
  lemma {:induction false} JoinSplit(s: string)
    ensures JoinDots(Split(s)) == s
  {
    if s == [] {
    } else if s[0] == '.' {
      JoinSplit(s[1..]);
      assert s == "" + "." + s[1..];
    } else {
      JoinSplit(s[1..]);
      var rest := Split(s[1..]);
      if |rest| == 1 {
      } else {
        assert rest[1..][0] == rest[1];
        assert JoinDots(rest) == rest[0] + "." + JoinDots(rest[1..]);
        assert [s[0]] + (rest[0] + "." + JoinDots(rest[1..])) == s;
      }
    }
  }

  /** A path without a dot is a single segment. */
  lemma {:induction false} SplitNoDot(s: string)
    requires '.' !in s
    ensures Split(s) == [s]
  {
    if s != [] {
      assert s[0] != '.';
      assert '.' !in s[1..];
      assert [s[0]] + s[1..] == s;
      SplitNoDot(s[1..]);
    }
  }

  // ---------------------------------------------------------------------
  // Reading and writing

  /** The first segment of `p.rest` is `p` when `p` has no dot. */
  lemma {:induction false} SplitHead(p: string, rest: string)
    requires '.' !in p
    ensures Split(p + "." + rest)[0] == p
  {
    if p != [] {
      assert (p + "." + rest)[1..] == p[1..] + "." + rest;
      SplitHead(p[1..], rest);
      assert [p[0]] + p[1..] == p;
    }
  }

  /** The first segment of `p[w]rest`, with `p` free of dots and brackets, is `p`. */
  lemma IndexPathHead(p: string, w: string, rest: string)
    requires '.' !in p && '[' !in p
    requires |w| > 0 && forall i :: 0 <= i < |w| ==> !IsBracket(w[i])
    ensures Split(Normalize(p + "[" + w + "]" + rest))[0] == p
  {
    var tail := [w[|w| - 1]] + Normalize(rest);
    NormalizeBracketSegment(p, w, rest);
    NormalizeBracketFreePrefix(p, []);
    assert p + [] == p;
    AppendAssoc(p + ".", [w[|w| - 1]], Normalize(rest));
    SplitHead(p, tail);
  }

  /** Walking `keys + [k]` is walking `keys`, then reading `k`. */
  lemma {:induction false} WalkAppend(cells: map<Ref, Container>, v: Value, keys: seq<string>, k: string)
    ensures Walk(cells, v, keys + [k]) ==
            match Walk(cells, v, keys)
            case Ok(d) => GetProp(cells, d, k)
            case Err(e) => Err(e)
    decreases |keys|
  {
    if keys == [] {
      assert keys + [k] == [k];
    } else {
      assert (keys + [k])[1..] == keys[1..] + [k];
      match GetProp(cells, v, keys[0])
      case Ok(w) => WalkAppend(cells, w, keys[1..], k);
      case Err(_) =>
    }
  }

  /** A walk only depends on the containers it reads. */
  lemma {:induction false} WalkFrame(cells: map<Ref, Container>, cells': map<Ref, Container>, v: Value, keys: seq<string>)
    requires forall r :: r in Visited(cells, v, keys) ==> (r in cells <==> r in cells') && (r in cells ==> cells[r] == cells'[r])
    ensures Walk(cells', v, keys) == Walk(cells, v, keys)
    ensures Visited(cells', v, keys) == Visited(cells, v, keys)
    decreases |keys|
  {
    if keys != [] {
      assert GetProp(cells', v, keys[0]) == GetProp(cells, v, keys[0]);
      match GetProp(cells, v, keys[0])
      case Ok(w) => WalkFrame(cells, cells', w, keys[1..]);
      case Err(_) =>
    }
  }

  /** A successful `_set` changes one key of one container and nothing else. */
  lemma SetChangesOneEntry(cells: map<Ref, Container>, obj: Value, keypath: string, value: Value)
    requires SetSpec(cells, obj, keypath, value).Ok?
    ensures SetTarget(cells, obj, keypath).Ok?
    ensures var dest := SetTarget(cells, obj, keypath).value;
            var parts := Parts(keypath);
            && dest.IsComposite() && dest.ref in cells
            && SetSpec(cells, obj, keypath, value).value ==
                 cells[dest.ref := WriteCell(cells[dest.ref], parts[|parts| - 1], value).value]
  {
  }

  /**
   * Round trip: after a successful `_set`, `_get` on the same path gives the
   * value written, provided the walk to the container does not pass through
   * that container itself (with such a cycle the write can redirect the walk).
   */
  lemma {:induction false} GetAfterSet(cells: map<Ref, Container>, obj: Value, keypath: string, value: Value)
    requires SetSpec(cells, obj, keypath, value).Ok?
    requires var parts := Parts(keypath);
             SetTarget(cells, obj, keypath).Ok? &&
             SetTarget(cells, obj, keypath).value.ref !in Visited(cells, obj, parts[..|parts| - 1])
    ensures Get(SetSpec(cells, obj, keypath, value).value, obj, keypath) == Ok(value)
  {
    var parts := Parts(keypath);
    var init, last := parts[..|parts| - 1], parts[|parts| - 1];
    var cells' := SetSpec(cells, obj, keypath, value).value;
    var dest := SetTarget(cells, obj, keypath).value;
    WalkFrame(cells, cells', obj, init);
    assert init + [last] == parts;
    WalkAppend(cells', obj, init, last);
    ReadAfterWrite(cells[dest.ref], last, value);
  }

  /** For a path of one segment `_set` writes `obj[path]` and `_get` reads it back. */
  lemma SetSingleSegment(cells: map<Ref, Container>, obj: Value, keypath: string, value: Value)
    requires '.' !in keypath && '[' !in keypath
    ensures SetSpec(cells, obj, keypath, value) == PutProp(cells, obj, keypath, value)
    ensures Get(cells, obj, keypath) == GetProp(cells, obj, keypath)
    ensures SetSpec(cells, obj, keypath, value).Ok? ==>
              Get(SetSpec(cells, obj, keypath, value).value, obj, keypath) == Ok(value)
  {
    NormalizeNoBracket(keypath);
    SplitNoDot(keypath);
    assert Parts(keypath) == [keypath];
    assert [keypath][1..] == [];
    assert [keypath][..0] == [];
    match GetProp(cells, obj, keypath) {
      case Ok(w) => assert Walk(cells, w, []) == Ok(w);
      case Err(_) =>
    }
    if SetSpec(cells, obj, keypath, value).Ok? {
      GetAfterSet(cells, obj, keypath, value);
    }
  }

  /** A walk that reaches undefined before its last key throws at the next read. */
  lemma {:induction false} WalkUndefinedPrefix(cells: map<Ref, Container>, v: Value, keys: seq<string>, k: nat)
    requires k < |keys|
    requires Walk(cells, v, keys[..k]) == Ok(Undefined)
    ensures Walk(cells, v, keys) == Err(TypeError)
    decreases k
  {
    if k == 0 {
      assert keys[..0] == [];
    } else {
      assert keys[..k][0] == keys[0];
      assert keys[..k][1..] == keys[1..][..k - 1];
      match GetProp(cells, v, keys[0])
      case Ok(w) => WalkUndefinedPrefix(cells, w, keys[1..], k - 1);
      case Err(_) =>
    }
  }

  /**
   * An undefined value reached after the first k segments, k short of the
   * last one, throws in both `_get` and `_set`; it is not read as undefined.
   */
  lemma UndefinedIntermediateThrows(cells: map<Ref, Container>, obj: Value, keypath: string, value: Value, k: nat)
    requires k < |Parts(keypath)|
    requires Walk(cells, obj, Parts(keypath)[..k]) == Ok(Undefined)
    ensures Get(cells, obj, keypath) == Err(TypeError)
    ensures SetSpec(cells, obj, keypath, value) == Err(TypeError)
  {
    var parts := Parts(keypath);
    WalkUndefinedPrefix(cells, obj, parts, k);
    var init := parts[..|parts| - 1];
    if k < |init| {
      assert init[..k] == parts[..k];
      WalkUndefinedPrefix(cells, obj, init, k);
    } else {
      assert init == parts[..k];
    }
  }
}
