/** Reading and writing a value at a dotted path such as `hero.title` or
    `journal.0.body` in the page's nested content record (`getByPath`,
    `setByPath`). The record is a tree whose containers are string-keyed. */
module ContentPath {
  import opened JsNumber

  /** A JSON-like value. Arrays are keyed by the same strings JavaScript uses
      for their indices. */
  datatype Value =
    | Undefined
    | Null
    | Bool(b: bool)
    | Num(n: real)
    | Str(s: string)
    | Obj(fields: map<string, Value>)
    | Arr(items: map<string, Value>)

  predicate IsContainer(v: Value) {
    v.Obj? || v.Arr?
  }

  /** `v[key]`: the child stored under the key of a container; undefined
      for a missing key and for anything that is not a container. */
  function Lookup(v: Value, key: string): Value {
    match v
    case Obj(m) => if key in m then m[key] else Undefined
    case Arr(m) => if key in m then m[key] else Undefined
    case _ => Undefined
  }

  /** `v[key] = child` on a container. */
  function Put(v: Value, key: string, child: Value): (r: Value)
    requires IsContainer(v)
    ensures r.Obj? == v.Obj? && r.Arr? == v.Arr?
    ensures Lookup(r, key) == child
    ensures forall k :: k != key ==> Lookup(r, k) == Lookup(v, k)
  {
    match v
    case Obj(m) => Obj(m[key := child])
    case Arr(m) => Arr(m[key := child])
  }

  // ---------------------------------------------------------------------
  // `path.split('.')` and its inverse

  /** `s.split('.')`: the pieces between the dots, at least one. */
  function Split(s: string): (parts: seq<string>)
    ensures |parts| >= 1
    ensures forall i :: 0 <= i < |parts| ==> '.' !in parts[i]
  {
    if s == [] then [""]
    else
      var rest := Split(s[1..]);
      if s[0] == '.' then [""] + rest else [[s[0]] + rest[0]] + rest[1..]
  }

  /** `parts.join('.')`. */
  function Join(parts: seq<string>): string
    requires |parts| >= 1
  {
    if |parts| == 1 then parts[0] else parts[0] + "." + Join(parts[1..])
  }

  /** Joining the pieces of a split path gives the path back. */
  lemma {:induction false} JoinSplit(s: string)
    ensures Join(Split(s)) == s
  {
    if s != [] {
      JoinSplit(s[1..]);
      var rest := Split(s[1..]);
      if s[0] != '.' {
        var parts := Split(s);
        assert parts[1..] == rest[1..];
        if |rest| > 1 {
          assert Join(rest) == rest[0] + "." + Join(rest[1..]);
        }
      }
    }
  }

  /** Splitting a joined list of dot-free keys gives the keys back. */
  lemma {:induction false} SplitJoin(parts: seq<string>)
    requires |parts| >= 1
    requires forall i :: 0 <= i < |parts| ==> '.' !in parts[i]
    ensures Split(Join(parts)) == parts
  {
    if |parts| == 1 {
      SplitDotFree(parts[0], "", [""]);
      assert parts[0] + "" == parts[0];
    } else {
      SplitJoin(parts[1..]);
      var tail := "." + Join(parts[1..]);
      assert tail[0] == '.' && tail[1..] == Join(parts[1..]);
      assert Split(tail) == [""] + parts[1..];
      SplitDotFree(parts[0], tail, [""] + parts[1..]);
      assert Join(parts) == parts[0] + tail;
      assert parts[0] + "" == parts[0];
      assert parts == [parts[0]] + parts[1..];
    }
  }

  /** A dot-free prefix glues onto the first piece of what follows it. */
  lemma {:induction false} SplitDotFree(key: string, rest: string, pieces: seq<string>)
    requires '.' !in key
    requires pieces == Split(rest)
    ensures Split(key + rest) == [key + pieces[0]] + pieces[1..]
  {
    if key != [] {
      SplitDotFree(key[1..], rest, pieces);
      assert (key + rest)[1..] == key[1..] + rest;
      assert [key[0]] + (key[1..] + pieces[0]) == key + pieces[0];
    } else {
      assert key + rest == rest;
      assert key + pieces[0] == pieces[0];
      assert [pieces[0]] + pieces[1..] == pieces;
    }
  }

  // ---------------------------------------------------------------------
  // getByPath

  /** One step of the `reduce` in `getByPath`: undefined and null
      short-circuit to undefined, anything else is indexed. */
  function Step(acc: Value, key: string): Value {
    if acc == Undefined || acc == Null then Undefined else Lookup(acc, key)
  }

  function GetKeys(v: Value, keys: seq<string>): Value
    decreases |keys|
  {
    if keys == [] then v else GetKeys(Step(v, keys[0]), keys[1..])
  }

  /** `getByPath(obj, path)`: a record that is undefined or null reads as
      undefined whatever the path, since the path has at least one key. */
  function GetByPath(obj: Value, path: string): (r: Value)
    ensures obj == Undefined || obj == Null ==> r == Undefined
  {
    var keys := Split(path);
    NothingBelowMissing(obj, keys);
    GetKeys(obj, keys)
  }

  /** Below undefined or null, any non-empty list of keys reads as undefined. */
  lemma NothingBelowMissing(v: Value, keys: seq<string>)
    ensures (v == Undefined || v == Null) && keys != [] ==> GetKeys(v, keys) == Undefined
  {
    if (v == Undefined || v == Null) && keys != [] {
      ReadThroughMissing(v, keys);
    }
  }

  /** Reading through undefined or null yields undefined, however many keys follow. */
  lemma {:induction false} ReadThroughMissing(v: Value, keys: seq<string>)
    requires v == Undefined || v == Null
    ensures GetKeys(v, keys) == (if keys == [] then v else Undefined)
    decreases |keys|
  {
    if keys != [] {
      ReadThroughMissing(Undefined, keys[1..]);
    }
  }

  /** Reading keys in two parts: first a prefix, then the rest from where
      the prefix led. */
  lemma {:induction false} GetKeysAppend(v: Value, a: seq<string>, b: seq<string>)
    ensures GetKeys(v, a + b) == GetKeys(GetKeys(v, a), b)
    decreases |a|
  {
    if a == [] {
      assert a + b == b;
    } else {
      assert (a + b)[0] == a[0] && (a + b)[1..] == a[1..] + b;
      GetKeysAppend(Step(v, a[0]), a[1..], b);
    }
  }

  /** Once the read along a path reaches undefined or null, at any key
      (a missing key or a null value), the whole path reads as undefined. */
  lemma MissingAnywhere(obj: Value, path: string, j: nat)
    requires j < |Split(path)|
    requires var at := GetKeys(obj, Split(path)[..j]); at == Undefined || at == Null
    ensures GetByPath(obj, path) == Undefined
  {
    var keys := Split(path);
    assert keys == keys[..j] + keys[j..];
    GetKeysAppend(obj, keys[..j], keys[j..]);
    ReadThroughMissing(GetKeys(obj, keys[..j]), keys[j..]);
  }

  /** A path whose first key is missing from the record reads as undefined. */
  lemma MissingKeyReadsUndefined(obj: Value, path: string)
    requires IsContainer(obj) && Lookup(obj, Split(path)[0]) == Undefined
    ensures GetByPath(obj, path) == Undefined
  {
    ReadThroughMissing(Undefined, Split(path)[1..]);
  }

  // ---------------------------------------------------------------------
  // setByPath

  /** `!Number.isNaN(Number(key))` for each key of a path, worked out once so
      that the walk below only needs the answer. */
  function NumericFlags(keys: seq<string>): (flags: seq<bool>)
    ensures |flags| == |keys|
    ensures forall i :: 0 <= i < |keys| ==> flags[i] == IsNumericKey(keys[i])
  {
    seq(|keys|, i requires 0 <= i < |keys| => IsNumericKey(keys[i]))
  }

  /** The container created for a missing key: an array when the key
      converts to a number, a plain object otherwise. */
  function Fresh(numeric: bool): (c: Value)
    ensures IsContainer(c) && (c.Arr? <==> numeric)
  {
    if numeric then Arr(map[]) else Obj(map[])
  }

  /** The record is a container, and along the keys every intermediate that
      exists is a container too. */
  predicate Writable(v: Value, keys: seq<string>)
    requires |keys| >= 1
    decreases |keys|
  {
    IsContainer(v) &&
    (|keys| > 1 ==>
      var child := Lookup(v, keys[0]);
      child == Undefined || Writable(child, keys[1..]))
  }

  /** One step of the walk in `setByPath`: the child under the key,
      created first when it is undefined. */
  function Descend(v: Value, key: string, numeric: bool): (c: Value)
    ensures Lookup(v, key) == Undefined ==> c == Fresh(numeric)
    ensures Lookup(v, key) != Undefined ==> c == Lookup(v, key)
  {
    var child := Lookup(v, key);
    if child == Undefined then Fresh(numeric) else child
  }

  /** A container reached by the walk is writable along the remaining keys. */
  lemma DescendWritable(v: Value, keys: seq<string>, numeric: bool)
    requires |keys| >= 2 && Writable(v, keys)
    ensures Writable(Descend(v, keys[0], numeric), keys[1..])
  {
  }

  /** The value at the end of the keys replaced, missing intermediates
      created with the kinds the flags give. */
  function SetKeys(v: Value, keys: seq<string>, flags: seq<bool>, value: Value): (r: Value)
    requires |keys| >= 1 && |flags| == |keys| && Writable(v, keys)
    ensures r.Obj? == v.Obj? && r.Arr? == v.Arr?
    decreases |keys|
  {
    if |keys| == 1 then Put(v, keys[0], value)
    else Put(v, keys[0], SetKeys(Descend(v, keys[0], flags[0]), keys[1..], flags[1..], value))
  }

  /** `setByPath(obj, path, value)`, as the updated record: a record of the
      same kind in which the path reads back the value written. */
  function SetByPath(obj: Value, path: string, value: Value): (r: Value)
    requires Writable(obj, Split(path))
    ensures r.Obj? == obj.Obj? && r.Arr? == obj.Arr?
    ensures GetByPath(r, path) == value
  {
    var keys := Split(path);
    var flags := NumericFlags(keys);
    GetAfterSetKeys(obj, keys, flags, value);
    SetKeys(obj, keys, flags, value)
  }

  /** One level of `SetKeys`: the first key receives the write into the
      (possibly fresh) child. */
  lemma SetKeysUnfold(v: Value, keys: seq<string>, flags: seq<bool>, value: Value)
    requires |keys| >= 2 && |flags| == |keys| && Writable(v, keys)
    ensures Writable(Descend(v, keys[0], flags[0]), keys[1..])
    ensures SetKeys(v, keys, flags, value) ==
            Put(v, keys[0], SetKeys(Descend(v, keys[0], flags[0]), keys[1..], flags[1..], value))
    ensures Step(SetKeys(v, keys, flags, value), keys[0]) ==
            SetKeys(Descend(v, keys[0], flags[0]), keys[1..], flags[1..], value)
  {
    DescendWritable(v, keys, flags[0]);
    var r := SetKeys(v, keys, flags, value);
    assert r == Put(v, keys[0], SetKeys(Descend(v, keys[0], flags[0]), keys[1..], flags[1..], value));
    assert IsContainer(r);
  }

  /** After a write, the path reads back the value written. */
  lemma {:induction false} GetAfterSetKeys(v: Value, keys: seq<string>, flags: seq<bool>, value: Value)
    requires |keys| >= 1 && |flags| == |keys| && Writable(v, keys)
    ensures GetKeys(SetKeys(v, keys, flags, value), keys) == value
    decreases |keys|
  {
    var v' := SetKeys(v, keys, flags, value);
    if |keys| == 1 {
      assert Step(v', keys[0]) == value;
      assert GetKeys(v', keys) == GetKeys(value, []);
    } else {
      var next := Descend(v, keys[0], flags[0]);
      SetKeysUnfold(v, keys, flags, value);
      GetAfterSetKeys(next, keys[1..], flags[1..], value);
      GetKeysCons(v', keys);
    }
  }

  predicate IsPrefix(a: seq<string>, b: seq<string>) {
    |a| <= |b| && b[..|a|] == a
  }

  /** A path that is neither a prefix nor an extension of the written one
      reads as before the write. */
  lemma {:induction false} SetKeysLeavesOthers(v: Value, keys: seq<string>, flags: seq<bool>, value: Value, other: seq<string>)
    requires |keys| >= 1 && |flags| == |keys| && Writable(v, keys)
    requires !IsPrefix(other, keys) && !IsPrefix(keys, other)
    ensures GetKeys(SetKeys(v, keys, flags, value), other) == GetKeys(v, other)
    decreases |keys|, 1
  {
    assert other != [] by { assert IsPrefix([], keys); }
    if other[0] != keys[0] {
      OtherBranchUntouched(v, keys, flags, value, other);
    } else {
      SameBranchOthers(v, keys, flags, value, other);
    }
  }

  /** A path that leaves the record under a different first key is untouched. */
  lemma OtherBranchUntouched(v: Value, keys: seq<string>, flags: seq<bool>, value: Value, other: seq<string>)
    requires |keys| >= 1 && |flags| == |keys| && Writable(v, keys)
    requires other != [] && other[0] != keys[0]
    ensures GetKeys(SetKeys(v, keys, flags, value), other) == GetKeys(v, other)
  {
    var v' := SetKeys(v, keys, flags, value);
    if |keys| > 1 {
      SetKeysUnfold(v, keys, flags, value);
    }
    assert Lookup(v', other[0]) == Lookup(v, other[0]);
    GetKeysCons(v, other);
    GetKeysCons(v', other);
  }

  /** A path that shares the first key continues in the rewritten child. */
  lemma {:induction false} SameBranchOthers(v: Value, keys: seq<string>, flags: seq<bool>, value: Value, other: seq<string>)
    requires |keys| >= 1 && |flags| == |keys| && Writable(v, keys)
    requires other != [] && other[0] == keys[0]
    requires !IsPrefix(other, keys) && !IsPrefix(keys, other)
    ensures GetKeys(SetKeys(v, keys, flags, value), other) == GetKeys(v, other)
    decreases |keys|, 0
  {
    PrefixOfSameHead(other, keys);
    assert |keys| > 1 && |other| > 1;
    var next := Descend(v, keys[0], flags[0]);
    SetKeysUnfold(v, keys, flags, value);
    SetKeysLeavesOthers(next, keys[1..], flags[1..], value, other[1..]);
    GetKeysCons(v, other);
    GetKeysCons(SetKeys(v, keys, flags, value), other);
    DescendReadsAsLookup(v, keys[0], flags[0], other[1..]);
  }

  /** Reading a non-empty key list is one step, then reading the rest. */
  lemma GetKeysCons(v: Value, keys: seq<string>)
    requires keys != []
    ensures GetKeys(v, keys) == GetKeys(Step(v, keys[0]), keys[1..])
  {
  }

  /** Below a created child there is nothing yet, exactly as below the
      missing key it replaced. */
  lemma DescendReadsAsLookup(v: Value, key: string, numeric: bool, keys: seq<string>)
    requires IsContainer(v) && keys != []
    ensures GetKeys(Descend(v, key, numeric), keys) == GetKeys(Step(v, key), keys)
  {
    if Lookup(v, key) == Undefined {
      ReadThroughMissing(Undefined, keys);
      FreshReadsUndefined(numeric, keys);
    }
  }

  /** Two key lists with the same first key: a one-key list is a prefix of
      the other, and otherwise prefixes are decided by the tails. */
  lemma PrefixOfSameHead(a: seq<string>, b: seq<string>)
    requires a != [] && b != [] && a[0] == b[0]
    ensures |a| == 1 ==> IsPrefix(a, b)
    ensures |b| == 1 ==> IsPrefix(b, a)
    ensures IsPrefix(a[1..], b[1..]) ==> IsPrefix(a, b)
    ensures IsPrefix(b[1..], a[1..]) ==> IsPrefix(b, a)
  {
    if IsPrefix(a[1..], b[1..]) || |a| == 1 {
      ConsPrefix(a, b);
    }
    if IsPrefix(b[1..], a[1..]) || |b| == 1 {
      ConsPrefix(b, a);
    }
  }

  /** Prepending the same key to a prefix and to the list it begins. */
  lemma ConsPrefix(a: seq<string>, b: seq<string>)
    requires a != [] && b != [] && a[0] == b[0]
    requires |a| == 1 || IsPrefix(a[1..], b[1..])
    ensures IsPrefix(a, b)
  {
    forall i | 0 <= i < |a|
      ensures b[i] == a[i]
    {
      if i > 0 {
        assert a[i] == a[1..][i - 1] && b[i] == b[1..][i - 1];
        assert b[1..][..|a| - 1][i - 1] == b[1..][i - 1];
      }
    }
    assert b[..|a|] == a;
  }

  /** A freshly created container has nothing under any path. */
  lemma FreshReadsUndefined(numeric: bool, keys: seq<string>)
    requires keys != []
    ensures GetKeys(Fresh(numeric), keys) == Undefined
  {
    ReadThroughMissing(Undefined, keys[1..]);
  }

  /** `setByPath` touches nothing but its own path: any path that is neither
      a prefix nor an extension of it reads the same after the write. */
  lemma SetLeavesOthers(obj: Value, path: string, value: Value, other: string)
    requires Writable(obj, Split(path))
    requires !IsPrefix(Split(other), Split(path)) && !IsPrefix(Split(path), Split(other))
    ensures GetByPath(SetByPath(obj, path, value), other) == GetByPath(obj, other)
  {
    var keys := Split(path);
    SetKeysLeavesOthers(obj, keys, NumericFlags(keys), value, Split(other));
  }

  /** What a write makes of one intermediate on its path: a container,
      of its former kind when it existed, and an array exactly when its key
      is numeric when it was missing. */
  predicate IntermediateKept(before: Value, after: Value, numeric: bool) {
    IsContainer(after) &&
    (before == Undefined ==> (after.Arr? <==> numeric)) &&
    (before != Undefined ==> IsContainer(before) && after.Arr? == before.Arr?)
  }

  /** After a write every intermediate along the keys is a container: one
      that existed keeps its kind, and one that was missing gets the kind
      its flag gives. */
  lemma {:induction false} SetKeysIntermediates(v: Value, keys: seq<string>, flags: seq<bool>, value: Value, j: nat)
    requires |keys| >= 1 && |flags| == |keys| && Writable(v, keys)
    requires 1 <= j < |keys|
    ensures IntermediateKept(GetKeys(v, keys[..j]), GetKeys(SetKeys(v, keys, flags, value), keys[..j]), flags[j - 1])
    decreases |keys|
  {
    if j == 1 {
      SetKeysUnfold(v, keys, flags, value);
      assert keys[..1] == [keys[0]] && keys[..1][1..] == [];
      assert GetKeys(v, keys[..1]) == Lookup(v, keys[0]);
    } else {
      var next := Descend(v, keys[0], flags[0]);
      var rest := keys[1..][..j - 1];
      PrefixReadsBelow(v, keys, flags, value, j);
      SetKeysIntermediates(next, keys[1..], flags[1..], value, j - 1);
      assert flags[1..][j - 2] == flags[j - 1];
    }
  }

  /** Reading the first `j` keys, before and after the write, is reading
      the next `j - 1` keys below the first one. */
  lemma PrefixReadsBelow(v: Value, keys: seq<string>, flags: seq<bool>, value: Value, j: nat)
    requires |keys| >= 2 && |flags| == |keys| && Writable(v, keys)
    requires 2 <= j < |keys|
    ensures var next := Descend(v, keys[0], flags[0]);
            var rest := keys[1..][..j - 1];
            GetKeys(v, keys[..j]) == GetKeys(next, rest) &&
            GetKeys(SetKeys(v, keys, flags, value), keys[..j]) == GetKeys(SetKeys(next, keys[1..], flags[1..], value), rest)
  {
    var rest := keys[1..][..j - 1];
    assert keys[..j][1..] == rest && keys[..j][0] == keys[0];
    SetKeysUnfold(v, keys, flags, value);
    GetKeysCons(v, keys[..j]);
    DescendReadsAsLookup(v, keys[0], flags[0], rest);
    GetKeysCons(SetKeys(v, keys, flags, value), keys[..j]);
  }

  /** `setByPath` leaves every intermediate of the path a container: one
      that existed keeps its kind, and one that was missing becomes an
      array when its key converts to a number and a plain object otherwise. */
  lemma SetIntermediates(obj: Value, path: string, value: Value, j: nat)
    requires Writable(obj, Split(path))
    requires 1 <= j < |Split(path)|
    ensures var keys := Split(path);
            IntermediateKept(GetKeys(obj, keys[..j]), GetKeys(SetByPath(obj, path, value), keys[..j]),
                             IsNumericKey(keys[j - 1]))
  {
    var keys := Split(path);
    SetKeysIntermediates(obj, keys, NumericFlags(keys), value, j);
  }

  /** The first `|spine|` containers a write along the keys passes
      through, outermost first: the record itself, then for each key the
      child under it, created when missing. */
  predicate WalkPrefix(spine: seq<Value>, v: Value, keys: seq<string>, flags: seq<bool>)
    requires |flags| == |keys|
  {
    1 <= |spine| <= |keys| && spine[0] == v &&
    (forall k :: 0 <= k < |spine| ==> Writable(spine[k], keys[k..])) &&
    (forall k :: 0 <= k < |spine| - 1 ==> spine[k + 1] == Descend(spine[k], keys[k], flags[k]))
  }

  /** All the containers a write passes through, down to the one that
      receives the value. */
  predicate IsWalk(spine: seq<Value>, v: Value, keys: seq<string>, flags: seq<bool>)
    requires |flags| == |keys|
  {
    WalkPrefix(spine, v, keys, flags) && |spine| == |keys|
  }

  /** One more step of the walk keeps it a walk. */
  lemma WalkStep(spine: seq<Value>, v: Value, keys: seq<string>, flags: seq<bool>)
    requires |flags| == |keys| && WalkPrefix(spine, v, keys, flags) && |spine| < |keys|
    ensures var i := |spine| - 1;
            WalkPrefix(spine + [Descend(spine[i], keys[i], flags[i])], v, keys, flags)
  {
    var i := |spine| - 1;
    var child := Descend(spine[i], keys[i], flags[i]);
    var next := spine + [child];
    DescendWritable(spine[i], keys[i..], flags[i]);
    assert keys[i..][1..] == keys[i + 1..];
    forall k | 0 <= k < |next|
      ensures Writable(next[k], keys[k..])
    {
      if k < |spine| {
        assert next[k] == spine[k];
      }
    }
    forall k | 0 <= k < |next| - 1
      ensures next[k + 1] == Descend(next[k], keys[k], flags[k])
    {
      assert next[k] == spine[k];
    }
  }

  /** The loop of `setByPath` over all keys but the last: it descends one
      level per key, creating a missing child (an array when the key's flag
      says it is numeric) before stepping into it. */
  method Walk(v: Value, keys: seq<string>, flags: seq<bool>) returns (spine: seq<Value>)
    requires |keys| >= 1 && |flags| == |keys| && Writable(v, keys)
    ensures IsWalk(spine, v, keys, flags)
  {
    spine := [v];
    assert keys[0..] == keys;
    while |spine| < |keys|
      invariant WalkPrefix(spine, v, keys, flags)
      decreases |keys| - |spine|
    {
      var i := |spine| - 1;
      WalkStep(spine, v, keys, flags);
      spine := spine + [Descend(spine[i], keys[i], flags[i])];
    }
  }

  /** The store under the last key, carried back out through the walked
      containers: the record the in-place write leaves behind. */
  method Rebuild(spine: seq<Value>, v: Value, keys: seq<string>, flags: seq<bool>, value: Value) returns (r: Value)
    requires |keys| >= 1 && |flags| == |keys| && Writable(v, keys) && IsWalk(spine, v, keys, flags)
    ensures r == SetKeys(v, keys, flags, value)
  {
    var n := |keys| - 1;
    r := Put(spine[n], keys[n], value);
    assert keys[n..] == [keys[n]];
    var i := n;
    while i > 0
      invariant 0 <= i <= n
      invariant r == SetKeys(spine[i], keys[i..], flags[i..], value)
    {
      i := i - 1;
      assert keys[i..][1..] == keys[i + 1..] && flags[i..][1..] == flags[i + 1..];
      SetKeysUnfold(spine[i], keys[i..], flags[i..], value);
      r := Put(spine[i], keys[i], r);
    }
    assert keys[0..] == keys && flags[0..] == flags;
  }

  /** The page's content record, which `setByPath` updates in place. */
  class ContentStore {
    var root: Value

    constructor (root: Value)
      ensures this.root == root
    {
      this.root := root;
    }

    /** `setByPath(contentModel, path, value)`: walk down all keys but the
        last, creating missing containers, then store the value under the
        last key. Carrying the updated containers back outward stands for
        JavaScript's shared references, through which the write reaches the
        record. */
    method Set(path: string, value: Value)
      requires Writable(root, Split(path))
      modifies this
      ensures root == SetByPath(old(root), path, value)
      ensures GetByPath(root, path) == value
    {
      var keys := Split(path);
      var flags := NumericFlags(keys);
      var spine := Walk(root, keys, flags);
      root := Rebuild(spine, root, keys, flags, value);
    }
  }
}
