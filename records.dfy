/** Merge-request records as the JSON-like values the filter engine reads, and
    `getField`, which resolves a dotted path such as `"author.name"` in one. */
module Records {

  /** A JavaScript value as far as `getField` and the predicates can tell them apart.
      `Obj` is any non-null, non-array object (its own enumerable properties); `Other` is a number
      or a boolean. */
  datatype Value = Undefined | Null | Str(s: string) | Obj(fields: map<string, Value>) | Other

  /** `obj[key]` on an object: the property, or `undefined` when it is absent. */
  function Lookup(fields: map<string, Value>, key: string): Value {
    if key in fields then fields[key] else Undefined
  }

  /** `path.split(".")`: the pieces between the dots, empty pieces included. */
  function Split(path: string): (keys: seq<string>)
    ensures |keys| >= 1
  {
    if path == [] then [""]
    else
      var rest := Split(path[1..]);
      if path[0] == '.' then [""] + rest else [[path[0]] + rest[0]] + rest[1..]
  }

  /** The inverse of `Split`: the pieces glued back together with dots. */
  function Join(keys: seq<string>): string
    requires |keys| >= 1
  {
    if |keys| == 1 then keys[0] else keys[0] + "." + Join(keys[1..])
  }

  function DotCount(s: string): nat {
    if s == [] then 0 else (if s[0] == '.' then 1 else 0) + DotCount(s[1..])
  }

  /** A path has one more segment than it has dots, and no segment contains a dot. */
  lemma {:induction false} SplitShape(path: string)
    ensures |Split(path)| == DotCount(path) + 1
    ensures forall k :: 0 <= k < |Split(path)| ==> '.' !in Split(path)[k]
  {
    if path != [] {
      SplitShape(path[1..]);
      var rest := Split(path[1..]);
      if path[0] != '.' {
        assert '.' !in rest[0];
        assert forall k :: 1 <= k < |Split(path)| ==> Split(path)[k] == rest[k];
      } else {
        assert forall k :: 1 <= k < |Split(path)| ==> Split(path)[k] == rest[k - 1];
      }
    }
  }

  /** Joining the pieces of a path gives the path back. */
  lemma {:induction false} JoinSplit(path: string)
    ensures Join(Split(path)) == path
  {
    if path != [] {
      JoinSplit(path[1..]);
      var c, rest, keys := path[0], Split(path[1..]), Split(path);
      assert path == [c] + path[1..];
      if c == '.' {
        assert keys == [""] + rest && keys[1..] == rest;
        assert Join(keys) == "" + "." + Join(rest);
      } else if |rest| == 1 {
        assert keys == [[c] + rest[0]];
        assert Join(rest) == rest[0];
      } else {
        assert keys == [[c] + rest[0]] + rest[1..] && keys[1..] == rest[1..];
        assert Join(keys) == ([c] + rest[0]) + "." + Join(rest[1..]);
        assert Join(rest) == rest[0] + "." + Join(rest[1..]);
      }
    }
  }

  /** Splitting dot-free pieces glued with dots gives the pieces back. */
  lemma {:induction false} SplitJoin(keys: seq<string>)
    requires |keys| >= 1
    requires forall k :: 0 <= k < |keys| ==> '.' !in keys[k]
    ensures Split(Join(keys)) == keys
  {
    if |keys| == 1 {
      SplitDotFree(keys[0], []);
      assert keys[0] + [] == keys[0];
      assert Split([]) == [""];
      assert keys[0] + "" == keys[0];
    } else {
      SplitJoin(keys[1..]);
      var tail := "." + Join(keys[1..]);
      SplitDotFree(keys[0], tail);
      assert Join(keys) == keys[0] + tail;
      assert tail[1..] == Join(keys[1..]);
      assert Split(tail) == [""] + keys[1..];
      assert keys[0] + "" == keys[0];
      assert keys == [keys[0]] + keys[1..];
    }
  }

  /** A dot-free prefix becomes part of the first segment. */
  lemma {:induction false} SplitDotFree(w: string, tail: string)
    requires '.' !in w
    requires tail == [] || tail[0] == '.'
    ensures Split(w + tail) == [w + Split(tail)[0]] + Split(tail)[1..]
  {
    if w == [] {
      assert w + tail == tail;
      assert Split(tail) == [Split(tail)[0]] + Split(tail)[1..];
    } else {
      SplitDotFree(w[1..], tail);
      assert (w + tail)[1..] == w[1..] + tail;
      assert (w + tail)[0] == w[0];
      assert [w[0]] + (w[1..] + Split(tail)[0]) == w + Split(tail)[0];
    }
  }

  /** The value reached from `v` by following `keys`: `undefined` as soon as the value
      being walked is not an object. */
  function Resolve(v: Value, keys: seq<string>): Value
    decreases |keys|
  {
    if keys == [] then v
    else match v
      case Obj(fields) => Resolve(Lookup(fields, keys[0]), keys[1..])
      case _ => Undefined
  }

  /** Walking `a + b` is walking `a` and then `b`. */
  lemma {:induction false} ResolveAppend(v: Value, a: seq<string>, b: seq<string>)
    ensures Resolve(v, a + b) == Resolve(Resolve(v, a), b)
    decreases |a|
  {
    if a == [] {
      assert a + b == b;
    } else if v.Obj? {
      assert (a + b)[1..] == a[1..] + b;
      ResolveAppend(Lookup(v.fields, a[0]), a[1..], b);
    } else if b != [] {
      assert Resolve(Resolve(v, a), b) == Resolve(Undefined, b);
    }
  }

  /** `getField(obj, path)` of store.ts, with the same loop over the keys. */
  method GetField(obj: Value, path: string) returns (v: Value)
    ensures v == Resolve(obj, Split(path))
  {
    var keys := Split(path);
    v := obj;
    var i := 0;
    while i < |keys|
      invariant 0 <= i <= |keys|
      invariant Resolve(obj, keys) == Resolve(v, keys[i..])
    {
      if v.Obj? {
        v := Lookup(v.fields, keys[i]);
      } else {
        return Undefined;
      }
      i := i + 1;
    }
  }

  /** A path without dots reads the direct property of an object, and every path gives
      `undefined` on a value that is not an object. */
  lemma SingleSegment(obj: Value, path: string)
    requires '.' !in path
    ensures Split(path) == [path]
    ensures obj.Obj? ==> Resolve(obj, Split(path)) == Lookup(obj.fields, path)
    ensures !obj.Obj? ==> Resolve(obj, Split(path)) == Undefined
  {
    SplitJoin([path]);
  }
}
