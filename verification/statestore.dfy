/**
 * The dot-path state store of the Porta client (scripts/porta-jymin.js,
 * lines 484-521): `get` walks a dot-delimited path creating empty objects
 * for every falsy segment, `set` does the same for all but the last segment
 * and then assigns or deletes the last key, reporting whether a re-render
 * must be scheduled.
 */
module StateStore {
  import opened Values

  /** `path.split(/\./)`: never empty, and no key holds a dot. */
  function Split(path: string): (keys: seq<string>)
    ensures |keys| >= 1
    ensures forall i :: 0 <= i < |keys| ==> '.' !in keys[i]
  {
    if path == [] then [""]
    else
      var rest := Split(path[1..]);
      if path[0] == '.' then [""] + rest
      else [[path[0]] + rest[0]] + rest[1..]
  }

  /** The inverse of `Split`: keys joined with dots. */
  function Join(keys: seq<string>): string
    requires |keys| >= 1
  {
    if |keys| == 1 then keys[0] else keys[0] + "." + Join(keys[1..])
  }

  /** Splitting a path and joining the keys gives the path back. */
  lemma {:induction false} JoinSplit(path: string)
    ensures Join(Split(path)) == path
  {
    if path != [] {
      var rest := Split(path[1..]);
      JoinSplit(path[1..]);
      if path[0] != '.' {
        var keys := Split(path);
        assert keys[1..] == rest[1..];
        if |rest| > 1 {
          assert Join(rest) == rest[0] + "." + Join(rest[1..]);
          assert Join(keys) == ([path[0]] + rest[0]) + "." + Join(rest[1..]);
        }
        assert path == [path[0]] + path[1..];
      }
    }
  }

  /** Splitting `w + s` for a dot-free word `w` prefixes `w` to the first key of `s`. */
  lemma {:induction false} SplitWord(w: string, s: string)
    requires '.' !in w
    ensures Split(w + s) == [w + Split(s)[0]] + Split(s)[1..]
  {
    if w != [] {
      assert (w + s)[1..] == w[1..] + s;
      SplitWord(w[1..], s);
      var x := Split(s)[0];
      assert (w + s)[0] == w[0] != '.';
      assert Split(w + s) == [[w[0]] + (w[1..] + x)] + Split(s)[1..];
      assert [w[0]] + (w[1..] + x) == w + x;
    } else {
      assert w + s == s;
      assert w + Split(s)[0] == Split(s)[0];
    }
  }

  /** Joining dot-free keys and splitting again gives the keys back. */
  lemma {:induction false} SplitJoin(keys: seq<string>)
    requires |keys| >= 1
    requires forall i :: 0 <= i < |keys| ==> '.' !in keys[i]
    ensures Split(Join(keys)) == keys
  {
    if |keys| == 1 {
      SplitWord(keys[0], "");
      assert Split("") == [""];
      assert keys[0] + "" == keys[0];
      assert Split(keys[0]) == [keys[0]];
      assert keys == [keys[0]];
    } else {
      var t := Join(keys[1..]);
      SplitJoin(keys[1..]);
      SplitWord(keys[0], "." + t);
      assert ("." + t)[1..] == t;
      assert Split("." + t) == [""] + Split(t);
      assert keys[0] + "" == keys[0];
      assert Join(keys) == keys[0] + ("." + t);
      assert Split(Join(keys)) == [keys[0]] + Split(t);
      assert keys == [keys[0]] + keys[1..];
    }
  }

  /** Read-only lookup of a key path, `undefined` once a segment is missing. */
  function Lookup(v: Value, keys: seq<string>): Value
    decreases |keys|
  {
    if keys == [] then v else Lookup(Prop(v, keys[0]), keys[1..])
  }

  /** Two key paths part ways at some position: neither is a prefix of the other. */
  predicate Diverges(p: seq<string>, q: seq<string>)
    decreases |p|
  {
    |p| > 0 && |q| > 0 && (p[0] != q[0] || Diverges(p[1..], q[1..]))
  }

  /**
   * Every scope the walk passes through is an object, or is falsy and gets
   * replaced by one. A truthy primitive on the way silently swallows writes.
   */
  predicate Walkable(scope: Value, keys: seq<string>)
    decreases |keys|
  {
    && scope.Obj?
    && (|keys| <= 1
        || (var c := Prop(scope, keys[0]);
            (c.Obj? || !Truthy(c)) && Walkable(Vivify(c), keys[1..])))
  }

  /** Every scope on the way to the last key is an object already. */
  predicate Materialized(scope: Value, keys: seq<string>)
    decreases |keys|
  {
    && scope.Obj?
    && (|keys| <= 1 || (Prop(scope, keys[0]).Obj? && Materialized(Prop(scope, keys[0]), keys[1..])))
  }

  /** Replacing a falsy scope by `{}` is invisible to any non-empty lookup below it. */
  lemma LookupVivify(v: Value, q: seq<string>)
    requires |q| >= 1
    ensures Lookup(Vivify(v), q) == Lookup(v, q)
  {
    if !Truthy(v) {
      assert Prop(v, q[0]) == Undefined == Prop(Vivify(v), q[0]);
    }
  }

  // ---------------------------------------------------------------- get

  /**
   * `scope = scope[key] = scope[key] || {}` for every key: returns the
   * updated scope and the final value.
   */
  function GetIn(scope: Value, keys: seq<string>): (r: (Value, Value))
    ensures keys != [] ==> Truthy(r.1)
    ensures scope.Obj? ==> r.0.Obj?
    ensures !scope.Obj? ==> r.0 == scope
    decreases |keys|
  {
    if keys == [] then (scope, scope)
    else
      var child := Vivify(Prop(scope, keys[0]));
      var (child', found) := GetIn(child, keys[1..]);
      (Put(scope, keys[0], child'), found)
  }

  /** `Porta.get(path)`: the new state and the value found at the path. */
  function Get(state: Value, path: string): (r: (Value, Value))
    ensures r.1 == Vivify(Lookup(state, Split(path)))
    ensures Truthy(r.0) && Truthy(r.1)
  {
    GetInResult(Vivify(state), Split(path));
    LookupVivify(state, Split(path));
    GetIn(Vivify(state), Split(path))
  }

  /** `get` returns the value at the path, or `{}` when that value is falsy: never a falsy value. */
  lemma {:induction false} GetInResult(scope: Value, keys: seq<string>)
    requires |keys| >= 1
    ensures GetIn(scope, keys).1 == Vivify(Lookup(scope, keys))
    ensures Truthy(GetIn(scope, keys).1)
    decreases |keys|
  {
    var child := Vivify(Prop(scope, keys[0]));
    if |keys| > 1 {
      GetInResult(child, keys[1..]);
      LookupVivify(Prop(scope, keys[0]), keys[1..]);
    }
  }

  /** On a walkable path the returned value is stored at that path: the result aliases the state. */
  lemma {:induction false} GetInStores(scope: Value, keys: seq<string>)
    requires |keys| >= 1 && Walkable(scope, keys)
    ensures Lookup(GetIn(scope, keys).0, keys) == GetIn(scope, keys).1
    decreases |keys|
  {
    if |keys| > 1 {
      GetInStores(Vivify(Prop(scope, keys[0])), keys[1..]);
    }
  }

  /** `get` changes nothing at any path that parts ways with the one read. */
  lemma {:induction false} GetInKeepsOthers(scope: Value, keys: seq<string>, q: seq<string>)
    requires Diverges(keys, q)
    ensures Lookup(GetIn(scope, keys).0, q) == Lookup(scope, q)
    decreases |keys|
  {
    var c := Prop(scope, keys[0]);
    if scope.Obj? && q[0] == keys[0] {
      GetInKeepsOthers(Vivify(c), keys[1..], q[1..]);
      LookupVivify(c, q[1..]);
    }
  }

  /** The state a `get` leaves behind is a fixed point: reading twice is reading once. */
  lemma {:induction false} GetInIdempotent(scope: Value, keys: seq<string>)
    requires Truthy(scope)
    ensures Truthy(GetIn(scope, keys).0)
    ensures GetIn(GetIn(scope, keys).0, keys) == GetIn(scope, keys)
    decreases |keys|
  {
    if keys != [] {
      var k := keys[0];
      var child := Vivify(Prop(scope, k));
      GetInIdempotent(child, keys[1..]);
      var (child', found) := GetIn(child, keys[1..]);
      if scope.Obj? {
        var s1 := Put(scope, k, child');
        assert Prop(s1, k) == child';
        assert Put(s1, k, child') == s1 by {
          assert s1.fields[k := child'] == s1.fields;
        }
      }
    }
  }

  // ---------------------------------------------------------------- set

  /**
   * Walk all but the last key as `get` does, then assign the last key, or
   * delete it when the value is `null`; nothing happens when the old value
   * is strictly equal to the new one. The flag says whether a render must
   * be scheduled.
   */
  function SetIn(scope: Value, keys: seq<string>, value: Value): (r: (Value, bool))
    requires |keys| >= 1
    ensures scope.Obj? ==> r.0.Obj?
    ensures !scope.Obj? ==> r.0 == scope
    ensures forall k :: k != keys[0] ==> Prop(r.0, k) == Prop(scope, k)
    decreases |keys|
  {
    if |keys| == 1 then
      var k := keys[0];
      if StrictEq(Prop(scope, k), value) then (scope, false)
      else if value.Null? then (Delete(scope, k), true)
      else (Put(scope, k, value), true)
    else
      var child := Vivify(Prop(scope, keys[0]));
      var (child', changed) := SetIn(child, keys[1..], value);
      (Put(scope, keys[0], child'), changed)
  }

  /** `Porta.set(path, value)`: the new state and whether a render is scheduled. An empty path is ignored. */
  function Set(state: Value, path: string, value: Value): (r: (Value, bool))
    ensures path == "" ==> r == (state, false)
  {
    if path == "" then (state, false) else SetIn(Vivify(state), Split(path), value)
  }

  /** A render is scheduled exactly when the old value at the path is not strictly equal to the new one. */
  lemma {:induction false} SetInSchedulesIffDifferent(scope: Value, keys: seq<string>, value: Value)
    requires |keys| >= 1
    ensures SetIn(scope, keys, value).1 <==> !StrictEq(Lookup(scope, keys), value)
    decreases |keys|
  {
    if |keys| > 1 {
      SetInSchedulesIffDifferent(Vivify(Prop(scope, keys[0])), keys[1..], value);
      LookupVivify(Prop(scope, keys[0]), keys[1..]);
    }
  }

  /** After `set`, the path holds the value, or nothing when a `null` deleted it. */
  lemma {:induction false} SetInStores(scope: Value, keys: seq<string>, value: Value)
    requires |keys| >= 1 && Walkable(scope, keys)
    ensures Lookup(SetIn(scope, keys, value).0, keys)
            == (if value.Null? && !Lookup(scope, keys).Null? then Undefined else value)
    decreases |keys|
  {
    if |keys| > 1 {
      var c := Prop(scope, keys[0]);
      SetInStores(Vivify(c), keys[1..], value);
      LookupVivify(c, keys[1..]);
    }
  }

  /** `set` changes nothing at any path that parts ways with the one written: siblings are untouched. */
  lemma {:induction false} SetInKeepsOthers(scope: Value, keys: seq<string>, value: Value, q: seq<string>)
    requires |keys| >= 1 && Diverges(keys, q)
    ensures Lookup(SetIn(scope, keys, value).0, q) == Lookup(scope, q)
    decreases |keys|
  {
    var c := Prop(scope, keys[0]);
    if |keys| > 1 && scope.Obj? && q[0] == keys[0] {
      SetInKeepsOthers(Vivify(c), keys[1..], value, q[1..]);
      LookupVivify(c, q[1..]);
    }
  }

  /** After `set` on a walkable path, every scope on the way is an object. */
  lemma {:induction false} SetInMaterializes(scope: Value, keys: seq<string>, value: Value)
    requires |keys| >= 1 && Walkable(scope, keys)
    ensures Materialized(SetIn(scope, keys, value).0, keys)
    decreases |keys|
  {
    if |keys| > 1 {
      SetInMaterializes(Vivify(Prop(scope, keys[0])), keys[1..], value);
    }
  }

  /** Writing the value a materialized path already holds changes nothing and schedules nothing. */
  lemma {:induction false} SetInUnchanged(scope: Value, keys: seq<string>, value: Value)
    requires |keys| >= 1 && Materialized(scope, keys) && StrictEq(Lookup(scope, keys), value)
    ensures SetIn(scope, keys, value) == (scope, false)
    decreases |keys|
  {
    if |keys| > 1 {
      var k := keys[0];
      var c := Prop(scope, k);
      assert Vivify(c) == c;
      assert Lookup(scope, keys) == Lookup(c, keys[1..]);
      SetInUnchanged(c, keys[1..], value);
      assert scope.fields[k := c] == scope.fields;
    } else {
      assert Lookup(scope, keys) == Prop(scope, keys[0]);
    }
  }

  /** Setting the same primitive twice schedules at most one render; the second write is a no-op. */
  lemma SetInTwice(scope: Value, keys: seq<string>, value: Value)
    requires |keys| >= 1 && Walkable(scope, keys)
    requires !value.Null? && !value.Obj?
    ensures var s1 := SetIn(scope, keys, value).0;
            SetIn(s1, keys, value) == (s1, false)
  {
    var s1 := SetIn(scope, keys, value).0;
    SetInStores(scope, keys, value);
    SetInMaterializes(scope, keys, value);
    SetInUnchanged(s1, keys, value);
  }

  /** Setting `null` where nothing is stored still schedules a render, though the state is unchanged there. */
  lemma SetNullOnAbsentSchedules(scope: Value, keys: seq<string>)
    requires |keys| >= 1 && Lookup(scope, keys) == Undefined
    ensures SetIn(scope, keys, Null).1
  {
    SetInSchedulesIffDifferent(scope, keys, Null);
  }

  /** The path example: from an empty state, `set("a.b.c", 5)` then `get("a.b")` yields an object whose `c` is 5. */
  /** The two paths of the example split into their keys. */
  lemma SplitExamplePaths()
    ensures Split("a.b.c") == ["a", "b", "c"] && Split("a.b") == ["a", "b"]
  {
    assert Join(["a", "b", "c"]) == "a.b.c";
    SplitJoin(["a", "b", "c"]);
    assert Join(["a", "b"]) == "a.b";
    SplitJoin(["a", "b"]);
  }

  lemma SetThenGetExample()
    ensures var s1 := Set(Obj(map[]), "a.b.c", Num(5)).0;
            var found := Get(s1, "a.b").1;
            found.Obj? && Prop(found, "c") == Num(5)
  {
    SplitExamplePaths();
    var keys := ["a", "b", "c"];
    var s0 := Obj(map[]);
    assert Walkable(s0, keys);
    var s1 := SetIn(s0, keys, Num(5)).0;
    SetInMaterializes(s0, keys, Num(5));
    SetInStores(s0, keys, Num(5));
    var ab := Lookup(s1, ["a", "b"]);
    assert ab.Obj?;
    assert Lookup(s1, keys) == Prop(ab, "c");
  }
}
