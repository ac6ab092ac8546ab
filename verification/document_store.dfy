/**
 The database object: the in-memory document `data`, written by `setValue` and
 read by `getValue` / `getPath`. Every call of `save()` is recorded as the
 snapshot of the document it would serialise.
 */
module DocumentStore {
  import opened Json
  import opened PathResolver

  /** How a `setValue` call ends: it returns a boolean, or it throws the
      strict-mode TypeError of a property assignment on a primitive. */
  datatype Outcome = Returned(changed: bool) | TypeError

  /** The intermediate keys of a `setValue` call: all keys but the last. */
  function Parents(keys: seq<string>): seq<string> {
    if keys == [] then [] else keys[..|keys| - 1]
  }

  /** The key `setValue` writes: the last key; with no keys at all, `keys[-1]` is
      `undefined`, which names the property "undefined". */
  function LeafKey(keys: seq<string>): string {
    if keys == [] then "undefined" else keys[|keys| - 1]
  }

  /** The path `setValue` writes to. */
  function Target(keys: seq<string>): (t: seq<string>)
    ensures keys != [] ==> t == keys
    ensures keys == [] ==> t == ["undefined"]
  {
    Parents(keys) + [LeafKey(keys)]
  }

  /** The write walk meets a truthy array as an intermediate. Paths through
      arrays are not modelled, so such calls are excluded. */
  predicate ArrayOnWalk(m: map<string, Value>, keys: seq<string>) {
    var b := Blocker(m, Parents(keys));
    b.Some? && b.value.Arr?
  }

  /** `setValue` is a no-op: the walk throws nothing and the leaf it compares is
      strictly equal to the new value. */
  predicate IsNoOp(m: map<string, Value>, keys: seq<string>, v: Value) {
    Blocker(m, Parents(keys)) == None &&
    var e := Existing(m, Parents(keys), LeafKey(keys));
    e.Some? && StrictEq(e.value, v)
  }

  /** The document after a `setValue` call that does not throw. */
  function Written(m: map<string, Value>, keys: seq<string>, v: Value): map<string, Value>
    requires Blocker(m, Parents(keys)) == None
  {
    if IsNoOp(m, keys, v) then m else SetIn(m, Parents(keys), LeafKey(keys), v)
  }

  /** Writes `node` back into the containers the walk passed (`trail[i]` is the
      container at depth `i`, entered through key `ks[i]`), innermost first. */
  function Rebuild(trail: seq<map<string, Value>>, ks: seq<string>, node: map<string, Value>): map<string, Value>
    requires |trail| == |ks|
    decreases |trail|
  {
    if trail == [] then node
    else
      var n := |trail| - 1;
      Rebuild(trail[..n], ks[..n], trail[n][ks[n] := Obj(node)])
  }

  class CryptedJsonDb {
    /** The document. */
    var data: map<string, Value>
    /** The snapshots written by `save()`, oldest first. */
    ghost var saved: seq<map<string, Value>>

    /** A database whose `load()` produced the document `loaded`. */
    constructor (loaded: map<string, Value>)
      ensures data == loaded && saved == []
    {
      data := loaded;
      saved := [];
    }

    /** Persists the current document. */
    method Save()
      modifies this`saved
      ensures saved == old(saved) + [data]
    {
      saved := saved + [data];
    }

    method SetValue(value: Value, keys: seq<string>) returns (r: Outcome)
      requires !ArrayOnWalk(data, keys)
      modifies this
      ensures r.TypeError? <==> Blocker(old(data), Parents(keys)).Some?
      ensures r.TypeError? ==> data == old(data) && saved == old(saved)
      ensures r.Returned? ==> r.changed == !IsNoOp(old(data), keys, value)
      ensures r.Returned? ==> Blocker(old(data), Parents(keys)) == None && data == Written(old(data), keys, value)
      ensures r == Returned(false) ==> data == old(data) && saved == old(saved)
      ensures r == Returned(true) ==> saved == old(saved) + [data]
    {
      var parents := Parents(keys);
      var leaf := LeafKey(keys);
      var obj := data;
      var trail: seq<map<string, Value>> := [];
      ghost var vivified := false;
      var i := 0;
      while i < |parents|
        invariant 0 <= i <= |parents| && |trail| == i
        invariant Blocker(data, parents) == Blocker(obj, parents[i..])
        invariant vivified ==> obj == map[]
        invariant Get(Obj(data), parents) == if vivified then None else Get(Obj(obj), parents[i..])
        invariant Blocker(data, parents) == None ==>
          SetIn(data, parents, leaf, value) == Rebuild(trail, parents[..i], SetIn(obj, parents[i..], leaf, value))
      {
        var k := parents[i];
        assert parents[i..][1..] == parents[i + 1..];
        assert (trail + [obj])[..i] == trail && parents[..i + 1][..i] == parents[..i];
        if !(k in obj && Truthy(obj[k])) {
          trail := trail + [obj];
          obj := map[];
          vivified := true;
        } else if obj[k].Obj? {
          trail := trail + [obj];
          obj := obj[k].fields;
        } else {
          return TypeError;
        }
        i := i + 1;
      }
      assert parents[i..] == [];
      if leaf in obj && StrictEq(obj[leaf], value) {
        return Returned(false);
      }
      var node := obj[leaf := value];
      var j := |trail|;
      assert trail[..j] == trail && parents[..j] == parents;
      while j > 0
        invariant 0 <= j <= |trail|
        invariant Rebuild(trail[..j], parents[..j], node) == SetIn(data, parents, leaf, value)
      {
        assert trail[..j][..j - 1] == trail[..j - 1] && parents[..j][..j - 1] == parents[..j - 1];
        j := j - 1;
        node := trail[j][parents[j] := Obj(node)];
      }
      data := node;
      Save();
      return Returned(true);
    }

    method GetValue(keys: seq<string>) returns (r: Option<Value>)
      ensures r == Get(Obj(data), keys)
      ensures keys == [] ==> r == Some(Obj(data))
    {
      var obj := Obj(data);
      var i := 0;
      while i < |keys|
        invariant 0 <= i <= |keys|
        invariant Get(Obj(data), keys) == Get(obj, keys[i..])
      {
        assert keys[i..][1..] == keys[i + 1..];
        var slot := Prop(obj, keys[i]);
        if !TruthySlot(slot) {
          return None;
        }
        obj := slot.value;
        i := i + 1;
      }
      assert keys[i..] == [];
      return Some(obj);
    }

    method GetPath(path: seq<string>) returns (r: Option<Value>)
      ensures r == Get(Obj(data), path)
    {
      r := GetValue(path);
    }
  }

  /** Round trip: after a `setValue` that does not throw, the target path holds
      the value, and `getValue` over it returns the value when it is truthy and
      `undefined` when it is falsy. */
  lemma SetValueThenGetValue(m: map<string, Value>, keys: seq<string>, v: Value)
    requires Blocker(m, Parents(keys)) == None
    ensures At(Obj(Written(m, keys, v)), Target(keys)) == Some(v)
    ensures Get(Obj(Written(m, keys, v)), Target(keys)) == if Truthy(v) then Some(v) else None
  {
    var parents, leaf := Parents(keys), LeafKey(keys);
    if IsNoOp(m, keys, v) {
      GetCharacterised(Obj(m), parents);
      AtAppend(Obj(m), parents, leaf);
      GetAppend(Obj(m), parents, leaf);
    } else {
      SetReachesLeaf(m, parents, leaf, v);
      SetThenGet(m, parents, leaf, v);
    }
  }

  /** Frame: paths that neither lead to the target leaf nor lie below it read the
      same before and after `setValue`. */
  lemma SetValueFrame(m: map<string, Value>, keys: seq<string>, v: Value, q: seq<string>)
    requires Blocker(m, Parents(keys)) == None
    requires !(q <= Target(keys)) && !(Target(keys) <= q)
    ensures At(Obj(Written(m, keys, v)), q) == At(Obj(m), q)
  {
    if !IsNoOp(m, keys, v) {
      SetFrame(m, Parents(keys), LeafKey(keys), v, q);
    }
  }

  /** Repeating a `setValue` with the same value is a no-op exactly when the value
      is a primitive; an array or object argument is always written again. */
  lemma SecondSetValue(m: map<string, Value>, keys: seq<string>, v: Value)
    requires Blocker(m, Parents(keys)) == None
    ensures Blocker(Written(m, keys, v), Parents(keys)) == None
    ensures IsNoOp(Written(m, keys, v), keys, v) <==> IsPrimitive(v)
  {
    if !IsNoOp(m, keys, v) {
      SetReachesLeaf(m, Parents(keys), LeafKey(keys), v);
    }
  }
}
