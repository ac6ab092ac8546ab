/**
 Nested-path addressing over the document tree: the read walk of `getValue`,
 the write walk of `setValue` (with auto-vivification of falsy intermediates),
 and what the tree looks like after a write.
 */
module PathResolver {
  import opened Json

  /** The property read `obj[k]`. Only objects have properties in this model. */
  function Prop(v: Value, k: string): Option<Value> {
    if v.Obj? && k in v.fields then Some(v.fields[k]) else None
  }

  /** The raw slot at `path`, following object properties with no truthiness test. */
  function At(v: Value, path: seq<string>): Option<Value>
    decreases |path|
  {
    if path == [] then Some(v)
    else
      match Prop(v, path[0])
      case None => None
      case Some(w) => At(w, path[1..])
  }

  /** The read walk: stops with `undefined` (None) at the first segment whose
      slot is missing or falsy, the last segment included. */
  function Get(v: Value, keys: seq<string>): Option<Value>
    decreases |keys|
  {
    if keys == [] then Some(v)
    else
      var slot := Prop(v, keys[0]);
      if TruthySlot(slot) then Get(slot.value, keys[1..]) else None
  }

  /** The first truthy non-object slot that the write walk over `parents` steps
      into, if any. A falsy slot is replaced by a fresh object, so the walk never
      meets a blocker below it. */
  function Blocker(m: map<string, Value>, parents: seq<string>): Option<Value>
    decreases |parents|
  {
    if parents == [] then None
    else
      var k := parents[0];
      if k in m && Truthy(m[k]) then
        if m[k].Obj? then Blocker(m[k].fields, parents[1..]) else Some(m[k])
      else None
  }

  /** The container the write walk moves into at `k`: the existing object when
      the slot is truthy, a fresh empty object otherwise. */
  function Child(m: map<string, Value>, k: string): map<string, Value> {
    if k in m && Truthy(m[k]) && m[k].Obj? then m[k].fields else map[]
  }

  /** The tree after writing `v` at `leaf` below `parents`, replacing each missing
      or falsy intermediate by an object. */
  function SetIn(m: map<string, Value>, parents: seq<string>, leaf: string, v: Value): map<string, Value>
    requires Blocker(m, parents) == None
    decreases |parents|
  {
    if parents == [] then m[leaf := v]
    else m[parents[0] := Obj(SetIn(Child(m, parents[0]), parents[1..], leaf, v))]
  }

  /** The chain of fresh objects that a write below a missing intermediate creates. */
  function Fresh(parents: seq<string>, leaf: string, v: Value): map<string, Value>
    decreases |parents|
  {
    if parents == [] then map[leaf := v]
    else map[parents[0] := Obj(Fresh(parents[1..], leaf, v))]
  }

  /** The slot the write compares with the new value: the leaf property of the
      container that the read walk reaches, `undefined` when it reaches none. */
  function Existing(m: map<string, Value>, parents: seq<string>, leaf: string): Option<Value> {
    match Get(Obj(m), parents)
    case None => None
    case Some(c) => Prop(c, leaf)
  }

  /** The read walk answers exactly when every slot on the path is truthy, and
      then answers the raw slot at the end of the path. */
  lemma {:induction false} GetCharacterised(v: Value, keys: seq<string>)
    ensures Get(v, keys) ==
      if forall j :: 1 <= j <= |keys| ==> TruthySlot(At(v, keys[..j])) then At(v, keys) else None
    decreases |keys|
  {
    if keys != [] {
      var slot := Prop(v, keys[0]);
      assert keys[..1][1..] == [];
      assert At(v, keys[..1]) == slot;
      if TruthySlot(slot) {
        var w := slot.value;
        GetCharacterised(w, keys[1..]);
        forall j | 1 <= j <= |keys|
          ensures At(v, keys[..j]) == At(w, keys[1..][..j - 1])
        {
          assert keys[..j][1..] == keys[1..][..j - 1];
        }
        if forall j :: 1 <= j <= |keys[1..]| ==> TruthySlot(At(w, keys[1..][..j])) {
          forall j | 1 <= j <= |keys|
            ensures TruthySlot(At(v, keys[..j]))
          {
            if j > 1 {
              assert TruthySlot(At(w, keys[1..][..j - 1]));
            }
          }
        } else {
          var j :| 1 <= j <= |keys[1..]| && !TruthySlot(At(w, keys[1..][..j]));
          assert !TruthySlot(At(v, keys[..j + 1]));
        }
      } else {
        assert !TruthySlot(At(v, keys[..1]));
      }
    }
  }

  /** A stored `null`, `false`, `0` or `""` reads back as `undefined`, and so does
      everything below a missing or falsy slot. */
  lemma FalsyReadsUndefined(v: Value, keys: seq<string>, j: nat)
    requires 1 <= j <= |keys|
    requires !TruthySlot(At(v, keys[..j]))
    ensures Get(v, keys) == None
  {
    GetCharacterised(v, keys);
  }

  /** Reading one segment further extends the read walk by one step. */
  lemma {:induction false} GetAppend(v: Value, keys: seq<string>, k: string)
    ensures Get(v, keys + [k]) ==
      match Get(v, keys)
      case None => None
      case Some(c) => if TruthySlot(Prop(c, k)) then Prop(c, k) else None
    decreases |keys|
  {
    if keys == [] {
      assert keys + [k] == [k];
    } else {
      assert (keys + [k])[1..] == keys[1..] + [k];
      var slot := Prop(v, keys[0]);
      if TruthySlot(slot) {
        GetAppend(slot.value, keys[1..], k);
      }
    }
  }

  /** Following one segment further extends the raw path by one property read. */
  lemma {:induction false} AtAppend(v: Value, path: seq<string>, k: string)
    ensures At(v, path + [k]) ==
      match At(v, path)
      case None => None
      case Some(c) => Prop(c, k)
    decreases |path|
  {
    if path == [] {
      assert path + [k] == [k];
    } else {
      assert (path + [k])[1..] == path[1..] + [k];
      match Prop(v, path[0])
      case None =>
      case Some(w) => AtAppend(w, path[1..], k);
    }
  }

  /** Writing into a fresh object builds exactly the chain of fresh objects. */
  lemma {:induction false} SetInEmpty(parents: seq<string>, leaf: string, v: Value)
    ensures Blocker(map[], parents) == None
    ensures SetIn(map[], parents, leaf, v) == Fresh(parents, leaf, v)
    decreases |parents|
  {
    if parents != [] {
      SetInEmpty(parents[1..], leaf, v);
    }
  }

  /** Each container along a fresh chain is the fresh chain of the remaining path. */
  lemma {:induction false} FreshAt(parents: seq<string>, leaf: string, v: Value, d: nat)
    requires d <= |parents|
    ensures At(Obj(Fresh(parents, leaf, v)), parents[..d]) == Some(Obj(Fresh(parents[d..], leaf, v)))
    decreases d
  {
    if d > 0 {
      FreshAt(parents[1..], leaf, v, d - 1);
      assert parents[..d][1..] == parents[1..][..d - 1];
      assert parents[1..][d - 1..] == parents[d..];
    }
  }

  /** After a write the target leaf holds the written value, and every container
      on the way is an object that the read walk passes through. */
  lemma {:induction false} SetReachesLeaf(m: map<string, Value>, parents: seq<string>, leaf: string, v: Value)
    requires Blocker(m, parents) == None
    ensures Blocker(SetIn(m, parents, leaf, v), parents) == None
    ensures At(Obj(SetIn(m, parents, leaf, v)), parents + [leaf]) == Some(v)
    ensures Existing(SetIn(m, parents, leaf, v), parents, leaf) == Some(v)
    decreases |parents|
  {
    var s := SetIn(m, parents, leaf, v);
    if parents == [] {
      assert parents + [leaf] == [leaf];
    } else {
      var k := parents[0];
      var c := Child(m, k);
      SetReachesLeaf(c, parents[1..], leaf, v);
      assert (parents + [leaf])[1..] == parents[1..] + [leaf];
      var inner := SetIn(c, parents[1..], leaf, v);
      assert s[k] == Obj(inner);
      assert Get(Obj(s), parents) == Get(Obj(inner), parents[1..]);
    }
  }

  /** Round trip: the read walk over the written path gives back the written value
      when it is truthy, and `undefined` when it is falsy. */
  lemma {:induction false} SetThenGet(m: map<string, Value>, parents: seq<string>, leaf: string, v: Value)
    requires Blocker(m, parents) == None
    ensures Get(Obj(SetIn(m, parents, leaf, v)), parents + [leaf]) == if Truthy(v) then Some(v) else None
  {
    var s := SetIn(m, parents, leaf, v);
    SetReachesLeaf(m, parents, leaf, v);
    GetAppend(Obj(s), parents, leaf);
  }

  /** Auto-vivification. At each depth `d` of the path, the container after the
      write is an object. If the old slot there was truthy (the root always is),
      it keeps its keys and gains at most the next key of the path; if it was
      missing or falsy, it is replaced by a chain of fresh objects holding only
      the rest of the path. */
  lemma {:induction false} SetContainers(m: map<string, Value>, parents: seq<string>, leaf: string, v: Value, d: nat)
    requires Blocker(m, parents) == None
    requires d <= |parents|
    ensures var now := At(Obj(SetIn(m, parents, leaf, v)), parents[..d]);
            var was := At(Obj(m), parents[..d]);
            var next := if d < |parents| then parents[d] else leaf;
            now.Some? && now.value.Obj? &&
            (d == 0 || TruthySlot(was) ==>
               was.Some? && was.value.Obj? && now.value.fields.Keys == was.value.fields.Keys + {next}) &&
            (d != 0 && !TruthySlot(was) ==> now.value.fields == Fresh(parents[d..], leaf, v))
    decreases |parents|
  {
    var s := SetIn(m, parents, leaf, v);
    if d > 0 {
      var k := parents[0];
      var c := Child(m, k);
      var inner := SetIn(c, parents[1..], leaf, v);
      assert parents[..d][1..] == parents[1..][..d - 1];
      assert parents[1..][d - 1..] == parents[d..];
      assert At(Obj(s), parents[..d]) == At(Obj(inner), parents[1..][..d - 1]);
      if k in m && Truthy(m[k]) {
        assert At(Obj(m), parents[..d]) == At(Obj(c), parents[1..][..d - 1]);
        SetContainers(c, parents[1..], leaf, v, d - 1);
      } else {
        SetInEmpty(parents[1..], leaf, v);
        FreshAt(parents[1..], leaf, v, d - 1);
        if d > 1 {
          assert At(Obj(m), parents[..d]) == None;
        }
      }
    }
  }

  /** Frame: every path that neither leads to the written leaf nor lies below it
      reads the same raw slot before and after the write; so siblings at every
      level keep their values. */
  lemma {:induction false} SetFrame(m: map<string, Value>, parents: seq<string>, leaf: string, v: Value, q: seq<string>)
    requires Blocker(m, parents) == None
    requires !(q <= parents + [leaf]) && !(parents + [leaf] <= q)
    ensures At(Obj(SetIn(m, parents, leaf, v)), q) == At(Obj(m), q)
    decreases |parents|
  {
    var s := SetIn(m, parents, leaf, v);
    var target := parents + [leaf];
    assert q != [];
    if q[0] != target[0] {
      assert Prop(Obj(s), q[0]) == Prop(Obj(m), q[0]);
    } else {
      assert target[..1] == q[..1];
      assert parents != [];
      assert |q| >= 2;
      var k := parents[0];
      assert q[0] == target[0] == k;
      var c := Child(m, k);
      var inner := SetIn(c, parents[1..], leaf, v);
      assert target[1..] == parents[1..] + [leaf];
      PrefixTail(q, target);
      PrefixTail(target, q);
      SetFrame(c, parents[1..], leaf, v, q[1..]);
      assert At(Obj(s), q) == At(Obj(inner), q[1..]);
      if !(k in m && Truthy(m[k])) {
        assert At(Obj(c), q[1..]) == None;
        assert At(Obj(m), q) == None;
      }
    }
  }

  /** Two paths that start with the same key are prefix-related exactly when their tails are. */
  lemma PrefixTail(a: seq<string>, b: seq<string>)
    requires a != [] && b != [] && a[0] == b[0]
    ensures (a <= b) == (a[1..] <= b[1..])
  {
  }
}
