/** The descent `initialize` performs along the nested keys of a scope:
    every segment whose value is not an object gets a fresh one, the
    initializer's object at the scope's own key and an empty object at
    the intermediate keys; objects already there are kept. */
module Materialize {
  import opened Values

  /** The object that replaces a non-object value at a segment. */
  function Fallback(atScopeKey: bool, init: map<string, Value>): map<string, Value> {
    if atScopeKey then init else map[]
  }

  /** The descent, deciding "the scope's own key" by position: the last
      segment gets the initializer's object. */
  function Materialize(m: map<string, Value>, segs: seq<string>, init: map<string, Value>): map<string, Value>
    decreases |segs|
  {
    if segs == [] then m
    else
      var k := segs[0];
      var child := if k in m && m[k].Obj? then m[k].fields else Fallback(|segs| == 1, init);
      m[k := Obj(Materialize(child, segs[1..], init))]
  }

  /** The descent as the source writes it: a segment counts as the scope's
      own key when its NAME equals the last key of the path. It too keeps
      every key and leaves an object at every segment; only which object a
      missing segment gets differs from Materialize. */
  function MaterializeByName(m: map<string, Value>, segs: seq<string>, lastKey: string, init: map<string, Value>): (r: map<string, Value>)
    ensures m.Keys <= r.Keys
    ensures ObjectsAlong(Obj(r), segs)
    decreases |segs|
  {
    if segs == [] then m
    else
      var k := segs[0];
      var child := if k in m && m[k].Obj? then m[k].fields else Fallback(k == lastKey, init);
      m[k := Obj(MaterializeByName(child, segs[1..], lastKey, init))]
  }

  /** The object found at the end of the descent: the one already there,
      or the initializer's. */
  function LeafAfter(m: map<string, Value>, segs: seq<string>, init: map<string, Value>): Value {
    var found := Get(Obj(m), segs);
    if found.Some? && found.value.Obj? then found.value else Obj(init)
  }

  /** The descent is one assignment at the scope's path: intermediates are
      created exactly as SetAt creates them, and the scope's key receives
      LeafAfter. */
  lemma {:induction false} MaterializeIsSetAt(m: map<string, Value>, segs: seq<string>, init: map<string, Value>)
    requires segs != []
    ensures Obj(Materialize(m, segs, init)) == SetAt(Obj(m), segs, LeafAfter(m, segs, init))
    decreases |segs|
  {
    var k := segs[0];
    if |segs| == 1 {
      assert segs[1..] == [];
      assert Get(Obj(m), segs) == if k in m then Some(m[k]) else None;
    } else {
      var child := if k in m && m[k].Obj? then m[k].fields else map[];
      MaterializeIsSetAt(child, segs[1..], init);
      assert LeafAfter(m, segs, init) == LeafAfter(child, segs[1..], init) by {
        if !(k in m && m[k].Obj?) {
          assert Get(Obj(child), segs[1..]) == None;
          if k in m {
            assert Get(m[k], segs[1..]) == None;
          }
        }
      }
    }
  }

  /** Afterwards every segment of the scope's path is an object. */
  lemma {:induction false} MaterializeMakesObjects(m: map<string, Value>, segs: seq<string>, init: map<string, Value>)
    ensures ObjectsAlong(Obj(Materialize(m, segs, init)), segs)
    decreases |segs|
  {
    if segs != [] {
      var k := segs[0];
      var child := if k in m && m[k].Obj? then m[k].fields else Fallback(|segs| == 1, init);
      MaterializeMakesObjects(child, segs[1..], init);
    }
  }

  /** The scope's own value afterwards: kept if it was an object, otherwise
      the initializer's object. */
  lemma MaterializeLeaf(m: map<string, Value>, segs: seq<string>, init: map<string, Value>)
    requires segs != []
    ensures Get(Obj(Materialize(m, segs, init)), segs) == Some(LeafAfter(m, segs, init))
  {
    MaterializeIsSetAt(m, segs, init);
    SetThenGet(Obj(m), segs, LeafAfter(m, segs, init));
  }

  /** Locations off the scope's path are untouched. */
  lemma MaterializeFrame(m: map<string, Value>, segs: seq<string>, init: map<string, Value>, q: seq<string>)
    requires Diverges(segs, q)
    ensures Get(Obj(Materialize(m, segs, init)), q) == Get(Obj(m), q)
  {
    MaterializeIsSetAt(m, segs, init);
    SetFrame(Obj(m), segs, LeafAfter(m, segs, init), q);
  }

  /** A path that is already all objects is left exactly as it is. */
  lemma {:induction false} MaterializeKeeps(m: map<string, Value>, segs: seq<string>, init: map<string, Value>)
    requires ObjectsAlong(Obj(m), segs)
    ensures Materialize(m, segs, init) == m
    decreases |segs|
  {
    if segs != [] {
      var k := segs[0];
      MaterializeKeeps(m[k].fields, segs[1..], init);
      assert m[k := Obj(m[k].fields)] == m;
    }
  }

  /** Running the descent twice is the same as running it once. */
  lemma MaterializeIdempotent(m: map<string, Value>, segs: seq<string>, init: map<string, Value>)
    ensures Materialize(Materialize(m, segs, init), segs, init) == Materialize(m, segs, init)
  {
    MaterializeMakesObjects(m, segs, init);
    MaterializeKeeps(Materialize(m, segs, init), segs, init);
  }

  /** Comparing by name agrees with comparing by position whenever the last
      key does not also name an intermediate segment. */
  lemma {:induction false} ByNameAgrees(m: map<string, Value>, segs: seq<string>, init: map<string, Value>)
    requires segs != [] && segs[|segs| - 1] !in segs[..|segs| - 1]
    ensures MaterializeByName(m, segs, segs[|segs| - 1], init) == Materialize(m, segs, init)
    decreases |segs|
  {
    var k := segs[0];
    var lastKey := segs[|segs| - 1];
    if |segs| > 1 {
      assert k in segs[..|segs| - 1];
      var child := if k in m && m[k].Obj? then m[k].fields else map[];
      var rest := segs[1..];
      assert rest[|rest| - 1] == lastKey;
      assert rest[..|rest| - 1] == segs[1..|segs| - 1];
      assert segs[..|segs| - 1] == [k] + rest[..|rest| - 1];
      ByNameAgrees(child, rest, init);
    }
  }

  /** On an empty root entry, the path ["a", "a"] with an initializer whose
      object already holds "a" leaves the scope seeing the initializer's
      inner value instead of the initializer's object; comparing by position
      yields the initializer's object. */
  lemma ByNameCounterexample()
    ensures var init := map["a" := Obj(map["y" := Num(2)])];
            var segs := ["a", "a"];
            Get(Obj(MaterializeByName(map[], segs, "a", init)), segs) == Some(Obj(map["y" := Num(2)]))
            && Get(Obj(Materialize(map[], segs, init)), segs) == Some(Obj(init))
            && Obj(map["y" := Num(2)]) != Obj(init)
  {
    var init := map["a" := Obj(map["y" := Num(2)])];
    var segs := ["a", "a"];
    assert segs[1..] == ["a"];
    assert "a" in init;
    assert Obj(map["y" := Num(2)]) != Obj(init) by {
      assert "a" !in map["y" := Num(2)];
    }
  }

  /** The corrected, by-position descent done step by step: each
      non-object segment is overwritten in turn while going down the path,
      in the shape of the source's reduce, but with the initializer chosen
      for the last segment by its position rather than its name. */
  method MaterializeSteps(item: map<string, Value>, segs: seq<string>, init: map<string, Value>)
    returns (r: map<string, Value>)
    ensures r == Materialize(item, segs, init)
  {
    r := item;
    var i := 0;
    while i < |segs|
      invariant 0 <= i <= |segs|
      invariant ObjectsAlong(Obj(r), segs[..i])
      invariant Materialize(r, segs, init) == Materialize(item, segs, init)
    {
      var here := Get(Obj(r), segs[..i + 1]);
      if here.Some? && here.value.Obj? {
        ObjectsAlongExtend(Obj(r), segs, i);
      } else {
        StepPreserves(r, segs, i, init);
        r := SetAt(Obj(r), segs[..i + 1], Obj(Fallback(i == |segs| - 1, init))).fields;
      }
      i := i + 1;
    }
    assert segs[..i] == segs;
    MaterializeKeeps(r, segs, init);
  }

  lemma {:induction false} ObjectsAlongExtend(v: Value, segs: seq<string>, i: nat)
    requires i < |segs| && ObjectsAlong(v, segs[..i])
    requires Get(v, segs[..i + 1]).Some? && Get(v, segs[..i + 1]).value.Obj?
    ensures ObjectsAlong(v, segs[..i + 1])
    decreases i
  {
    assert segs[..i + 1][0] == segs[0];
    if i > 0 {
      assert segs[..i][1..] == segs[1..][..i - 1];
      assert segs[..i + 1][1..] == segs[1..][..i];
      ObjectsAlongExtend(v.fields[segs[0]], segs[1..], i - 1);
    }
  }

  /** One step of the descent replaces the non-object at segment `i` by its
      fallback, keeps the objects above it, and does not change what the
      whole descent produces. */
  lemma {:induction false} StepPreserves(r: map<string, Value>, segs: seq<string>, i: nat, init: map<string, Value>)
    requires i < |segs| && ObjectsAlong(Obj(r), segs[..i])
    requires var here := Get(Obj(r), segs[..i + 1]); !(here.Some? && here.value.Obj?)
    ensures var r' := SetAt(Obj(r), segs[..i + 1], Obj(Fallback(i == |segs| - 1, init)));
            r'.Obj? && ObjectsAlong(r', segs[..i + 1])
            && Materialize(r'.fields, segs, init) == Materialize(r, segs, init)
    decreases i
  {
    var k := segs[0];
    var fb := Obj(Fallback(i == |segs| - 1, init));
    assert segs[..i + 1][0] == k;
    if i == 0 {
      assert segs[..1] == [k];
    } else {
      assert segs[..i][1..] == segs[1..][..i - 1];
      assert segs[..i + 1][1..] == segs[1..][..i];
      StepPreserves(r[k].fields, segs[1..], i - 1, init);
      var inner := SetAt(r[k], segs[1..][..i], fb);
      assert SetAt(Obj(r), segs[..i + 1], fb) == Obj(r[k := inner]);
    }
  }
}
