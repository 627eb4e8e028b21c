/** Dynamic values stored in the backing container and the key-path
    operations the scoped storage performs on them: reading along a path,
    testing that a path exists, setting and unsetting at a path. Containers
    are string-keyed objects; every other value is a primitive. */
module Values {

  datatype Option<+T> = None | Some(value: T)

  datatype Error = TypeError

  /** The outcome of an asynchronous read: a value, or a rejected promise. */
  datatype Result<+T> = Ok(value: T) | Err(error: Error)

  datatype Value =
    | Null
    | Bool(b: bool)
    | Num(n: int)
    | Str(s: string)
    | Obj(fields: map<string, Value>)

  /** JavaScript truthiness, the condition of `if (item)`. */
  predicate Truthy(v: Value) {
    match v
    case Null => false
    case Bool(b) => b
    case Num(n) => n != 0
    case Str(s) => s != ""
    case Obj(_) => true
  }

  /** Lookup along a key path; None stands for `undefined`.
      The empty path yields the value itself. */
  function Get(v: Value, p: seq<string>): Option<Value>
    decreases |p|
  {
    if p == [] then Some(v)
    else if v.Obj? && p[0] in v.fields then Get(v.fields[p[0]], p[1..])
    else None
  }

  /** Own-property test along a key path, one segment at a time; the empty
      path is never present. */
  predicate Has(v: Value, p: seq<string>)
    decreases |p|
  {
    p != [] && v.Obj? && p[0] in v.fields && (|p| == 1 || Has(v.fields[p[0]], p[1..]))
  }

  /** Every node along `p`, from `v` down to the one `p` names, is an object. */
  predicate ObjectsAlong(v: Value, p: seq<string>)
    decreases |p|
  {
    v.Obj? && (p == [] || (p[0] in v.fields && ObjectsAlong(v.fields[p[0]], p[1..])))
  }

  /** Two key paths that name unrelated locations: at some position both
      have a key and the keys differ. */
  predicate Diverges(p: seq<string>, q: seq<string>)
    decreases |p|
  {
    p != [] && q != [] && (p[0] != q[0] || Diverges(p[1..], q[1..]))
  }

  /** Assignment at a key path: nothing happens unless `v` is an object;
      a missing or non-object intermediate is replaced by an empty object. */
  function SetAt(v: Value, p: seq<string>, x: Value): Value
    decreases |p|
  {
    if !v.Obj? || p == [] then v
    else if |p| == 1 then Obj(v.fields[p[0] := x])
    else
      var child := if p[0] in v.fields && v.fields[p[0]].Obj? then v.fields[p[0]] else Obj(map[]);
      Obj(v.fields[p[0] := SetAt(child, p[1..], x)])
  }

  /** Deletion at a key path: the parent is reached by lookup, nothing is
      created, and a missing or non-object parent leaves `v` as it is. */
  function UnsetAt(v: Value, p: seq<string>): Value
    requires p != []
    decreases |p|
  {
    if !v.Obj? then v
    else if |p| == 1 then Obj(v.fields - {p[0]})
    else if p[0] in v.fields then Obj(v.fields[p[0] := UnsetAt(v.fields[p[0]], p[1..])])
    else v
  }

  lemma {:induction false} HasIffGet(v: Value, p: seq<string>)
    ensures Has(v, p) <==> p != [] && Get(v, p).Some?
    decreases |p|
  {
    if |p| > 1 && v.Obj? && p[0] in v.fields {
      HasIffGet(v.fields[p[0]], p[1..]);
    }
  }

  /** Looking up `p + q` is looking up `p`, then `q` in what was found. */
  lemma {:induction false} GetAppend(v: Value, p: seq<string>, q: seq<string>)
    ensures Get(v, p + q) == if Get(v, p).Some? then Get(Get(v, p).value, q) else None
    decreases |p|
  {
    if p == [] {
      assert p + q == q;
    } else {
      assert (p + q)[0] == p[0];
      assert (p + q)[1..] == p[1..] + q;
      if v.Obj? && p[0] in v.fields {
        GetAppend(v.fields[p[0]], p[1..], q);
      }
    }
  }

  lemma {:induction false} ObjectsAlongIffGet(v: Value, p: seq<string>)
    ensures ObjectsAlong(v, p) <==> forall j :: 0 <= j <= |p| ==> Get(v, p[..j]).Some? && Get(v, p[..j]).value.Obj?
    decreases |p|
  {
    if p == [] {
      assert p[..0] == [];
    } else {
      assert p[..0] == [];
      if v.Obj? && p[0] in v.fields {
        ObjectsAlongIffGet(v.fields[p[0]], p[1..]);
        forall j | 1 <= j <= |p| ensures Get(v, p[..j]) == Get(v.fields[p[0]], p[1..][..j - 1]) {
          assert p[..j][0] == p[0] && p[..j][1..] == p[1..][..j - 1];
        }
        if !ObjectsAlong(v, p) {
          var j :| 0 <= j <= |p[1..]| && !(Get(v.fields[p[0]], p[1..][..j]).Some? && Get(v.fields[p[0]], p[1..][..j]).value.Obj?);
          assert Get(v, p[..j + 1]) == Get(v.fields[p[0]], p[1..][..j]);
        }
      } else {
        assert p[..1] == [p[0]];
        assert Get(v, p[..1]).None? || !v.Obj?;
      }
    }
  }

  /** After setting, the path holds the value that was set. */
  lemma {:induction false} SetThenGet(v: Value, p: seq<string>, x: Value)
    requires v.Obj? && p != []
    ensures Get(SetAt(v, p, x), p) == Some(x)
    decreases |p|
  {
    if |p| > 1 {
      var child := if p[0] in v.fields && v.fields[p[0]].Obj? then v.fields[p[0]] else Obj(map[]);
      SetThenGet(child, p[1..], x);
    }
  }

  /** Setting creates every intermediate object along the path. */
  lemma {:induction false} SetCreatesObjects(v: Value, p: seq<string>, x: Value)
    requires v.Obj? && p != []
    ensures ObjectsAlong(SetAt(v, p, x), p[..|p| - 1])
    decreases |p|
  {
    if |p| > 1 {
      var child := if p[0] in v.fields && v.fields[p[0]].Obj? then v.fields[p[0]] else Obj(map[]);
      SetCreatesObjects(child, p[1..], x);
      assert p[..|p| - 1][0] == p[0];
      assert p[..|p| - 1][1..] == p[1..][..|p[1..]| - 1];
    }
  }

  /** Setting at `p` changes nothing at a path that diverges from `p`. */
  lemma {:induction false} SetFrame(v: Value, p: seq<string>, x: Value, q: seq<string>)
    requires Diverges(p, q)
    ensures Get(SetAt(v, p, x), q) == Get(v, q)
    decreases |p|
  {
    if v.Obj? && p[0] == q[0] {
      var child := if p[0] in v.fields && v.fields[p[0]].Obj? then v.fields[p[0]] else Obj(map[]);
      SetFrame(child, p[1..], x, q[1..]);
      if !(p[0] in v.fields && v.fields[p[0]].Obj?) {
        assert Get(child, q[1..]) == None;
        if p[0] in v.fields {
          assert Get(v.fields[p[0]], q[1..]) == None;
        }
      }
    }
  }

  /** After unsetting, nothing is left at the path. */
  lemma {:induction false} UnsetThenGet(v: Value, p: seq<string>)
    requires p != []
    ensures Get(UnsetAt(v, p), p) == None
    decreases |p|
  {
    if v.Obj? && |p| > 1 && p[0] in v.fields {
      UnsetThenGet(v.fields[p[0]], p[1..]);
    }
  }

  /** Unsetting at `p` changes nothing at a path that diverges from `p`. */
  lemma {:induction false} UnsetFrame(v: Value, p: seq<string>, q: seq<string>)
    requires p != [] && Diverges(p, q)
    ensures Get(UnsetAt(v, p), q) == Get(v, q)
    decreases |p|
  {
    if v.Obj? && |p| > 1 && p[0] == q[0] && p[0] in v.fields {
      UnsetFrame(v.fields[p[0]], p[1..], q[1..]);
    }
  }

  /** Unsetting a path that holds nothing leaves the value as it is; with
      UnsetThenGet this makes unsetting idempotent. */
  lemma {:induction false} UnsetAbsent(v: Value, p: seq<string>)
    requires p != [] && Get(v, p) == None
    ensures UnsetAt(v, p) == v
    decreases |p|
  {
    if v.Obj? {
      if |p| == 1 {
        assert v.fields - {p[0]} == v.fields;
      } else if p[0] in v.fields {
        UnsetAbsent(v.fields[p[0]], p[1..]);
        assert v.fields[p[0] := v.fields[p[0]]] == v.fields;
      }
    }
  }
}
