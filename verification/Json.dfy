/** JSON documents, the draft merge over them, and the field diff a rollback writes. */
module Json {
  import opened Wrappers

  datatype J =
    | Null | Bool(b: bool) | Num(n: int) | Str(s: string)
    | Arr(items: seq<J>)
    | Obj(fields: map<string, J>)

  type Fields = map<string, J>

  // Reading into a map accepts an object, and null as a map that cannot be written to.
  predicate ReadsAsObject(j: J) { j.Obj? || j.Null? }

  // Laying `over` over `under`: key by key where both read as objects, whole otherwise.
  function Merge(under: J, over: J): J
    decreases over
  {
    if !ReadsAsObject(under) || !ReadsAsObject(over) then over
    else if under.Null? || over.Null? then under
    else Obj(map k | k in under.fields.Keys + over.fields.Keys ::
      if k !in over.fields then under.fields[k]
      else if k !in under.fields then over.fields[k]
      else Merge(under.fields[k], over.fields[k]))
  }

  // The merge writes into a nil map, and so panics, when a non-empty object meets a null.
  predicate Panics(under: J, over: J)
    decreases over
  {
    over.Obj? &&
    if under.Null? then over.fields != map[]
    else under.Obj? && exists k | k in over.fields && k in under.fields :: Panics(under.fields[k], over.fields[k])
  }

  // The in-place merge, taking the keys of src in an arbitrary order.
  method DeepMerge(dst: J, src: J) returns (out: J, panicked: bool)
    requires ReadsAsObject(dst) && ReadsAsObject(src)
    ensures panicked <==> Panics(dst, src)
    ensures !panicked ==> out == Merge(dst, src)
    decreases src
  {
    out, panicked := dst, false;
    if src.Null? { return; }
    var todo := src.fields.Keys;
    ghost var done: set<string> := {};
    while todo != {}
      invariant todo !! done && todo + done == src.fields.Keys
      invariant dst.Null? ==> done == {} && out == dst
      invariant dst.Obj? ==> out.Obj? && out.fields.Keys == dst.fields.Keys + done
      invariant dst.Obj? ==> forall k | k in dst.fields && k !in done :: out.fields[k] == dst.fields[k]
      invariant dst.Obj? ==> forall k | k in done ::
        out.fields[k] == (if k in dst.fields then Merge(dst.fields[k], src.fields[k]) else src.fields[k])
      invariant dst.Obj? ==> forall k | k in done && k in dst.fields :: !Panics(dst.fields[k], src.fields[k])
    {
      var k :| k in todo;
      if out.Null? { panicked := true; return; }
      var v := src.fields[k];
      if k !in out.fields {
        out := Obj(out.fields[k := v]);
      } else if ReadsAsObject(out.fields[k]) && ReadsAsObject(v) {
        var merged, bad := DeepMerge(out.fields[k], v);
        if bad { panicked := true; return; }
        out := Obj(out.fields[k := merged]);
      } else {
        out := Obj(out.fields[k := v]);
      }
      todo := todo - {k};
      done := done + {k};
    }
    if dst.Obj? {
      assert out.fields == Merge(dst, src).fields;
    }
  }

  // Laying a document over itself changes nothing and never panics.
  lemma {:induction false} MergeWithItself(j: J)
    ensures Merge(j, j) == j && !Panics(j, j)
    decreases j
  {
    if j.Obj? {
      forall k | k in j.fields
        ensures Merge(j.fields[k], j.fields[k]) == j.fields[k] && !Panics(j.fields[k], j.fields[k])
      {
        MergeWithItself(j.fields[k]);
      }
      assert Merge(j, j).fields == j.fields;
    }
  }

  // Nothing of `under` shows through `over`.
  predicate Hides(over: J, under: J)
    decreases over
  {
    if !ReadsAsObject(over) || !ReadsAsObject(under) then true
    else if under.Null? || over.Null? then over == under
    else under.fields.Keys <= over.fields.Keys
         && forall k | k in over.fields && k in under.fields :: Hides(over.fields[k], under.fields[k])
  }

  // When exactly a merge reproduces what was laid over.
  lemma {:induction false} MergeRestoresExactlyWhenHidden(under: J, over: J)
    ensures Merge(under, over) == over <==> Hides(over, under)
    decreases over
  {
    if under.Obj? && over.Obj? {
      forall k | k in over.fields && k in under.fields
        ensures Merge(under.fields[k], over.fields[k]) == over.fields[k] <==> Hides(over.fields[k], under.fields[k])
      {
        MergeRestoresExactlyWhenHidden(under.fields[k], over.fields[k]);
      }
      var m := Merge(under, over).fields;
      assert m.Keys == under.fields.Keys + over.fields.Keys;
      if Hides(over, under) {
        assert m == over.fields;
      }
      if m == over.fields {
        assert forall k | k in over.fields && k in under.fields :: m[k] == over.fields[k];
      }
    }
  }

  // ---------------------------------------------------------------- the rollback diff

  const VERSION := "version"

  function WithoutVersion(f: Fields): Fields { f - {VERSION} }

  // The fields of `want` that differ from `cur`, never the version.
  function Diff(cur: Fields, want: Fields): Fields {
    map k | k in want && k != VERSION && (k !in cur || cur[k] != want[k]) :: want[k]
  }

  method FieldDiff(cur: Fields, want: Fields) returns (patch: Fields)
    ensures patch == Diff(cur, want)
  {
    patch := map[];
    var todo := want.Keys;
    while todo != {}
      invariant todo <= want.Keys
      invariant patch == map k | k in want && k !in todo && k != VERSION && (k !in cur || cur[k] != want[k]) :: want[k]
    {
      var k :| k in todo;
      todo := todo - {k};
      if k != VERSION && (k !in cur || cur[k] != want[k]) {
        patch := patch[k := want[k]];
      }
    }
  }

  // Merging only the differing fields does what merging the whole snapshot would do,
  // and panics in exactly the same cases.
  lemma DiffMergesLikeWholeSnapshot(live: Fields, snap: Fields)
    ensures Merge(Obj(live), Obj(Diff(live, snap))) == Merge(Obj(live), Obj(WithoutVersion(snap)))
    ensures Panics(Obj(live), Obj(Diff(live, snap))) <==> Panics(Obj(live), Obj(WithoutVersion(snap)))
  {
    forall k | k in live ensures Merge(live[k], live[k]) == live[k] && !Panics(live[k], live[k]) {
      MergeWithItself(live[k]);
    }
    var d, w := Diff(live, snap), WithoutVersion(snap);
    assert forall k | k in d :: k in w && d[k] == w[k];
    assert forall k | k in w && k !in d :: k in live && live[k] == w[k];
    assert Merge(Obj(live), Obj(d)).fields == Merge(Obj(live), Obj(w)).fields;
    if k :| k in w && k in live && Panics(live[k], w[k]) {
      assert k in d && Panics(live[k], d[k]);
    }
    if k :| k in d && k in live && Panics(live[k], d[k]) {
      assert k in w && Panics(live[k], w[k]);
    }
  }
}
