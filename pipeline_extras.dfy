/** Attaching and stripping the transient `extras._pipeline` side channel on
    every object of a glTF JSON tree (lib/addPipelineExtras.js and
    lib/removePipelineExtras.js).  The explicit object stack of the source is
    modelled as structural recursion: JSON trees are trees, every popped value
    is processed exactly once and disjoint subtrees do not interact, so the
    final tree does not depend on the visiting order. */
module PipelineExtras {
  import opened Wrappers
  import opened Json

  // ---------------------------------------------------------------------------
  // addPipelineExtras

  /** The `exceptions` table: values under these keys are not descended into. */
  predicate IsException(k: string) {
    k == "attributes" || k == "targets" || k == "extensions" || k == "extras"
  }

  /** `extras` is absent, null, an object, an array or a typed array, so that
      assigning `extras._pipeline` does not throw under strict mode (only a
      number, string or boolean `extras` refuses a property). */
  predicate ExtrasAssignable(fs: seq<Field>) {
    var e := Lookup(fs, "extras");
    !Defined(e) || e.value.JObj? || HiddenExtras(fs)
  }

  /** `extras` is an array or a typed array: `_pipeline` is assigned on it as
      a named property, which JSON does not hold, so the tree is unchanged. */
  predicate HiddenExtras(fs: seq<Field>) {
    var e := Lookup(fs, "extras");
    Defined(e) && (e.value.JArr? || e.value.JBytes?)
  }

  /** Every object the add pass visits has an assignable `extras`. */
  predicate AddOk(j: Json)
    decreases j
  {
    match j
    case JArr(es) => forall i :: 0 <= i < |es| ==> AddOk(es[i])
    case JObj(fs) =>
      && ExtrasAssignable(fs)
      && forall i :: 0 <= i < |fs| ==> !IsException(fs[i].key) ==> AddOk(fs[i].value)
    case _ => true
  }

  /** The object carries a defined `extras._pipeline`. */
  predicate HasPipeline(fs: seq<Field>) {
    var e := Lookup(fs, "extras");
    Defined(e) && e.value.JObj? && Defined(Lookup(e.value.fields, "_pipeline"))
  }

  /** `object.extras = defaultValue(object.extras, {})` followed by
      `object.extras._pipeline = defaultValue(object.extras._pipeline, {})`. */
  function AddExtras(fs: seq<Field>): (r: seq<Field>)
    requires ExtrasAssignable(fs)
    ensures !HiddenExtras(fs) ==> HasPipeline(r)
    ensures HiddenExtras(fs) ==> r == fs
    ensures forall k :: k != "extras" ==> Lookup(r, k) == Lookup(fs, k)
    ensures forall i :: 0 <= i < |r| ==> r[i].key == "extras" || (i < |fs| && r[i] == fs[i])
    ensures HasPipeline(fs) ==> r == fs
    ensures !Tagged(fs) ==> Lookup(Lookup(r, "extras").value.fields, "_pipeline") == Some(JObj([]))
    ensures Defined(Lookup(fs, "extras")) && Lookup(fs, "extras").value.JObj? ==>
      forall k :: k != "_pipeline" ==>
        Lookup(Lookup(r, "extras").value.fields, k) == Lookup(Lookup(fs, "extras").value.fields, k)
    ensures Defined(Lookup(fs, "extras")) && Lookup(fs, "extras").value.JObj?
            && Defined(Lookup(Lookup(fs, "extras").value.fields, "_pipeline")) ==>
      Lookup(Lookup(r, "extras").value.fields, "_pipeline") == Lookup(Lookup(fs, "extras").value.fields, "_pipeline")
  {
    var e := Lookup(fs, "extras");
    var ext := if Defined(e) && e.value.JObj? then e.value.fields else [];
    var ext' := SetDefault(ext, "_pipeline", JObj([]));
    if HasPipeline(fs) || HiddenExtras(fs) then
      PutSame(fs, "extras");
      fs
    else
      PutElems(fs, "extras", JObj(ext'));
      Put(fs, "extras", JObj(ext'))
  }

  /** The children of an object after the add pass: values under exception
      keys are kept, all others are processed. */
  function AddChildren(fs: seq<Field>): (r: seq<Field>)
    requires forall i :: 0 <= i < |fs| ==> !IsException(fs[i].key) ==> AddOk(fs[i].value)
    ensures |r| == |fs|
    ensures forall i :: 0 <= i < |fs| ==> r[i].key == fs[i].key
    ensures forall i :: 0 <= i < |fs| ==>
      r[i].value == if IsException(fs[i].key) then fs[i].value else Add(fs[i].value)
    ensures forall k :: IsException(k) ==> Lookup(r, k) == Lookup(fs, k)
    decreases fs
  {
    if fs == [] then []
    else
      var v := if IsException(fs[0].key) then fs[0].value else Add(fs[0].value);
      [Field(fs[0].key, v)] + AddChildren(fs[1..])
  }

  /** addPipelineExtras: arrays are walked element by element, objects get
      `extras._pipeline` and are walked through their non-exception
      properties, other values are left alone.  (The source assigns `extras`
      before walking the properties; `extras` is an exception key, so walking
      first gives the same tree.) */
  function Add(j: Json): (r: Json)
    requires AddOk(j)
    ensures !j.JArr? && !j.JObj? ==> r == j
    ensures j.JArr? ==> r.JArr? && |r.elems| == |j.elems|
    ensures j.JArr? ==> forall i :: 0 <= i < |j.elems| ==> r.elems[i] == Add(j.elems[i])
    ensures j.JObj? ==> r.JObj? && Tagged(r.fields)
    ensures j.JObj? ==> (HiddenExtras(r.fields) <==> HiddenExtras(j.fields))
    ensures j.JObj? && !HiddenExtras(j.fields) ==> HasPipeline(r.fields)
    ensures j.JObj? && !Tagged(j.fields) ==>
      Lookup(Lookup(r.fields, "extras").value.fields, "_pipeline") == Some(JObj([]))
    decreases j
  {
    match j
    case JArr(es) => JArr(seq(|es|, i requires 0 <= i < |es| => Add(es[i])))
    case JObj(fs) => JObj(AddExtras(AddChildren(fs)))
    case _ => j
  }

  /** A property outside the exception keys reads, after the add pass, as
      the add pass applied to its old value. */
  lemma {:induction false} LookupAdd(fs: seq<Field>, k: string)
    requires AddOk(JObj(fs))
    requires !IsException(k) && Lookup(fs, k).Some?
    ensures AddOk(Lookup(fs, k).value)
    ensures Lookup(Add(JObj(fs)).fields, k) == Some(Add(Lookup(fs, k).value))
  {
    LookupChildren(fs, k);
  }

  lemma {:induction false} LookupChildren(fs: seq<Field>, k: string)
    requires forall i :: 0 <= i < |fs| ==> !IsException(fs[i].key) ==> AddOk(fs[i].value)
    requires !IsException(k) && Lookup(fs, k).Some?
    ensures AddOk(Lookup(fs, k).value)
    ensures Lookup(AddChildren(fs), k) == Some(Add(Lookup(fs, k).value))
    decreases fs
  {
    if fs[0].key != k {
      LookupChildren(fs[1..], k);
    }
  }

  /** The object carries `extras._pipeline`: in JSON, or as the named
      property of an array or typed array `extras`. */
  predicate Tagged(fs: seq<Field>) {
    HasPipeline(fs) || HiddenExtras(fs)
  }

  /** An object whose `extras` is an array comes back from the add pass as
      it was; one whose `extras` is a number, string or boolean is outside
      the pass's domain, because the source's assignment throws. */
  lemma ExtrasDomain(x: Json)
    ensures x.JArr? || x.JBytes? ==>
      var j := JObj([Field("extras", x)]);
      AddOk(j) && Add(j) == j
    ensures x.JNum? || x.JStr? || x.JBool? ==> !AddOk(JObj([Field("extras", x)]))
  {
    if x.JArr? || x.JBytes? {
      var fs := [Field("extras", x)];
      assert AddChildren(fs) == fs;
    }
  }

  /** Every object reachable without passing through an exception key
      carries `extras._pipeline`. */
  predicate AllTagged(j: Json)
    decreases j
  {
    match j
    case JArr(es) => forall i :: 0 <= i < |es| ==> AllTagged(es[i])
    case JObj(fs) =>
      && Tagged(fs)
      && forall i :: 0 <= i < |fs| ==> !IsException(fs[i].key) ==> AllTagged(fs[i].value)
    case _ => true
  }

  lemma {:induction false} AddTagsEverything(j: Json)
    requires AddOk(j)
    ensures AllTagged(Add(j))
    decreases j
  {
    match j
    case JArr(es) =>
      forall i | 0 <= i < |es| ensures AllTagged(Add(j).elems[i]) {
        AddTagsEverything(es[i]);
      }
    case JObj(fs) =>
      var c := AddChildren(fs);
      var r := AddExtras(c);
      forall i | 0 <= i < |r| && !IsException(r[i].key) ensures AllTagged(r[i].value) {
        assert r[i] == c[i];
        AddTagsEverything(fs[i].value);
      }
    case _ =>
  }

  /** The result of the add pass is again a valid input of it. */
  lemma {:induction false} AddKeepsOk(j: Json)
    requires AddOk(j)
    ensures AddOk(Add(j))
    decreases j
  {
    match j
    case JArr(es) =>
      forall i | 0 <= i < |es| ensures AddOk(Add(j).elems[i]) {
        AddKeepsOk(es[i]);
      }
    case JObj(fs) =>
      var c := AddChildren(fs);
      var r := AddExtras(c);
      forall i | 0 <= i < |r| && !IsException(r[i].key) ensures AddOk(r[i].value) {
        assert r[i] == c[i];
        AddKeepsOk(fs[i].value);
      }
    case _ =>
  }

  /** Running the add pass twice gives the same tree as running it once:
      defined `extras` and `extras._pipeline` values are never replaced. */
  lemma {:induction false} AddIdempotent(j: Json)
    requires AddOk(j)
    ensures AddOk(Add(j)) && Add(Add(j)) == Add(j)
    decreases j
  {
    AddKeepsOk(j);
    match j
    case JArr(es) =>
      var a := Add(j).elems;
      forall i | 0 <= i < |es| ensures Add(a[i]) == a[i] {
        AddIdempotent(es[i]);
      }
      assert Add(Add(j)).elems == a;
    case JObj(fs) =>
      var r := AddExtras(AddChildren(fs));
      AddChildrenFixed(fs);
      assert AddChildren(r) == r;
      assert Add(Add(j)) == JObj(AddExtras(r));
    case _ =>
  }

  /** The children of a processed object are already processed. */
  lemma {:induction false} AddChildrenFixed(fs: seq<Field>)
    requires AddOk(JObj(fs))
    ensures AddOk(Add(JObj(fs)))
    ensures AddChildren(Add(JObj(fs)).fields) == Add(JObj(fs)).fields
    decreases fs, 0
  {
    AddKeepsOk(JObj(fs));
    var c := AddChildren(fs);
    var r := AddExtras(c);
    assert Add(JObj(fs)).fields == r;
    var c2 := AddChildren(r);
    forall i | 0 <= i < |r| ensures c2[i] == r[i] {
      if !IsException(r[i].key) {
        assert i < |fs| && r[i] == c[i];
        var v := fs[i].value;
        assert AddOk(v);
        AddIdempotent(v);
        assert c2[i].value == Add(c[i].value) == Add(Add(v)) == Add(v);
      }
    }
    assert c2 == r;
  }

  // ---------------------------------------------------------------------------
  // removePipelineExtras

  /** Every reachable object, through all keys, lacks a defined
      `extras._pipeline`. */
  predicate NoPipeline(j: Json)
    decreases j
  {
    match j
    case JArr(es) => forall i :: 0 <= i < |es| ==> NoPipeline(es[i])
    case JObj(fs) => !HasPipeline(fs) && forall i :: 0 <= i < |fs| ==> NoPipeline(fs[i].value)
    case _ => true
  }

  /** removePipelineExtras on one value: arrays and objects are walked through
      every property; an object whose `extras._pipeline` is defined loses it
      first, and loses `extras` too when nothing else is left in it. */
  function Remove(j: Json): (r: Json)
    ensures j == JNull <==> r == JNull
    ensures j.JArr? <==> r.JArr?
    ensures j.JObj? <==> r.JObj?
    ensures j.JArr? ==> |r.elems| == |j.elems|
    ensures !j.JArr? && !j.JObj? ==> r == j
    decreases j, 2
  {
    match j
    case JArr(es) => JArr(RemoveAll(es))
    case JObj(fs) => JObj(RemoveObject(fs, false))
    case _ => j
  }

  function RemoveAll(es: seq<Json>): (r: seq<Json>)
    ensures |r| == |es|
    decreases es, 0
  {
    if es == [] then [] else [Remove(es[0])] + RemoveAll(es[1..])
  }

  /** The fields of `Remove(JObj(fs'))` where `fs'` is `fs` with its
      `_pipeline` fields deleted when `dropPipeline` holds (the state of an
      `extras` object after `delete extras._pipeline`). */
  function RemoveObject(fs: seq<Field>, dropPipeline: bool): seq<Field>
    decreases fs, 1
  {
    var skip := if dropPipeline then {"_pipeline"} else {};
    if !HasPipeline(fs) then RemoveFields(fs, skip)
    else
      var ext := Lookup(fs, "extras").value.fields;
      if |Delete(ext, "_pipeline")| == 0 then RemoveFields(fs, skip + {"extras"})
      else RemoveWithExtras(fs, dropPipeline)
  }

  /** Every field whose key is not in `skip`, with its value processed. */
  function RemoveFields(fs: seq<Field>, skip: set<string>): seq<Field>
    decreases fs, 0
  {
    if fs == [] then []
    else if fs[0].key in skip then RemoveFields(fs[1..], skip)
    else [Field(fs[0].key, Remove(fs[0].value))] + RemoveFields(fs[1..], skip)
  }

  /** Every field processed, where the first `extras` field is an object whose
      `_pipeline` is deleted before it is itself processed. */
  function RemoveWithExtras(fs: seq<Field>, dropPipeline: bool): seq<Field>
    decreases fs, 0
  {
    if fs == [] then []
    else if dropPipeline && fs[0].key == "_pipeline" then RemoveWithExtras(fs[1..], dropPipeline)
    else if fs[0].key == "extras" && fs[0].value.JObj? then
      [Field("extras", JObj(RemoveObject(fs[0].value.fields, true)))]
        + RemoveFields(fs[1..], if dropPipeline then {"_pipeline"} else {})
    else [Field(fs[0].key, Remove(fs[0].value))] + RemoveWithExtras(fs[1..], dropPipeline)
  }

  /** Lifting `Remove` to an optional property value. */
  function RemoveOpt(o: Option<Json>): Option<Json> {
    if o.Some? then Some(Remove(o.value)) else None
  }

  lemma {:induction false} LookupRemoveFields(fs: seq<Field>, skip: set<string>, k: string)
    ensures Lookup(RemoveFields(fs, skip), k) == if k in skip then None else RemoveOpt(Lookup(fs, k))
    decreases fs
  {
    if fs != [] {
      LookupRemoveFields(fs[1..], skip, k);
    }
  }

  /** The object's first `extras` field is at the head of `fs` or later. */
  lemma {:induction false} LookupRemoveWithExtras(fs: seq<Field>, drop: bool, k: string)
    requires k != "extras"
    ensures Lookup(RemoveWithExtras(fs, drop), k) ==
      if drop && k == "_pipeline" then None else RemoveOpt(Lookup(fs, k))
    decreases fs
  {
    if fs != [] {
      if drop && fs[0].key == "_pipeline" {
        LookupRemoveWithExtras(fs[1..], drop, k);
      } else if fs[0].key == "extras" && fs[0].value.JObj? {
        LookupRemoveFields(fs[1..], if drop then {"_pipeline"} else {}, k);
      } else {
        LookupRemoveWithExtras(fs[1..], drop, k);
      }
    }
  }

  /** The `extras` field that `RemoveWithExtras` produces. */
  lemma {:induction false} ExtrasOfRemoveWithExtras(fs: seq<Field>, drop: bool)
    requires Lookup(fs, "extras").Some? && Lookup(fs, "extras").value.JObj?
    ensures Lookup(RemoveWithExtras(fs, drop), "extras") ==
      Some(JObj(RemoveObject(Lookup(fs, "extras").value.fields, true)))
    decreases fs
  {
    if fs[0].key != "extras" {
      ExtrasOfRemoveWithExtras(fs[1..], drop);
    }
  }

  /** Properties other than `extras` survive the remove pass (processed),
      except the deleted `_pipeline`. */
  lemma LookupRemoveObject(fs: seq<Field>, drop: bool, k: string)
    requires k != "extras"
    ensures Lookup(RemoveObject(fs, drop), k) ==
      if drop && k == "_pipeline" then None else RemoveOpt(Lookup(fs, k))
  {
    var skip := if drop then {"_pipeline"} else {};
    if !HasPipeline(fs) {
      LookupRemoveFields(fs, skip, k);
    } else if |Delete(Lookup(fs, "extras").value.fields, "_pipeline")| == 0 {
      LookupRemoveFields(fs, skip + {"extras"}, k);
    } else {
      LookupRemoveWithExtras(fs, drop, k);
    }
  }

  /** After the remove pass no reachable object has `extras._pipeline`. */
  lemma {:induction false} RemoveClears(j: Json)
    ensures NoPipeline(Remove(j))
    decreases j, 2
  {
    match j
    case JArr(es) => RemoveAllClears(es);
    case JObj(fs) => RemoveObjectClears(fs, false);
    case _ =>
  }

  lemma {:induction false} RemoveAllClears(es: seq<Json>)
    ensures forall i :: 0 <= i < |es| ==> NoPipeline(RemoveAll(es)[i])
    decreases es, 0
  {
    if es != [] {
      RemoveClears(es[0]);
      RemoveAllClears(es[1..]);
    }
  }

  lemma {:induction false} RemoveObjectClears(fs: seq<Field>, drop: bool)
    ensures NoPipeline(JObj(RemoveObject(fs, drop)))
    decreases fs, 1
  {
    var skip := if drop then {"_pipeline"} else {};
    var r := RemoveObject(fs, drop);
    if !HasPipeline(fs) {
      RemoveFieldsClears(fs, skip);
      LookupRemoveFields(fs, skip, "extras");
      var e := Lookup(fs, "extras");
      if Defined(e) && e.value.JObj? {
        LookupRemoveObject(e.value.fields, false, "_pipeline");
      }
    } else if |Delete(Lookup(fs, "extras").value.fields, "_pipeline")| == 0 {
      RemoveFieldsClears(fs, skip + {"extras"});
      LookupRemoveFields(fs, skip + {"extras"}, "extras");
    } else {
      RemoveWithExtrasClears(fs, drop);
      ExtrasOfRemoveWithExtras(fs, drop);
      LookupRemoveObject(Lookup(fs, "extras").value.fields, true, "_pipeline");
    }
  }

  lemma {:induction false} RemoveFieldsClears(fs: seq<Field>, skip: set<string>)
    ensures forall i :: 0 <= i < |RemoveFields(fs, skip)| ==> NoPipeline(RemoveFields(fs, skip)[i].value)
    decreases fs, 0
  {
    if fs != [] {
      RemoveFieldsClears(fs[1..], skip);
      if fs[0].key !in skip {
        RemoveClears(fs[0].value);
      }
    }
  }

  lemma {:induction false} RemoveWithExtrasClears(fs: seq<Field>, drop: bool)
    ensures forall i :: 0 <= i < |RemoveWithExtras(fs, drop)| ==> NoPipeline(RemoveWithExtras(fs, drop)[i].value)
    decreases fs, 0
  {
    if fs != [] {
      if drop && fs[0].key == "_pipeline" {
        RemoveWithExtrasClears(fs[1..], drop);
      } else if fs[0].key == "extras" && fs[0].value.JObj? {
        RemoveObjectClears(fs[0].value.fields, true);
        RemoveFieldsClears(fs[1..], if drop then {"_pipeline"} else {});
      } else {
        RemoveClears(fs[0].value);
        RemoveWithExtrasClears(fs[1..], drop);
      }
    }
  }

  /** An object without a defined `extras._pipeline` anywhere is left
      unchanged by the remove pass. */
  lemma {:induction false} RemoveNoOp(j: Json)
    requires NoPipeline(j)
    ensures Remove(j) == j
    decreases j, 2
  {
    match j
    case JArr(es) => RemoveAllNoOp(es);
    case JObj(fs) => RemoveFieldsNoOp(fs);
    case _ =>
  }

  lemma {:induction false} RemoveAllNoOp(es: seq<Json>)
    requires forall i :: 0 <= i < |es| ==> NoPipeline(es[i])
    ensures RemoveAll(es) == es
    decreases es, 0
  {
    if es != [] {
      RemoveNoOp(es[0]);
      RemoveAllNoOp(es[1..]);
    }
  }

  lemma {:induction false} RemoveFieldsNoOp(fs: seq<Field>)
    requires forall i :: 0 <= i < |fs| ==> NoPipeline(fs[i].value)
    ensures RemoveFields(fs, {}) == fs
    decreases fs, 0
  {
    if fs != [] {
      RemoveNoOp(fs[0].value);
      RemoveFieldsNoOp(fs[1..]);
    }
  }

  /** Running the remove pass twice gives the same tree as running it once. */
  lemma RemoveIdempotent(j: Json)
    ensures Remove(Remove(j)) == Remove(j)
  {
    RemoveClears(j);
    RemoveNoOp(Remove(j));
  }

  /** No object in the tree has an `extras` property at all. */
  predicate NoExtrasKey(j: Json)
    decreases j
  {
    match j
    case JArr(es) => forall i :: 0 <= i < |es| ==> NoExtrasKey(es[i])
    case JObj(fs) => forall i :: 0 <= i < |fs| ==> fs[i].key != "extras" && NoExtrasKey(fs[i].value)
    case _ => true
  }

  lemma {:induction false} NoExtrasKeyIsClean(j: Json)
    requires NoExtrasKey(j)
    ensures AddOk(j) && NoPipeline(j)
    decreases j
  {
    match j
    case JArr(es) =>
      forall i | 0 <= i < |es| ensures AddOk(es[i]) && NoPipeline(es[i]) {
        NoExtrasKeyIsClean(es[i]);
      }
    case JObj(fs) =>
      LookupFound(fs, "extras");
      forall i | 0 <= i < |fs| ensures AddOk(fs[i].value) && NoPipeline(fs[i].value) {
        NoExtrasKeyIsClean(fs[i].value);
      }
    case _ =>
  }

  /** A tree that had no `extras` anywhere comes back unchanged from
      addPipelineExtras followed by removePipelineExtras. */
  lemma {:induction false} AddThenRemove(j: Json)
    requires NoExtrasKey(j)
    ensures AddOk(j) && Remove(Add(j)) == j
    decreases j, 1
  {
    NoExtrasKeyIsClean(j);
    match j
    case JArr(es) =>
      var a := Add(j).elems;
      forall i | 0 <= i < |es| ensures Remove(a[i]) == es[i] {
        AddThenRemove(es[i]);
      }
      RemoveAllPointwise(a, es);
    case JObj(fs) => AddThenRemoveObject(fs);
    case _ =>
  }

  lemma {:induction false} AddThenRemoveObject(fs: seq<Field>)
    requires NoExtrasKey(JObj(fs))
    ensures AddOk(JObj(fs)) && Remove(Add(JObj(fs))) == JObj(fs)
    decreases fs, 1
  {
    NoExtrasKeyIsClean(JObj(fs));
    var c := AddChildren(fs);
    LookupFound(fs, "extras");
    assert Lookup(fs, "extras") == None;
    assert Lookup(c, "extras") == None;
    var ext := [Field("_pipeline", JObj([]))];
    assert SetDefault([], "_pipeline", JObj([])) == ext;
    var r := c + [Field("extras", JObj(ext))];
    PutShape(c, "extras", JObj(ext));
    assert AddExtras(c) == r;
    assert Add(JObj(fs)) == JObj(r);
    assert Lookup(r, "extras") == Some(JObj(ext));
    assert Delete(ext, "_pipeline") == [];
    assert HasPipeline(r);
    var none: set<string> := {};
    assert none + {"extras"} == {"extras"};
    assert RemoveObject(r, false) == RemoveFields(r, {"extras"});
    RemoveAfterAddChildren(fs, JObj(ext));
  }

  lemma {:induction false} RemoveAllPointwise(a: seq<Json>, es: seq<Json>)
    requires |a| == |es|
    requires forall i :: 0 <= i < |a| ==> Remove(a[i]) == es[i]
    ensures RemoveAll(a) == es
    decreases a
  {
    if a != [] {
      RemoveAllPointwise(a[1..], es[1..]);
    }
  }

  lemma {:induction false} RemoveAfterAddChildren(fs: seq<Field>, x: Json)
    requires forall i :: 0 <= i < |fs| ==> fs[i].key != "extras" && NoExtrasKey(fs[i].value)
    requires forall i :: 0 <= i < |fs| ==> !IsException(fs[i].key) ==> AddOk(fs[i].value)
    ensures RemoveFields(AddChildren(fs) + [Field("extras", x)], {"extras"}) == fs
    decreases fs, 0
  {
    var t := [Field("extras", x)];
    if fs == [] {
      assert AddChildren(fs) + t == t;
    } else {
      var c := AddChildren(fs);
      assert (c + t)[1..] == AddChildren(fs[1..]) + t;
      var v := fs[0].value;
      if IsException(fs[0].key) {
        NoExtrasKeyIsClean(v);
        RemoveNoOp(v);
      } else {
        AddThenRemove(v);
      }
      assert (c + t)[0] == Field(fs[0].key, c[0].value);
      assert fs[0].key !in {"extras"};
      RemoveAfterAddChildren(fs[1..], x);
      assert RemoveFields(c + t, {"extras"}) == [Field(fs[0].key, Remove(c[0].value))] + RemoveFields((c + t)[1..], {"extras"});
      assert fs == [fs[0]] + fs[1..];
    }
  }
}
