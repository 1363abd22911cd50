/** `inferBufferViewTargets`: buffer views without a `target` get one from
    the first use found in the meshes, `ELEMENT_ARRAY_BUFFER` for a
    primitive's `indices` and `ARRAY_BUFFER` for an attribute or a morph
    target attribute.  The traversal stops after the mesh that assigned the
    last missing target. */
module InferTargets {
  import opened Wrappers
  import opened Json
  import opened GlConstants
  import opened DefaultObjects

  // ---------------------------------------------------------------------
  // Uses of accessors, in traversal order

  /** An accessor id found in a primitive, with the target its use implies;
      or a read that throws before any id is found (a `null` primitive). */
  datatype Use = Use(accessor: Json, target: nat) | Throws(error: string)

  /** The values of an `attributes` object, in key order. */
  function AttributeUses(fs: seq<Field>): (r: seq<Use>)
    ensures |r| == |fs|
    ensures forall i :: 0 <= i < |fs| ==> r[i] == Use(fs[i].value, ARRAY_BUFFER)
  {
    if fs == [] then [] else [Use(fs[0].value, ARRAY_BUFFER)] + AttributeUses(fs[1..])
  }

  /** The attribute values of every morph target, target by target. */
  function TargetUses(ts: seq<Json>): (r: seq<Use>)
    ensures forall i :: 0 <= i < |r| ==> r[i].Use? && r[i].target == ARRAY_BUFFER
  {
    if ts == [] then [] else AttributeUses(FieldsOf(ts[0])) + TargetUses(ts[1..])
  }

  /** A primitive's uses: its `indices`, then its attributes, then its morph
      targets' attributes.  Reading `indices` of a `null` primitive throws;
      any other primitive value has no such property and no uses. */
  function PrimitiveUses(p: Json): (r: seq<Use>)
    ensures p.JNull? ==> |r| == 1 && r[0].Throws?
    ensures !p.JNull? ==> forall i :: 0 <= i < |r| ==> r[i].Use?
    ensures !p.JObj? && !p.JNull? ==> r == []
  {
    if p.JNull? then [Throws("TypeError: Cannot read property 'indices' of null")]
    else if !p.JObj? then []
    else
      var indices := Lookup(p.fields, "indices");
      (if Defined(indices) then [Use(indices.value, ELEMENT_ARRAY_BUFFER)] else [])
      + (match Lookup(p.fields, "attributes") case Some(JObj(fs)) => AttributeUses(fs) case _ => [])
      + (match Lookup(p.fields, "targets") case Some(JArr(ts)) => TargetUses(ts) case _ => [])
  }

  /** The uses of a sequence of primitives, in order. */
  function PrimitivesUses(ps: seq<Json>): seq<Use> {
    if ps == [] then [] else PrimitiveUses(ps[0]) + PrimitivesUses(ps[1..])
  }

  /** A mesh's uses, primitive by primitive. */
  function MeshUses(m: Json): seq<Use> {
    PrimitivesUses(Primitives(m))
  }

  /** `accessors[id].bufferView` as a view index: `None` when it is not a
      view index (`needsTarget` has no such key); reading through a missing
      or `null` accessor throws. */
  function ViewOf(accessors: Option<Json>, id: Json): (r: Result<Option<nat>, string>)
    ensures r.Ok? ==> accessors.Some? && accessors.value.JArr? && id.JNum? && 0 <= id.n < |accessors.value.elems|
  {
    match accessors
    case Some(JArr(es)) =>
      if id.JNum? && 0 <= id.n < |es| && es[id.n] != JNull then
        match es[id.n]
        case JObj(fs) =>
          (match Lookup(fs, "bufferView")
           case Some(JNum(b)) => if b >= 0 then Ok(Some(b as nat)) else Ok(None)
           case _ => Ok(None))
        case _ => Ok(None)
      else Err("TypeError: Cannot read property 'bufferView' of undefined")
    case _ => Err("TypeError: Cannot read property of undefined")
  }

  // ---------------------------------------------------------------------
  // The traversal state and its specification

  /** A view whose `target` is undefined: `needsTarget[id]` is set for it. */
  predicate NeedsTarget(v: Json) {
    v != JNull && (!v.JObj? || !Defined(Lookup(v.fields, "target")))
  }

  /** The number of views still marked. */
  function Count(bs: seq<bool>): nat {
    if bs == [] then 0 else (if bs[0] then 1 else 0) + Count(bs[1..])
  }

  /** The views, the `needsTarget` marks and the `shouldTraverse` counter. */
  datatype Infer = Infer(views: seq<Json>, needs: seq<bool>, remaining: int)

  /** A view with its target set. */
  function WithTarget(v: Json, target: nat): Json
    requires v.JObj?
  {
    JObj(Put(v.fields, "target", JNum(target)))
  }

  /** One use: when it names a marked view, that view gets the use's
      target, its mark is cleared and the counter goes down. */
  function Apply(s: Infer, accessors: Option<Json>, u: Use): (r: Result<Infer, string>)
    ensures r.Ok? ==> |r.value.views| == |s.views| && |r.value.needs| == |s.needs|
  {
    if u.Throws? then Err(u.error)
    else
    match ViewOf(accessors, u.accessor)
    case Err(e) => Err(e)
    case Ok(b) =>
      if b.Some? && b.value < |s.needs| && b.value < |s.views| && s.needs[b.value] then
        if s.views[b.value].JObj? then
          Ok(Infer(s.views[b.value := WithTarget(s.views[b.value], u.target)], s.needs[b.value := false], s.remaining - 1))
        else Err("TypeError: Cannot create property 'target' on a primitive value")
      else Ok(s)
  }

  /** A sequence of uses, in order; the first error stops it. */
  function ApplyAll(s: Infer, accessors: Option<Json>, us: seq<Use>): (r: Result<Infer, string>)
    ensures r.Ok? ==> |r.value.views| == |s.views| && |r.value.needs| == |s.needs|
    decreases |us|
  {
    if us == [] then Ok(s)
    else
      match Apply(s, accessors, us[0])
      case Err(e) => Err(e)
      case Ok(s') => ApplyAll(s', accessors, us[1..])
  }

  /** The meshes in order, stopping after a mesh that left the counter 0. */
  function Traverse(s: Infer, accessors: Option<Json>, ms: seq<Json>): (r: Result<Infer, string>)
    ensures r.Ok? ==> |r.value.views| == |s.views| && |r.value.needs| == |s.needs|
    decreases |ms|
  {
    if ms == [] then Ok(s)
    else
      match ApplyAll(s, accessors, MeshUses(ms[0]))
      case Err(e) => Err(e)
      case Ok(s') => if s'.remaining == 0 then Ok(s') else Traverse(s', accessors, ms[1..])
  }

  /** The marks `ForEach.bufferView` leaves; a `null` view throws. */
  function Marks(views: seq<Json>): (r: seq<bool>)
    ensures |r| == |views| && forall i :: 0 <= i < |views| ==> r[i] == NeedsTarget(views[i])
  {
    if views == [] then [] else [NeedsTarget(views[0])] + Marks(views[1..])
  }

  /** The whole pass on `gltf.bufferViews`, `gltf.accessors` and
      `gltf.meshes`. */
  function Inferred(views: Option<Json>, accessors: Option<Json>, meshes: Option<Json>): Result<Option<Json>, string> {
    var vs := ElemsOf(views);
    if JNull in vs then Err("TypeError: Cannot read property 'target' of null")
    else if Count(Marks(vs)) == 0 then Ok(views)
    else
      match Traverse(Infer(vs, Marks(vs), Count(Marks(vs))), accessors, ElemsOf(meshes))
      case Err(e) => Err(e)
      case Ok(s) => Ok(Some(JArr(s.views)))
  }

  // ---------------------------------------------------------------------
  // The imperative pass

  /** The `ForEach.bufferView` loop that marks the views lacking a target. */
  method MarkViews(vs: seq<Json>) returns (r: Result<(seq<bool>, int), string>)
    ensures r.Ok? <==> JNull !in vs
    ensures r.Ok? ==> r.value == (Marks(vs), Count(Marks(vs)))
  {
    var needs: seq<bool> := [];
    var count := 0;
    var i := 0;
    while i < |vs|
      invariant 0 <= i <= |vs|
      invariant JNull !in vs[..i]
      invariant needs == Marks(vs[..i]) && count == Count(needs)
    {
      if vs[i] == JNull {
        return Err("TypeError: Cannot read property 'target' of null");
      }
      CountAppend(needs, NeedsTarget(vs[i]));
      MarksAppend(vs[..i], vs[i]);
      assert vs[..i + 1] == vs[..i] + [vs[i]];
      needs := needs + [NeedsTarget(vs[i])];
      count := count + (if NeedsTarget(vs[i]) then 1 else 0);
      i := i + 1;
    }
    assert vs[..i] == vs;
    return Ok((needs, count));
  }

  /** The callbacks for one mesh, use by use. */
  method ApplyUses(s: Infer, accessors: Option<Json>, us: seq<Use>) returns (r: Result<Infer, string>)
    ensures r == ApplyAll(s, accessors, us)
  {
    var cur := s;
    var j := 0;
    while j < |us|
      invariant 0 <= j <= |us|
      invariant ApplyAll(s, accessors, us) == ApplyAll(cur, accessors, us[j..])
    {
      assert us[j..][1..] == us[j + 1..];
      var step := Apply(cur, accessors, us[j]);
      if step.Err? {
        return Err(step.error);
      }
      cur := step.value;
      j := j + 1;
    }
    return Ok(cur);
  }

  /** `inferBufferViewTargets(gltf)`: marks the views lacking a target and,
      when there is one, walks the meshes until none is left. */
  method InferBufferViewTargets(views: Option<Json>, accessors: Option<Json>, meshes: Option<Json>)
    returns (r: Result<Option<Json>, string>)
    ensures r == Inferred(views, accessors, meshes)
  {
    var vs := ElemsOf(views);
    var marked := MarkViews(vs);
    if marked.Err? {
      return Err("TypeError: Cannot read property 'target' of null");
    }
    var (needs, shouldTraverse) := marked.value;
    if shouldTraverse == 0 {
      return Ok(views);
    }
    var ms := ElemsOf(meshes);
    var cur := Infer(vs, needs, shouldTraverse);
    var i := 0;
    while i < |ms|
      invariant 0 <= i <= |ms|
      invariant Traverse(Infer(vs, needs, shouldTraverse), accessors, ms) == Traverse(cur, accessors, ms[i..])
    {
      assert ms[i..][1..] == ms[i + 1..];
      var step := ApplyUses(cur, accessors, MeshUses(ms[i]));
      if step.Err? {
        return Err(step.error);
      }
      cur := step.value;
      i := i + 1;
      if cur.remaining == 0 {
        return Ok(Some(JArr(cur.views)));
      }
    }
    return Ok(Some(JArr(cur.views)));
  }

  // ---------------------------------------------------------------------
  // Lemmas

  lemma {:induction false} CountAppend(bs: seq<bool>, b: bool)
    ensures Count(bs + [b]) == Count(bs) + (if b then 1 else 0)
  {
    if bs != [] {
      assert (bs + [b])[1..] == bs[1..] + [b];
      CountAppend(bs[1..], b);
    }
  }

  lemma {:induction false} MarksAppend(vs: seq<Json>, v: Json)
    ensures Marks(vs + [v]) == Marks(vs) + [NeedsTarget(v)]
  {
  }

  /** Clearing one mark takes one off the count. */
  lemma {:induction false} CountClear(bs: seq<bool>, i: nat)
    requires i < |bs| && bs[i]
    ensures Count(bs[i := false]) == Count(bs) - 1
  {
    if i > 0 {
      assert bs[i := false][1..] == bs[1..][i - 1 := false];
      CountClear(bs[1..], i - 1);
    }
  }

  /** A count of 0 means no view is still marked. */
  lemma {:induction false} CountZero(bs: seq<bool>)
    requires Count(bs) == 0
    ensures forall i :: 0 <= i < |bs| ==> !bs[i]
  {
    if bs != [] {
      CountZero(bs[1..]);
      assert forall i :: 1 <= i < |bs| ==> bs[i] == bs[1..][i - 1];
    }
  }

  /** What the traversal keeps true about the initial views `vs`: a marked
      view is untouched, a view that never needed a target is untouched
      and never marked, a view whose mark was cleared has a target, and
      the counter counts the marks. */
  ghost predicate Tracks(s: Infer, vs: seq<Json>) {
    && |s.views| == |vs| && |s.needs| == |vs| && s.remaining == Count(s.needs)
    && (forall i :: 0 <= i < |vs| && s.needs[i] ==> s.views[i] == vs[i] && NeedsTarget(vs[i]))
    && (forall i :: 0 <= i < |vs| && !NeedsTarget(vs[i]) ==> s.views[i] == vs[i] && !s.needs[i])
    && (forall i :: 0 <= i < |vs| && NeedsTarget(vs[i]) && !s.needs[i] ==>
          s.views[i].JObj? && Defined(Lookup(s.views[i].fields, "target")))
  }

  /** One use keeps `Tracks`. */
  lemma ApplyTracks(s: Infer, accessors: Option<Json>, u: Use, vs: seq<Json>)
    requires Tracks(s, vs)
    ensures Apply(s, accessors, u).Ok? ==> Tracks(Apply(s, accessors, u).value, vs)
  {
    if u.Use? {
      var b := ViewOf(accessors, u.accessor);
      if b.Ok? && b.value.Some? && b.value.value < |s.needs| && s.needs[b.value.value] && s.views[b.value.value].JObj? {
        CountClear(s.needs, b.value.value);
      }
    }
  }

  /** A sequence of uses keeps `Tracks`. */
  lemma {:induction false} ApplyAllTracks(s: Infer, accessors: Option<Json>, us: seq<Use>, vs: seq<Json>)
    requires Tracks(s, vs)
    ensures ApplyAll(s, accessors, us).Ok? ==> Tracks(ApplyAll(s, accessors, us).value, vs)
    decreases |us|
  {
    if us != [] {
      ApplyTracks(s, accessors, us[0], vs);
      if Apply(s, accessors, us[0]).Ok? {
        ApplyAllTracks(Apply(s, accessors, us[0]).value, accessors, us[1..], vs);
      }
    }
  }

  /** The traversal keeps `Tracks`. */
  lemma {:induction false} TraverseTracks(s: Infer, accessors: Option<Json>, ms: seq<Json>, vs: seq<Json>)
    requires Tracks(s, vs)
    ensures Traverse(s, accessors, ms).Ok? ==> Tracks(Traverse(s, accessors, ms).value, vs)
    decreases |ms|
  {
    if ms != [] {
      ApplyAllTracks(s, accessors, MeshUses(ms[0]), vs);
      var next := ApplyAll(s, accessors, MeshUses(ms[0]));
      if next.Ok? && next.value.remaining != 0 {
        TraverseTracks(next.value, accessors, ms[1..], vs);
      }
    }
  }

  /** Only views without a target change, and each changed view has one
      afterwards (that every view lacking a target gets one once the
      counter reaches 0 is `DoneMeansAllAssigned`). */
  lemma OnlyMissingTargetsChange(views: Option<Json>, accessors: Option<Json>, meshes: Option<Json>)
    requires Inferred(views, accessors, meshes).Ok?
    ensures var out := Inferred(views, accessors, meshes).value;
            var vs := ElemsOf(views);
            && |ElemsOf(out)| == |vs|
            && (forall i :: 0 <= i < |vs| && !NeedsTarget(vs[i]) ==> ElemsOf(out)[i] == vs[i])
            && (forall i :: 0 <= i < |vs| && ElemsOf(out)[i] != vs[i] ==>
                  ElemsOf(out)[i].JObj? && Defined(Lookup(ElemsOf(out)[i].fields, "target")))
  {
    var vs := ElemsOf(views);
    if Count(Marks(vs)) == 0 {
    } else {
      var s0 := Infer(vs, Marks(vs), Count(Marks(vs)));
      TraverseTracks(s0, accessors, ElemsOf(meshes), vs);
    }
  }

  /** Uses in sequence: the second part starts where the first ended. */
  lemma {:induction false} ApplyAllAppend(s: Infer, accessors: Option<Json>, us: seq<Use>, ws: seq<Use>)
    ensures ApplyAll(s, accessors, us).Err? ==> ApplyAll(s, accessors, us + ws).Err?
    ensures ApplyAll(s, accessors, us).Ok? ==>
              ApplyAll(s, accessors, us + ws) == ApplyAll(ApplyAll(s, accessors, us).value, accessors, ws)
    decreases |us|
  {
    if us != [] {
      assert (us + ws)[0] == us[0];
      assert (us + ws)[1..] == us[1..] + ws;
      if Apply(s, accessors, us[0]).Ok? {
        ApplyAllAppend(Apply(s, accessors, us[0]).value, accessors, us[1..], ws);
      }
    } else {
      assert us + ws == ws;
    }
  }

  /** A mesh with a `null` primitive throws once the traversal reaches it,
      whatever the other primitives are. */
  lemma {:induction false} NullPrimitiveThrows(s: Infer, accessors: Option<Json>, ps: seq<Json>)
    requires JNull in ps
    ensures ApplyAll(s, accessors, PrimitivesUses(ps)).Err?
    decreases |ps|
  {
    ApplyAllAppend(s, accessors, PrimitiveUses(ps[0]), PrimitivesUses(ps[1..]));
    if ps[0] != JNull {
      assert JNull in ps[1..];
      var first := ApplyAll(s, accessors, PrimitiveUses(ps[0]));
      if first.Ok? {
        NullPrimitiveThrows(first.value, accessors, ps[1..]);
      }
    }
  }

  /** Once the counter reaches 0 no view is left without a target. */
  lemma DoneMeansAllAssigned(s: Infer, vs: seq<Json>)
    requires Tracks(s, vs) && s.remaining == 0
    ensures forall i :: 0 <= i < |vs| && NeedsTarget(vs[i]) ==>
              s.views[i].JObj? && Defined(Lookup(s.views[i].fields, "target"))
  {
    CountZero(s.needs);
  }

  /** A view whose mark is already cleared is never written again: each view
      is assigned at most once. */
  lemma {:induction false} ClearedStays(s: Infer, accessors: Option<Json>, us: seq<Use>, i: nat)
    requires i < |s.views| && i < |s.needs| && !s.needs[i]
    requires ApplyAll(s, accessors, us).Ok?
    ensures ApplyAll(s, accessors, us).value.views[i] == s.views[i]
    ensures !ApplyAll(s, accessors, us).value.needs[i]
    decreases |us|
  {
    if us != [] {
      ClearedStays(Apply(s, accessors, us[0]).value, accessors, us[1..], i);
    }
  }

  /** The first use that names a marked view decides its target. */
  lemma {:induction false} FirstUseDecides(s: Infer, accessors: Option<Json>, us: seq<Use>, i: nat, j: nat)
    requires i < |s.views| && i < |s.needs| && s.needs[i] && s.views[i].JObj?
    requires j < |us| && us[j].Use? && ViewOf(accessors, us[j].accessor) == Ok(Some(i))
    requires forall k :: 0 <= k < j ==> us[k].Throws? || ViewOf(accessors, us[k].accessor) != Ok(Some(i))
    requires ApplyAll(s, accessors, us).Ok?
    ensures ApplyAll(s, accessors, us).value.views[i] == WithTarget(s.views[i], us[j].target)
    decreases |us|
  {
    var next := Apply(s, accessors, us[0]).value;
    if j == 0 {
      ClearedStays(next, accessors, us[1..], i);
    } else {
      assert next.needs[i] && next.views[i] == s.views[i];
      FirstUseDecides(next, accessors, us[1..], i, j - 1);
    }
  }
}
