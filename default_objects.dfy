/** The helpers of `addDefaults` that add whole objects or fix single
    properties: the shared default material, the shared default technique
    with its program and shaders, default byte offsets and the default
    scene.  Each walks the arrays of a glTF 1.0 style asset in order; a
    property read on `undefined` or `null`, or a write to a value that is
    not an object, throws (the file is strict mode). */
module DefaultObjects {
  import opened Wrappers
  import opened Json

  // ---------------------------------------------------------------------
  // addDefaultMaterial

  /** A primitive that gets the default material. */
  predicate NeedsMaterial(p: Json) {
    p.JObj? && !Defined(Lookup(p.fields, "material"))
  }

  /** The primitives the loop visits: `mesh.primitives` when it is an
      array; anything else without a `length` gives none. */
  function Primitives(m: Json): seq<Json> {
    if m.JObj? then
      match Lookup(m.fields, "primitives")
      case Some(JArr(ps)) => ps
      case _ => []
    else []
  }

  /** A mesh the loop gets through: an object with defined primitives, all
      of them objects. */
  predicate MeshOk(m: Json) {
    && m.JObj? && Defined(Lookup(m.fields, "primitives"))
    && forall j :: 0 <= j < |Primitives(m)| ==> Primitives(m)[j].JObj?
  }

  /** Some primitive of the mesh lacks a material. */
  predicate MeshNeeds(m: Json) {
    exists j :: 0 <= j < |Primitives(m)| && NeedsMaterial(Primitives(m)[j])
  }

  /** Some primitive of the first `n` meshes lacks a material. */
  predicate AnyNeeds(meshes: seq<Json>, n: nat)
    requires n <= |meshes|
  {
    exists i :: 0 <= i < n && MeshNeeds(meshes[i])
  }

  /** The index the default material gets: the length of `materials`. */
  function NextIndex(materials: Option<Json>): nat {
    match materials
    case Some(JArr(es)) => |es|
    case _ => 0
  }

  /** A primitive given material `id` when it lacks one. */
  function AssignPrimitive(p: Json, id: nat): Json {
    if NeedsMaterial(p) then JObj(Put(p.fields, "material", JNum(id))) else p
  }

  /** A mesh whose primitives lacking a material are given `id`. */
  function AssignMesh(m: Json, id: nat): Json {
    if m.JObj? then
      match Lookup(m.fields, "primitives")
      case Some(JArr(ps)) => JObj(Put(m.fields, "primitives", JArr(AssignAll(ps, id))))
      case _ => m
    else m
  }

  /** Every primitive of a sequence given `id` when it lacks a material. */
  function AssignAll(ps: seq<Json>, id: nat): (r: seq<Json>)
    ensures |r| == |ps| && forall j :: 0 <= j < |ps| ==> r[j] == AssignPrimitive(ps[j], id)
  {
    seq(|ps|, j requires 0 <= j < |ps| => AssignPrimitive(ps[j], id))
  }

  /** The state of the loop: the materials array and the default material's
      index once it exists. */
  datatype MaterialState = MaterialState(materials: Option<Json>, defaultId: Option<nat>)

  /** The state after the default material was created, or not yet. */
  predicate StateFor(s: MaterialState, materials: Option<Json>, template: Option<Json>, created: bool) {
    && (s.defaultId.Some? <==> created)
    && (created ==> template.Some? && materials.Some? && materials.value.JArr?
                    && s.defaultId == Some(NextIndex(materials))
                    && s.materials == Some(JArr(materials.value.elems + [template.value])))
    && (!created ==> s.materials == materials)
  }

  /** One primitive: a primitive lacking a material gets the default one,
      created by `addToArray` the first time it is needed.  `template` is
      the material cloned for it; `None` stands for an identifier that is
      not declared, whose read throws. */
  method VisitPrimitive(p: Json, s: MaterialState, materials: Option<Json>, template: Option<Json>, created: bool)
    returns (r: Result<(Json, MaterialState), string>)
    requires StateFor(s, materials, template, created)
    ensures r.Ok? <==> p.JObj? && (NeedsMaterial(p) && !created ==> template.Some? && materials.Some? && materials.value.JArr?)
    ensures r.Ok? ==> r.value.0 == AssignPrimitive(p, NextIndex(materials))
    ensures r.Ok? ==> StateFor(r.value.1, materials, template, created || NeedsMaterial(p))
  {
    if !p.JObj? {
      return Err(if p.JNull? then "TypeError: Cannot read property 'material' of null"
                 else "TypeError: Cannot create property 'material' on a primitive value");
    }
    if !NeedsMaterial(p) {
      return Ok((p, s));
    }
    var s' := s;
    if s.defaultId.None? {
      if template.None? {
        return Err("ReferenceError: defaultMaterial is not defined");
      }
      match s.materials
      case Some(JArr(es)) =>
        s' := MaterialState(Some(JArr(es + [template.value])), Some(|es|));
      case _ =>
        return Err("TypeError: materials.push is not a function");
    }
    return Ok((JObj(Put(p.fields, "material", JNum(s'.defaultId.value))), s'));
  }

  /** The inner loop over one mesh's primitives. */
  method VisitMesh(m: Json, s: MaterialState, materials: Option<Json>, template: Option<Json>, created: bool)
    returns (r: Result<(Json, MaterialState), string>)
    requires StateFor(s, materials, template, created)
    ensures r.Ok? <==> MeshOk(m) && (MeshNeeds(m) && !created ==> template.Some? && materials.Some? && materials.value.JArr?)
    ensures r.Ok? ==> r.value.0 == AssignMesh(m, NextIndex(materials))
    ensures r.Ok? ==> StateFor(r.value.1, materials, template, created || MeshNeeds(m))
  {
    if !m.JObj? {
      return Err("TypeError: Cannot read property 'length' of undefined");
    }
    var prims := Lookup(m.fields, "primitives");
    if !Defined(prims) {
      return Err("TypeError: Cannot read property 'length' of undefined");
    }
    if !prims.value.JArr? {
      return Ok((m, s));
    }
    var ps := prims.value.elems;
    assert Primitives(m) == ps;
    var out: seq<Json> := [];
    var st := s;
    ghost var made := created;
    var j := 0;
    while j < |ps|
      invariant PrimitivesUpTo(ps, materials, template, created, j, out, st, made)
    {
      var step := VisitPrimitive(ps[j], st, materials, template, st.defaultId.Some?);
      if step.Err? {
        return Err(step.error);
      }
      PrimitivesStep(ps, materials, template, created, j, out, st, made, step.value.0, step.value.1);
      out := out + [step.value.0];
      st := step.value.1;
      made := made || NeedsMaterial(ps[j]);
      j := j + 1;
    }
    assert out == AssignAll(ps, NextIndex(materials));
    return Ok((JObj(Put(m.fields, "primitives", JArr(out))), st));
  }

  /** The first `j` primitives are visited. */
  ghost predicate PrimitivesUpTo(ps: seq<Json>, materials: Option<Json>, template: Option<Json>, created: bool,
                                 j: int, out: seq<Json>, st: MaterialState, made: bool) {
    && 0 <= j <= |ps| && |out| == j
    && (forall k :: 0 <= k < j ==> ps[k].JObj? && out[k] == AssignPrimitive(ps[k], NextIndex(materials)))
    && made == (created || exists k :: 0 <= k < j && NeedsMaterial(ps[k]))
    && StateFor(st, materials, template, made)
  }

  lemma PrimitivesStep(ps: seq<Json>, materials: Option<Json>, template: Option<Json>, created: bool,
                       j: int, out: seq<Json>, st: MaterialState, made: bool, p: Json, st': MaterialState)
    requires PrimitivesUpTo(ps, materials, template, created, j, out, st, made) && j < |ps| && ps[j].JObj?
    requires p == AssignPrimitive(ps[j], NextIndex(materials))
    requires StateFor(st', materials, template, made || NeedsMaterial(ps[j]))
    ensures PrimitivesUpTo(ps, materials, template, created, j + 1, out + [p], st', made || NeedsMaterial(ps[j]))
  {
    if NeedsMaterial(ps[j]) {
      assert 0 <= j < j + 1 && NeedsMaterial(ps[j]);
    }
  }

  /** The elements the loop visits: the array's, or none when `length` is
      undefined. */
  function ElemsOf(v: Option<Json>): seq<Json> {
    match v
    case Some(JArr(es)) => es
    case _ => []
  }

  /** `addDefaultMaterial(gltf)` on `gltf.meshes` and `gltf.materials`: at
      most one material is appended, and every primitive lacking a material
      gets its index while every other primitive is unchanged.  Missing
      meshes, a malformed mesh, a primitive that is not an object, or a
      missing `materials` array or template when a default is needed
      throws. */
  method AddDefaultMaterial(meshes: Option<Json>, materials: Option<Json>, template: Option<Json>)
    returns (r: Result<(Option<Json>, Option<Json>), string>)
    ensures r.Ok? <==> Defined(meshes)
                       && (forall i :: 0 <= i < |ElemsOf(meshes)| ==> MeshOk(ElemsOf(meshes)[i]))
                       && (AnyNeeds(ElemsOf(meshes), |ElemsOf(meshes)|) ==>
                             template.Some? && materials.Some? && materials.value.JArr?)
    ensures r.Ok? && !meshes.value.JArr? ==> r.value.0 == meshes
    ensures r.Ok? && meshes.value.JArr? ==>
              && r.value.0.Some? && r.value.0.value.JArr? && |r.value.0.value.elems| == |meshes.value.elems|
              && forall i :: 0 <= i < |meshes.value.elems| ==>
                   r.value.0.value.elems[i] == AssignMesh(meshes.value.elems[i], NextIndex(materials))
    ensures r.Ok? && AnyNeeds(ElemsOf(meshes), |ElemsOf(meshes)|) ==>
              r.value.1 == Some(JArr(materials.value.elems + [template.value]))
    ensures r.Ok? && !AnyNeeds(ElemsOf(meshes), |ElemsOf(meshes)|) ==> r.value.1 == materials
  {
    if !Defined(meshes) {
      return Err("TypeError: Cannot read property 'length' of undefined");
    }
    if !meshes.value.JArr? {
      return Ok((meshes, materials));
    }
    var step := VisitMeshes(meshes.value.elems, materials, template);
    if step.Err? {
      return Err(step.error);
    }
    return Ok((Some(JArr(step.value.0)), step.value.1));
  }

  /** The outer loop over the meshes array. */
  method VisitMeshes(ms: seq<Json>, materials: Option<Json>, template: Option<Json>)
    returns (r: Result<(seq<Json>, Option<Json>), string>)
    ensures r.Ok? <==> (forall i :: 0 <= i < |ms| ==> MeshOk(ms[i]))
                       && (AnyNeeds(ms, |ms|) ==> template.Some? && materials.Some? && materials.value.JArr?)
    ensures r.Ok? ==> |r.value.0| == |ms| &&
                      forall i :: 0 <= i < |ms| ==> r.value.0[i] == AssignMesh(ms[i], NextIndex(materials))
    ensures r.Ok? && AnyNeeds(ms, |ms|) ==> r.value.1 == Some(JArr(materials.value.elems + [template.value]))
    ensures r.Ok? && !AnyNeeds(ms, |ms|) ==> r.value.1 == materials
  {
    var out: seq<Json> := [];
    var st := MaterialState(materials, None);
    var i := 0;
    while i < |ms|
      invariant MeshesUpTo(ms, materials, template, i, out, st)
    {
      var step := VisitMesh(ms[i], st, materials, template, AnyNeeds(ms, i));
      if step.Err? {
        NeedsFirst(ms, i);
        return Err(step.error);
      }
      MeshesStep(ms, materials, template, i, out, st, step.value.0, step.value.1);
      out := out + [step.value.0];
      st := step.value.1;
      i := i + 1;
    }
    return Ok((out, st.materials));
  }

  /** The first `i` meshes are visited. */
  ghost predicate MeshesUpTo(ms: seq<Json>, materials: Option<Json>, template: Option<Json>, i: int, out: seq<Json>, st: MaterialState) {
    && 0 <= i <= |ms| && |out| == i
    && (forall k :: 0 <= k < i ==> MeshOk(ms[k]) && out[k] == AssignMesh(ms[k], NextIndex(materials)))
    && StateFor(st, materials, template, AnyNeeds(ms, i))
  }

  lemma MeshesStep(ms: seq<Json>, materials: Option<Json>, template: Option<Json>, i: int, out: seq<Json>, st: MaterialState,
                   m: Json, st': MaterialState)
    requires MeshesUpTo(ms, materials, template, i, out, st) && i < |ms| && MeshOk(ms[i])
    requires m == AssignMesh(ms[i], NextIndex(materials))
    requires StateFor(st', materials, template, AnyNeeds(ms, i) || MeshNeeds(ms[i]))
    ensures MeshesUpTo(ms, materials, template, i + 1, out + [m], st')
  {
    NeedsGrow(ms, i);
  }

  /** As written, `defaultMaterial` is not declared anywhere, so the function
      throws as soon as one primitive lacks a material, and otherwise changes
      nothing. */
  method AddDefaultMaterialAsWritten(meshes: Option<Json>, materials: Option<Json>)
    returns (r: Result<(Option<Json>, Option<Json>), string>)
    ensures r.Ok? <==> Defined(meshes)
                       && (forall i :: 0 <= i < |ElemsOf(meshes)| ==> MeshOk(ElemsOf(meshes)[i]))
                       && !AnyNeeds(ElemsOf(meshes), |ElemsOf(meshes)|)
    ensures r.Ok? ==> r.value == (meshes, materials)
  {
    r := AddDefaultMaterial(meshes, materials, None);
    if r.Ok? && meshes.value.JArr? {
      var ms := meshes.value.elems;
      forall i | 0 <= i < |ms|
        ensures AssignMesh(ms[i], NextIndex(materials)) == ms[i]
      {
        NoNeedNoChange(ms, i, NextIndex(materials));
      }
      assert r.value.0.value.elems == ms;
    }
  }

  /** A mesh none of whose primitives lacks a material is left as it is. */
  lemma NoNeedNoChange(ms: seq<Json>, i: nat, id: nat)
    requires i < |ms| && !AnyNeeds(ms, |ms|) && MeshOk(ms[i])
    ensures AssignMesh(ms[i], id) == ms[i]
  {
    var m := ms[i];
    match Lookup(m.fields, "primitives")
    case Some(JArr(ps)) =>
      assert Primitives(m) == ps;
      assert AssignAll(ps, id) == ps;
      PutSame(m.fields, "primitives");
    case _ =>
  }

  /** The pass rewrites only a mesh's `primitives`, and each primitive as
      `AssignPrimitive` says. */
  lemma AssignMeshRule(m: Json, id: nat)
    ensures |Primitives(AssignMesh(m, id))| == |Primitives(m)|
    ensures forall j :: 0 <= j < |Primitives(m)| ==>
              Primitives(AssignMesh(m, id))[j] == AssignPrimitive(Primitives(m)[j], id)
    ensures forall k :: k != "primitives" ==> Lookup(FieldsOf(AssignMesh(m, id)), k) == Lookup(FieldsOf(m), k)
  {
  }

  /** A primitive that lacked a material now has the default's index, with
      every other property kept; any other primitive is unchanged. */
  lemma AssignPrimitiveRule(p: Json, id: nat)
    ensures NeedsMaterial(p) ==> (&& AssignPrimitive(p, id).JObj?
                                  && Lookup(AssignPrimitive(p, id).fields, "material") == Some(JNum(id))
                                  && forall k :: k != "material" ==>
                                       Lookup(AssignPrimitive(p, id).fields, k) == Lookup(p.fields, k))
    ensures !NeedsMaterial(p) ==> AssignPrimitive(p, id) == p
    ensures !NeedsMaterial(AssignPrimitive(p, id))
  {
  }

  /** After the pass no primitive lacks a material and every mesh is still
      well formed, so a second pass appends nothing and changes nothing. */
  lemma {:induction false} SecondPassNoNeeds(ms: seq<Json>, id: nat, out: seq<Json>)
    requires forall i :: 0 <= i < |ms| ==> MeshOk(ms[i])
    requires |out| == |ms| && forall i :: 0 <= i < |ms| ==> out[i] == AssignMesh(ms[i], id)
    ensures forall i :: 0 <= i < |out| ==> MeshOk(out[i])
    ensures !AnyNeeds(out, |out|)
  {
    forall i | 0 <= i < |out|
      ensures MeshOk(out[i]) && !MeshNeeds(out[i])
    {
      AssignMeshRule(ms[i], id);
      forall j | 0 <= j < |Primitives(out[i])|
        ensures Primitives(out[i])[j].JObj? && !NeedsMaterial(Primitives(out[i])[j])
      {
        AssignPrimitiveRule(Primitives(ms[i])[j], id);
      }
    }
  }

  /** The meshes seen so far grow by one. */
  lemma NeedsGrow(meshes: seq<Json>, i: nat)
    requires i < |meshes|
    ensures AnyNeeds(meshes, i + 1) == (AnyNeeds(meshes, i) || MeshNeeds(meshes[i]))
  {
    if MeshNeeds(meshes[i]) {
      assert 0 <= i < i + 1 && MeshNeeds(meshes[i]);
    }
    if AnyNeeds(meshes, i) {
      var k :| 0 <= k < i && MeshNeeds(meshes[k]);
      assert 0 <= k < i + 1 && MeshNeeds(meshes[k]);
    }
  }

  /** A need among the first meshes is a need among all. */
  lemma NeedsFirst(meshes: seq<Json>, i: nat)
    requires i < |meshes|
    ensures AnyNeeds(meshes, i) || MeshNeeds(meshes[i]) ==> AnyNeeds(meshes, |meshes|)
  {
    if MeshNeeds(meshes[i]) {
      assert 0 <= i < |meshes| && MeshNeeds(meshes[i]);
    }
    if AnyNeeds(meshes, i) {
      var k :| 0 <= k < i && MeshNeeds(meshes[k]);
      assert 0 <= k < |meshes| && MeshNeeds(meshes[k]);
    }
  }

  // ---------------------------------------------------------------------
  // addDefaultTechnique

  /** The four objects `addDefaultTechnique` clones: the technique, its
      program and the two shaders. */
  datatype Templates = Templates(technique: seq<Field>, program: seq<Field>, vertexShader: Json, fragmentShader: Json)

  /** `gltf.techniques`, `gltf.programs` and `gltf.shaders`. */
  datatype Collections = Collections(techniques: Option<Json>, programs: Option<Json>, shaders: Option<Json>)

  predicate IsArray(v: Option<Json>) {
    v.Some? && v.value.JArr?
  }

  /** All three collections can be pushed to. */
  predicate Pushable(c: Collections) {
    IsArray(c.techniques) && IsArray(c.programs) && IsArray(c.shaders)
  }

  /** A material that gets the default technique, or `undefined`. */
  predicate NeedsTechnique(m: Json) {
    m.JObj? && !Defined(Lookup(m.fields, "technique"))
  }

  /** `defaultValue(material.extensions, {}).KHR_materials_common` is defined. */
  predicate HasCommon(m: Json) {
    && m.JObj?
    && var ext := Lookup(m.fields, "extensions");
       Defined(ext) && Defined(Lookup(FieldsOf(ext.value), "KHR_materials_common"))
  }

  /** A material that makes the loop create the default technique when
      there is none yet. */
  predicate Creates(m: Json) {
    NeedsTechnique(m) && !HasCommon(m)
  }

  /** Some of the first `n` materials creates the default technique. */
  predicate CreatedBy(ms: seq<Json>, n: nat)
    requires n <= |ms|
  {
    exists i :: 0 <= i < n && Creates(ms[i])
  }

  /** The collections once the default technique exists: the technique
      refers to the new program, and the program to the two new shaders. */
  function WithDefaults(c: Collections, t: Templates): Collections
    requires Pushable(c)
  {
    var ts := c.techniques.value.elems;
    var ps := c.programs.value.elems;
    var ss := c.shaders.value.elems;
    Collections(
      Some(JArr(ts + [JObj(Put(t.technique, "program", JNum(|ps|)))])),
      Some(JArr(ps + [JObj(Put(Put(t.program, "vertexShader", JNum(|ss|)), "fragmentShader", JNum(|ss| + 1)))])),
      Some(JArr(ss + [t.vertexShader, t.fragmentShader])))
  }

  /** A material lacking a technique given `id`; `None` assigns `undefined`. */
  function AssignTechnique(m: Json, id: Option<nat>): Json {
    if NeedsTechnique(m) then
      match id
      case Some(n) => JObj(Put(m.fields, "technique", JNum(n)))
      case None => JObj(Delete(m.fields, "technique"))
    else m
  }

  /** The default technique's id once material `i` has been visited: it
      exists exactly when some material up to `i` created it. */
  function IdAfter(ms: seq<Json>, i: nat, c: Collections): Option<nat>
    requires i < |ms|
  {
    if CreatedBy(ms, i + 1) then Some(NextIndex(c.techniques)) else None
  }

  /** The loop state: the three collections and the default technique's id. */
  datatype TechniqueState = TechniqueState(collections: Collections, defaultId: Option<nat>)

  predicate TechniqueStateFor(s: TechniqueState, c: Collections, t: Templates, created: bool) {
    && (s.defaultId.Some? <==> created)
    && (created ==> Pushable(c) && s.defaultId == Some(NextIndex(c.techniques)) && s.collections == WithDefaults(c, t))
    && (!created ==> s.collections == c)
  }

  /** Pushes onto an array value and returns the old length. */
  method Push(v: Option<Json>, x: Json) returns (r: Result<(Json, nat), string>)
    ensures r.Ok? <==> IsArray(v)
    ensures r.Ok? ==> r.value == (JArr(v.value.elems + [x]), |v.value.elems|)
  {
    if !IsArray(v) {
      return Err("TypeError: array.push is not a function");
    }
    return Ok((JArr(v.value.elems + [x]), |v.value.elems|));
  }

  /** Creates the default technique, program and shaders. */
  method CreateDefaults(c: Collections, t: Templates) returns (r: Result<(Collections, nat), string>)
    ensures r.Ok? <==> Pushable(c)
    ensures r.Ok? ==> r.value == (WithDefaults(c, t), NextIndex(c.techniques))
  {
    var ts := c.techniques;
    var ps := c.programs;
    var ss := c.shaders;
    if !IsArray(ts) || !IsArray(ps) || !IsArray(ss) {
      return Err("TypeError: array.push is not a function");
    }
    var programId := |ps.value.elems|;
    var vertexId := |ss.value.elems|;
    var techniques := JArr(ts.value.elems + [JObj(Put(t.technique, "program", JNum(programId)))]);
    var programs := JArr(ps.value.elems + [JObj(Put(Put(t.program, "vertexShader", JNum(vertexId)), "fragmentShader", JNum(vertexId + 1)))]);
    var shaders := JArr(ss.value.elems + [t.vertexShader] + [t.fragmentShader]);
    assert ss.value.elems + [t.vertexShader] + [t.fragmentShader] == ss.value.elems + [t.vertexShader, t.fragmentShader];
    return Ok((Collections(Some(techniques), Some(programs), Some(shaders)), |ts.value.elems|));
  }

  /** One material of the loop. */
  method VisitMaterial(m: Json, s: TechniqueState, c: Collections, t: Templates, created: bool)
    returns (r: Result<(Json, TechniqueState), string>)
    requires TechniqueStateFor(s, c, t, created)
    ensures r.Ok? <==> m.JObj? && (Creates(m) && !created ==> Pushable(c))
    ensures r.Ok? ==> r.value.0 == AssignTechnique(m, if created || Creates(m) then Some(NextIndex(c.techniques)) else None)
    ensures r.Ok? ==> TechniqueStateFor(r.value.1, c, t, created || Creates(m))
  {
    if !m.JObj? {
      return Err(if m.JNull? then "TypeError: Cannot read property 'technique' of null"
                 else "TypeError: Cannot create property 'technique' on a primitive value");
    }
    if !NeedsTechnique(m) {
      return Ok((m, s));
    }
    var s' := s;
    if s.defaultId.None? && !HasCommon(m) {
      var made := CreateDefaults(s.collections, t);
      if made.Err? {
        return Err(made.error);
      }
      s' := TechniqueState(made.value.0, Some(made.value.1));
    }
    var fields := if s'.defaultId.Some? then Put(m.fields, "technique", JNum(s'.defaultId.value))
                  else Delete(m.fields, "technique");
    return Ok((JObj(fields), s'));
  }

  /** The loop over the materials array. */
  method VisitMaterials(ms: seq<Json>, c: Collections, t: Templates)
    returns (r: Result<(seq<Json>, Collections), string>)
    ensures r.Ok? <==> (forall i :: 0 <= i < |ms| ==> ms[i].JObj?) && (CreatedBy(ms, |ms|) ==> Pushable(c))
    ensures r.Ok? ==> |r.value.0| == |ms| &&
                      forall i :: 0 <= i < |ms| ==> r.value.0[i] == AssignTechnique(ms[i], IdAfter(ms, i, c))
    ensures r.Ok? && CreatedBy(ms, |ms|) ==> r.value.1 == WithDefaults(c, t)
    ensures r.Ok? && !CreatedBy(ms, |ms|) ==> r.value.1 == c
  {
    var out: seq<Json> := [];
    var st := TechniqueState(c, None);
    var i := 0;
    while i < |ms|
      invariant MaterialsUpTo(ms, c, t, i, out, st)
    {
      var step := VisitMaterial(ms[i], st, c, t, CreatedBy(ms, i));
      if step.Err? {
        CreatedFirst(ms, i);
        return Err(step.error);
      }
      MaterialsStep(ms, c, t, i, out, st, step.value.0, step.value.1);
      out := out + [step.value.0];
      st := step.value.1;
      i := i + 1;
    }
    return Ok((out, st.collections));
  }

  /** The first `i` materials are visited. */
  ghost predicate MaterialsUpTo(ms: seq<Json>, c: Collections, t: Templates, i: int, out: seq<Json>, st: TechniqueState) {
    && 0 <= i <= |ms| && |out| == i
    && (forall k :: 0 <= k < i ==> ms[k].JObj? && out[k] == AssignTechnique(ms[k], IdAfter(ms, k, c)))
    && TechniqueStateFor(st, c, t, CreatedBy(ms, i))
  }

  lemma MaterialsStep(ms: seq<Json>, c: Collections, t: Templates, i: int, out: seq<Json>, st: TechniqueState, m: Json, st': TechniqueState)
    requires MaterialsUpTo(ms, c, t, i, out, st) && i < |ms| && ms[i].JObj?
    requires m == AssignTechnique(ms[i], if CreatedBy(ms, i) || Creates(ms[i]) then Some(NextIndex(c.techniques)) else None)
    requires TechniqueStateFor(st', c, t, CreatedBy(ms, i) || Creates(ms[i]))
    ensures MaterialsUpTo(ms, c, t, i + 1, out + [m], st')
  {
    CreatedGrow(ms, i);
  }

  /** `addDefaultTechnique(gltf)` on `gltf.materials` and the three
      collections.  The first material lacking a technique and without
      `KHR_materials_common` creates one default technique, program and two
      shaders; every material lacking a technique is then given the
      default's id as it stands when the loop reaches it, so one visited
      before the default exists is given `undefined`. */
  method AddDefaultTechnique(materials: Option<Json>, c: Collections, t: Templates)
    returns (r: Result<(Option<Json>, Collections), string>)
    ensures r.Ok? <==> Defined(materials)
                       && (forall i :: 0 <= i < |ElemsOf(materials)| ==> ElemsOf(materials)[i].JObj?)
                       && (CreatedBy(ElemsOf(materials), |ElemsOf(materials)|) ==> Pushable(c))
    ensures r.Ok? && !materials.value.JArr? ==> r.value == (materials, c)
    ensures r.Ok? && materials.value.JArr? ==>
              && r.value.0.Some? && r.value.0.value.JArr? && |r.value.0.value.elems| == |materials.value.elems|
              && forall i :: 0 <= i < |materials.value.elems| ==>
                   r.value.0.value.elems[i] == AssignTechnique(materials.value.elems[i], IdAfter(materials.value.elems, i, c))
    ensures r.Ok? && CreatedBy(ElemsOf(materials), |ElemsOf(materials)|) ==> r.value.1 == WithDefaults(c, t)
    ensures r.Ok? && !CreatedBy(ElemsOf(materials), |ElemsOf(materials)|) ==> r.value.1 == c
  {
    if !Defined(materials) {
      return Err("TypeError: Cannot read property 'length' of undefined");
    }
    if !materials.value.JArr? {
      return Ok((materials, c));
    }
    var step := VisitMaterials(materials.value.elems, c, t);
    if step.Err? {
      return Err(step.error);
    }
    return Ok((Some(JArr(step.value.0)), step.value.1));
  }

  lemma CreatedGrow(ms: seq<Json>, i: nat)
    requires i < |ms|
    ensures CreatedBy(ms, i + 1) == (CreatedBy(ms, i) || Creates(ms[i]))
  {
    if Creates(ms[i]) {
      assert 0 <= i < i + 1 && Creates(ms[i]);
    }
    if CreatedBy(ms, i) {
      var k :| 0 <= k < i && Creates(ms[k]);
      assert 0 <= k < i + 1 && Creates(ms[k]);
    }
  }

  lemma CreatedFirst(ms: seq<Json>, i: nat)
    requires i < |ms|
    ensures CreatedBy(ms, i) || Creates(ms[i]) ==> CreatedBy(ms, |ms|)
  {
    if Creates(ms[i]) {
      assert 0 <= i < |ms| && Creates(ms[i]);
    }
    if CreatedBy(ms, i) {
      var k :| 0 <= k < i && Creates(ms[k]);
      assert 0 <= k < |ms| && Creates(ms[k]);
    }
  }

  /** After the pass no material would create a default technique: each one
      that lacked a technique either has the default now or was given
      `undefined` because it carries `KHR_materials_common` and came before
      the default existed.  A second pass therefore adds no second default
      technique. */
  lemma {:induction false} SecondPassCreatesNothing(ms: seq<Json>, c: Collections, out: seq<Json>)
    requires forall i :: 0 <= i < |ms| ==> ms[i].JObj?
    requires |out| == |ms| && forall i :: 0 <= i < |ms| ==> out[i] == AssignTechnique(ms[i], IdAfter(ms, i, c))
    ensures forall i :: 0 <= i < |out| ==> out[i].JObj?
    ensures !CreatedBy(out, |out|)
  {
    forall i | 0 <= i < |out|
      ensures out[i].JObj? && !Creates(out[i])
    {
      if NeedsTechnique(ms[i]) && IdAfter(ms, i, c).None? {
        DeleteKeepsCommon(ms[i].fields, "technique");
      }
    }
  }

  /** Removing a property other than `extensions` keeps what `HasCommon`
      reads. */
  lemma DeleteKeepsCommon(fs: seq<Field>, k: string)
    requires k != "extensions"
    ensures HasCommon(JObj(Delete(fs, k))) == HasCommon(JObj(fs))
  {
    assert Lookup(Delete(fs, k), "extensions") == Lookup(fs, "extensions");
  }

  /** The default technique's references resolve: the technique names the
      new program, the program names the two new shaders, and those are the
      templates; the existing entries keep their places. */
  lemma DefaultTechniqueLinks(c: Collections, t: Templates)
    requires Pushable(c)
    ensures var d := WithDefaults(c, t);
            var ts := d.techniques.value.elems;
            var ps := d.programs.value.elems;
            var ss := d.shaders.value.elems;
            && c.techniques.value.elems <= ts && c.programs.value.elems <= ps && c.shaders.value.elems <= ss
            && |ts| == NextIndex(c.techniques) + 1
            && ts[NextIndex(c.techniques)].JObj?
            && Lookup(ts[NextIndex(c.techniques)].fields, "program") == Some(JNum(|ps| - 1))
            && ps[|ps| - 1].JObj?
            && Lookup(ps[|ps| - 1].fields, "vertexShader") == Some(JNum(|ss| - 2))
            && Lookup(ps[|ps| - 1].fields, "fragmentShader") == Some(JNum(|ss| - 1))
            && ss[|ss| - 2] == t.vertexShader && ss[|ss| - 1] == t.fragmentShader
  {
  }

  // ---------------------------------------------------------------------
  // addDefaultByteOffsets and selectDefaultScene

  /** An accessor or buffer view with `byteOffset` defaulted to 0. */
  function OffsetDefault(v: Json): Json
    requires v.JObj?
  {
    JObj(SetDefault(v.fields, "byteOffset", JNum(0)))
  }

  /** One loop of `addDefaultByteOffsets`: every element must be an object;
      an undefined `byteOffset` becomes 0 and nothing else changes. */
  method DefaultOffsets(vs: seq<Json>) returns (r: Result<seq<Json>, string>)
    ensures r.Ok? <==> forall i :: 0 <= i < |vs| ==> vs[i].JObj?
    ensures r.Ok? ==> |r.value| == |vs| && forall i :: 0 <= i < |vs| ==> r.value[i] == OffsetDefault(vs[i])
  {
    var out: seq<Json> := [];
    var i := 0;
    while i < |vs|
      invariant OffsetsUpTo(vs, i, out)
    {
      if !vs[i].JObj? {
        return Err("TypeError: Cannot set property 'byteOffset'");
      }
      OffsetsStep(vs, i, out);
      out := out + [OffsetDefault(vs[i])];
      i := i + 1;
    }
    return Ok(out);
  }

  /** The first `i` elements are objects and are defaulted in `out`. */
  ghost predicate OffsetsUpTo(vs: seq<Json>, i: int, out: seq<Json>) {
    && 0 <= i <= |vs| && |out| == i
    && forall k :: 0 <= k < i ==> vs[k].JObj? && out[k] == OffsetDefault(vs[k])
  }

  lemma OffsetsStep(vs: seq<Json>, i: int, out: seq<Json>)
    requires OffsetsUpTo(vs, i, out) && i < |vs| && vs[i].JObj?
    ensures OffsetsUpTo(vs, i + 1, out + [OffsetDefault(vs[i])])
  {
  }

  /** `addDefaultByteOffsets(gltf)` on `gltf.accessors` and
      `gltf.bufferViews`; an undefined collection throws, one without
      `length` is left alone. */
  method AddDefaultByteOffsets(accessors: Option<Json>, bufferViews: Option<Json>)
    returns (r: Result<(Option<Json>, Option<Json>), string>)
    ensures r.Ok? <==> Defined(accessors) && Defined(bufferViews)
                       && (forall i :: 0 <= i < |ElemsOf(accessors)| ==> ElemsOf(accessors)[i].JObj?)
                       && (forall i :: 0 <= i < |ElemsOf(bufferViews)| ==> ElemsOf(bufferViews)[i].JObj?)
    ensures r.Ok? ==> OffsetsFilled(accessors, r.value.0) && OffsetsFilled(bufferViews, r.value.1)
  {
    if !Defined(accessors) {
      return Err("TypeError: Cannot read property 'length' of undefined");
    }
    var a := accessors;
    if accessors.value.JArr? {
      assert ElemsOf(accessors) == accessors.value.elems;
      var step := DefaultOffsets(accessors.value.elems);
      if step.Err? {
        return Err(step.error);
      }
      a := Some(JArr(step.value));
    }
    if !Defined(bufferViews) {
      return Err("TypeError: Cannot read property 'length' of undefined");
    }
    var b := bufferViews;
    if bufferViews.value.JArr? {
      assert ElemsOf(bufferViews) == bufferViews.value.elems;
      var step := DefaultOffsets(bufferViews.value.elems);
      if step.Err? {
        return Err(step.error);
      }
      b := Some(JArr(step.value));
    }
    return Ok((a, b));
  }

  /** `after` is `before` with every element's `byteOffset` defaulted, or
      `before` itself when it is not an array. */
  predicate OffsetsFilled(before: Option<Json>, after: Option<Json>)
    requires forall i :: 0 <= i < |ElemsOf(before)| ==> ElemsOf(before)[i].JObj?
  {
    if IsArray(before) then
      && IsArray(after) && |ElemsOf(after)| == |ElemsOf(before)|
      && forall i :: 0 <= i < |ElemsOf(before)| ==> ElemsOf(after)[i] == OffsetDefault(ElemsOf(before)[i])
    else after == before
  }

  /** Only an undefined `byteOffset` is set, to 0, and no other property
      changes; defaulting twice is defaulting once. */
  lemma OffsetDefaultRule(v: Json)
    requires v.JObj?
    ensures Defined(Lookup(v.fields, "byteOffset")) ==> OffsetDefault(v) == v
    ensures !Defined(Lookup(v.fields, "byteOffset")) ==> Lookup(OffsetDefault(v).fields, "byteOffset") == Some(JNum(0))
    ensures forall k :: k != "byteOffset" ==> Lookup(OffsetDefault(v).fields, k) == Lookup(v.fields, k)
    ensures OffsetDefault(OffsetDefault(v)) == OffsetDefault(v)
  {
  }

  /** `selectDefaultScene(gltf)`: `scene` becomes 0 exactly when `scenes` is
      defined and `scene` is not; no other property changes. */
  function SelectDefaultScene(gltf: seq<Field>): (r: seq<Field>)
    ensures Defined(Lookup(gltf, "scenes")) && !Defined(Lookup(gltf, "scene")) ==> Lookup(r, "scene") == Some(JNum(0))
    ensures !(Defined(Lookup(gltf, "scenes")) && !Defined(Lookup(gltf, "scene"))) ==> r == gltf
    ensures forall k :: k != "scene" ==> Lookup(r, k) == Lookup(gltf, k)
  {
    if Defined(Lookup(gltf, "scenes")) && !Defined(Lookup(gltf, "scene")) then Put(gltf, "scene", JNum(0)) else gltf
  }

  /** After selecting a default scene, an asset with scenes has a defined
      scene, and selecting again changes nothing. */
  lemma SelectDefaultSceneIdempotent(gltf: seq<Field>)
    ensures Defined(Lookup(gltf, "scenes")) ==> Defined(Lookup(SelectDefaultScene(gltf), "scene"))
    ensures SelectDefaultScene(SelectDefaultScene(gltf)) == SelectDefaultScene(gltf)
  {
  }
}
