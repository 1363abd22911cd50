/** The per-kind defaulting body of `addDefaults` (the first of the two
    declarations, lib/addDefaults.js:30-126): every accessor, animation
    sampler, buffer view, primitive, material, node and sampler gets the
    values it lacks.  Each default goes through `defaultValue`, so a field
    that is defined keeps its value. */
module AddDefaults {
  import opened Wrappers
  import opened Json
  import opened GlConstants
  import opened CleanupPasses

  // ---------------------------------------------------------------------
  // Filling from a table of defaults

  /** A table of defaults, none of them `null`. */
  predicate Table(ds: seq<Field>) {
    forall i :: 0 <= i < |ds| ==> ds[i].value != JNull
  }

  /** `o.k = defaultValue(o.k, v)` for each entry of the table, in order. */
  function Fill(fs: seq<Field>, ds: seq<Field>): seq<Field>
    decreases |ds|
  {
    if ds == [] then fs else Fill(SetDefault(fs, ds[0].key, ds[0].value), ds[1..])
  }

  /** `r` is `fs` with each key the table names filled when undefined;
      every other property reads as before. */
  ghost predicate FilledFrom(fs: seq<Field>, ds: seq<Field>, r: seq<Field>) {
    forall k :: Lookup(r, k) == (if !Defined(Lookup(fs, k)) && Lookup(ds, k).Some? then Lookup(ds, k) else Lookup(fs, k))
  }

  /** Filling assigns a key only when it is undefined, and then the table's
      value; nothing that is defined is overwritten. */
  lemma {:induction false} FillSpec(fs: seq<Field>, ds: seq<Field>)
    requires Table(ds)
    ensures FilledFrom(fs, ds, Fill(fs, ds))
    decreases |ds|
  {
    if ds != [] {
      var fs1 := SetDefault(fs, ds[0].key, ds[0].value);
      FillSpec(fs1, ds[1..]);
      forall k ensures Lookup(Fill(fs, ds), k) ==
                (if !Defined(Lookup(fs, k)) && Lookup(ds, k).Some? then Lookup(ds, k) else Lookup(fs, k))
      {
        if k == ds[0].key {
          assert Defined(Lookup(fs1, k));
        } else {
          assert Lookup(ds, k) == Lookup(ds[1..], k);
        }
      }
    }
  }

  /** After filling, every key of the table is defined. */
  lemma FillDefines(fs: seq<Field>, ds: seq<Field>, k: string)
    requires Table(ds) && Lookup(ds, k).Some?
    ensures Defined(Lookup(Fill(fs, ds), k))
  {
    FillSpec(fs, ds);
    LookupFound(ds, k);
  }

  /** Filling an object whose table keys are all defined changes nothing:
      the defaults are idempotent. */
  lemma {:induction false} FillNoop(fs: seq<Field>, ds: seq<Field>)
    requires forall i :: 0 <= i < |ds| ==> Defined(Lookup(fs, ds[i].key))
    ensures Fill(fs, ds) == fs
  {
    if ds != [] {
      assert forall i :: 0 <= i < |ds[1..]| ==> ds[1..][i] == ds[i + 1];
      FillNoop(fs, ds[1..]);
    }
  }

  /** Filling twice is filling once. */
  lemma FillIdempotent(fs: seq<Field>, ds: seq<Field>)
    requires Table(ds)
    ensures Fill(Fill(fs, ds), ds) == Fill(fs, ds)
  {
    forall i | 0 <= i < |ds| ensures Defined(Lookup(Fill(fs, ds), ds[i].key)) {
      LookupAt(ds, i);
      FillDefines(fs, ds, ds[i].key);
    }
    FillNoop(Fill(fs, ds), ds);
  }

  /** A handler that fills an object from a table; other values are left
      alone. */
  function FillObject(o: Json, ds: seq<Field>): Json {
    if o.JObj? then JObj(Fill(o.fields, ds)) else o
  }

  // ---------------------------------------------------------------------
  // Accessors, animation samplers, buffer views, primitives, samplers

  const AccessorTable: seq<Field> := [Field("byteStride", JNum(0)), Field("normalized", JBool(false))]
  const AnimationSamplerTable: seq<Field> := [Field("interpolation", JStr("LINEAR"))]
  const BufferViewTable: seq<Field> := [Field("byteOffset", JNum(0))]
  const PrimitiveTable: seq<Field> := [Field("mode", JNum(TRIANGLES))]
  const SamplerTable: seq<Field> := [Field("wrapS", JNum(REPEAT)), Field("wrapT", JNum(REPEAT))]

  /** The accessor handler: `byteStride` 0 and `normalized` false when
      undefined. */
  function AccessorDefaults(a: Json): Json {
    FillObject(a, AccessorTable)
  }

  /** The animation handler: every sampler's `interpolation` defaults to
      `'LINEAR'`. */
  function AnimationDefaults(a: Json): Json {
    if a.JObj? then JObj(Within(a.fields, "samplers", s => FillObject(s, AnimationSamplerTable))) else a
  }

  /** The buffer view handler: `byteOffset` 0 when undefined. */
  function BufferViewDefaults(v: Json): Json {
    FillObject(v, BufferViewTable)
  }

  /** The mesh handler: every primitive's `mode` defaults to `TRIANGLES`. */
  function MeshDefaults(m: Json): Json {
    if m.JObj? then JObj(Within(m.fields, "primitives", p => FillObject(p, PrimitiveTable))) else m
  }

  /** The sampler handler: both wrap modes default to `REPEAT`. */
  function SamplerDefaults(s: Json): Json {
    FillObject(s, SamplerTable)
  }

  /** The defaults of the simple handlers: each named field is its old
      value when defined and the default otherwise; no other field changes. */
  lemma SimpleDefaults(a: seq<Field>)
    ensures FilledFrom(a, AccessorTable, Fill(a, AccessorTable))
    ensures FilledFrom(a, AnimationSamplerTable, Fill(a, AnimationSamplerTable))
    ensures FilledFrom(a, BufferViewTable, Fill(a, BufferViewTable))
    ensures FilledFrom(a, PrimitiveTable, Fill(a, PrimitiveTable))
    ensures FilledFrom(a, SamplerTable, Fill(a, SamplerTable))
  {
    FillSpec(a, AccessorTable);
    FillSpec(a, AnimationSamplerTable);
    FillSpec(a, BufferViewTable);
    FillSpec(a, PrimitiveTable);
    FillSpec(a, SamplerTable);
  }

  // ---------------------------------------------------------------------
  // Nodes

  const TrsTable: seq<Field> :=
    [Field("translation", JArr([JNum(0), JNum(0), JNum(0)])),
     Field("rotation", JArr([JNum(0), JNum(0), JNum(0), JNum(1)])),
     Field("scale", JArr([JNum(1), JNum(1), JNum(1)]))]

  /** The 4x4 identity, column-major. */
  const Identity: Json :=
    JArr([JNum(1), JNum(0), JNum(0), JNum(0), JNum(0), JNum(1), JNum(0), JNum(0),
          JNum(0), JNum(0), JNum(1), JNum(0), JNum(0), JNum(0), JNum(0), JNum(1)])

  const MatrixTable: seq<Field> := [Field("matrix", Identity)]

  /** Whether the node gives its transform as translation, rotation and
      scale. */
  predicate HasTrs(fs: seq<Field>) {
    Defined(Lookup(fs, "translation")) || Defined(Lookup(fs, "rotation")) || Defined(Lookup(fs, "scale"))
  }

  /** The node handler: a node with any of translation, rotation or scale
      gets all three; any other node gets the identity `matrix`. */
  function NodeDefaults(n: Json): Json {
    if !n.JObj? then n
    else if HasTrs(n.fields) then JObj(Fill(n.fields, TrsTable))
    else JObj(Fill(n.fields, MatrixTable))
  }

  /** The two node cases: translation, rotation and scale are filled
      exactly when one of them is defined, `matrix` exactly when none is;
      nothing defined is overwritten. */
  lemma NodeDefaultsRule(n: seq<Field>)
    ensures var r := NodeDefaults(JObj(n)).fields;
            && (HasTrs(n) ==> FilledFrom(n, TrsTable, r) && Lookup(r, "matrix") == Lookup(n, "matrix"))
            && (!HasTrs(n) ==> FilledFrom(n, MatrixTable, r) && Defined(Lookup(r, "matrix")) && !HasTrs(r))
  {
    if HasTrs(n) {
      FillSpec(n, TrsTable);
    } else {
      FillSpec(n, MatrixTable);
    }
  }

  /** Defaulting a node twice is defaulting it once. */
  lemma NodeDefaultsIdempotent(n: Json)
    ensures NodeDefaults(NodeDefaults(n)) == NodeDefaults(n)
  {
    if n.JObj? {
      NodeDefaultsRule(n.fields);
      if HasTrs(n.fields) {
        FillIdempotent(n.fields, TrsTable);
        FillDefines(n.fields, TrsTable, "translation");
      } else {
        FillIdempotent(n.fields, MatrixTable);
      }
    }
  }

  // ---------------------------------------------------------------------
  // Materials

  /** A property read `v[k]` on a value: an object's field; nothing on any
      other value that is not `null`. */
  function Prop(v: Json, k: string): Option<Json> {
    if v.JObj? then Lookup(v.fields, k) else None
  }

  /** The `KHR_materials_common` values every technique gets. */
  const CommonTable: seq<Field> :=
    [Field("ambient", JArr([JNum(0), JNum(0), JNum(0), JNum(1)])),
     Field("emission", JArr([JNum(0), JNum(0), JNum(0), JNum(1)])),
     Field("transparency", JNum(1)),
     Field("transparent", JBool(false)),
     Field("doubleSided", JBool(false))]

  const DiffuseTable: seq<Field> := [Field("diffuse", JArr([JNum(0), JNum(0), JNum(0), JNum(1)]))]

  const SpecularTable: seq<Field> := [Field("specular", JArr([JNum(0), JNum(0), JNum(0), JNum(1)])), Field("shininess", JNum(0))]

  /** The defaults of a `KHR_materials_common` technique: `diffuse` unless
      it is `'CONSTANT'`, `specular` and `shininess` unless it is
      `'CONSTANT'` or `'LAMBERT'`. */
  function CommonDefaultsFor(technique: Option<Json>): seq<Field> {
    CommonTable
    + (if technique != Some(JStr("CONSTANT")) then
         DiffuseTable + (if technique != Some(JStr("LAMBERT")) then SpecularTable else [])
       else [])
  }

  /** Which values each technique is given: `diffuse` exactly when the
      technique is not `'CONSTANT'`, `specular` and `shininess` exactly when
      it is neither `'CONSTANT'` nor `'LAMBERT'`. */
  lemma CommonDefaultsRule(technique: Option<Json>)
    ensures Lookup(CommonDefaultsFor(technique), "diffuse").Some? <==> technique != Some(JStr("CONSTANT"))
    ensures Lookup(CommonDefaultsFor(technique), "specular").Some? <==>
              technique != Some(JStr("CONSTANT")) && technique != Some(JStr("LAMBERT"))
    ensures Lookup(CommonDefaultsFor(technique), "shininess").Some? <==>
              technique != Some(JStr("CONSTANT")) && technique != Some(JStr("LAMBERT"))
    ensures Table(CommonDefaultsFor(technique))
  {
    var rest := if technique != Some(JStr("CONSTANT")) then
                  DiffuseTable + (if technique != Some(JStr("LAMBERT")) then SpecularTable else [])
                else [];
    LookupAppend(CommonTable, rest, "diffuse");
    LookupAppend(CommonTable, rest, "specular");
    LookupAppend(CommonTable, rest, "shininess");
    if technique != Some(JStr("CONSTANT")) {
      var spec := if technique != Some(JStr("LAMBERT")) then SpecularTable else [];
      LookupAppend(DiffuseTable, spec, "diffuse");
      LookupAppend(DiffuseTable, spec, "specular");
      LookupAppend(DiffuseTable, spec, "shininess");
    }
  }

  /** The `KHR_materials_common` branch: its `values` filled for its
      technique.  Reading `values` of something without them throws. */
  function CommonDefaults(m: seq<Field>, ext: seq<Field>, mc: Json): (r: Result<seq<Field>, string>)
    ensures r.Err? <==> !Defined(Prop(mc, "values"))
    ensures r.Ok? && mc.JObj? && Lookup(mc.fields, "values").value.JObj? ==>
              var values := Lookup(mc.fields, "values").value.fields;
              r.value == Put(m, "extensions", JObj(Put(ext, "KHR_materials_common",
                           JObj(Put(mc.fields, "values", JObj(Fill(values, CommonDefaultsFor(Lookup(mc.fields, "technique")))))))))
    ensures r.Ok? && !(mc.JObj? && Lookup(mc.fields, "values").value.JObj?) ==> r.value == m
  {
    if !Defined(Prop(mc, "values")) then Err("TypeError: Cannot read property 'ambient' of undefined")
    else
      var values := Lookup(mc.fields, "values").value;
      if !values.JObj? then Ok(m)
      else
        var values' := Fill(values.fields, CommonDefaultsFor(Lookup(mc.fields, "technique")));
        Ok(Put(m, "extensions", JObj(Put(ext, "KHR_materials_common", JObj(Put(mc.fields, "values", JObj(values')))))))
  }

  /** `addTextureDefaults(o[k])`: a texture's `texCoord` defaults to 0. */
  function TextureDefaults(fs: seq<Field>, k: string): seq<Field> {
    match Lookup(fs, k)
    case Some(JObj(t)) => Put(fs, k, JObj(SetDefault(t, "texCoord", JNum(0))))
    case _ => fs
  }

  /** A texture object gets a defined `texCoord`, kept when it had one. */
  lemma TextureSets(fs: seq<Field>, k: string)
    requires Lookup(fs, k).Some? && Lookup(fs, k).value.JObj?
    ensures var t := Lookup(TextureDefaults(fs, k), k);
            && t.Some? && t.value.JObj?
            && Lookup(t.value.fields, "texCoord") ==
               if Defined(Lookup(Lookup(fs, k).value.fields, "texCoord")) then Lookup(Lookup(fs, k).value.fields, "texCoord")
               else Some(JNum(0))
  {
  }

  /** Only the texture itself changes. */
  lemma TextureOther(fs: seq<Field>, k: string, k': string)
    requires k != k'
    ensures Lookup(TextureDefaults(fs, k), k') == Lookup(fs, k')
  {
  }

  /** Filling never touches a key the table does not name. */
  lemma {:induction false} FillOther(fs: seq<Field>, ds: seq<Field>, k: string)
    requires Lookup(ds, k).None?
    ensures Lookup(Fill(fs, ds), k) == Lookup(fs, k)
    decreases |ds|
  {
    if ds != [] {
      FillOther(SetDefault(fs, ds[0].key, ds[0].value), ds[1..], k);
    }
  }

  /** Where the texture defaults of the two PBR blocks look for their
      textures: on the material, as the source reads `material.baseColorTexture`,
      or inside the block that holds them in glTF 2.0. */
  datatype TextureRule = OnMaterial | InBlock

  const MaterialTable: seq<Field> :=
    [Field("emissiveFactor", JArr([JNum(0), JNum(0), JNum(0), JNum(1)])),
     Field("alphaMode", JStr("OPAQUE")),
     Field("doubleSided", JBool(false))]

  const MetallicRoughnessTable: seq<Field> :=
    [Field("baseColorFactor", JArr([JNum(1), JNum(1), JNum(1), JNum(1)])),
     Field("metallicFactor", JNum(1)),
     Field("roughnessFactor", JNum(1))]

  const SpecularGlossinessTable: seq<Field> :=
    [Field("diffuseFactor", JArr([JNum(1), JNum(1), JNum(1), JNum(1)])),
     Field("specularFactor", JArr([JNum(1), JNum(1), JNum(1)])),
     Field("glossinessFactor", JNum(1))]

  /** The factors, alpha mode and texture coordinates of a material without
      `KHR_materials_common`.  `alphaCutoff` (0.5 in the source) is given. */
  function MaterialPbrDefaults(m: seq<Field>, alphaCutoff: Json, rule: TextureRule): seq<Field> {
    SpecularGlossinessDefaults(MetallicRoughnessDefaults(MaterialBaseDefaults(m, alphaCutoff), rule), rule)
  }

  /** The factors and alpha mode of the material itself, and its own three
      textures; the two PBR blocks are not touched. */
  function MaterialBaseDefaults(m: seq<Field>, alphaCutoff: Json): seq<Field> {
    var m1 := Fill(m, MaterialTable);
    var m2 := if Lookup(m1, "alphaMode") == Some(JStr("MASK")) then SetDefault(m1, "alphaCutoff", alphaCutoff) else m1;
    TextureDefaults(TextureDefaults(TextureDefaults(m2, "emissiveTexture"), "normalTexture"), "occlusionTexture")
  }

  /** The `pbrMetallicRoughness` block: its factors, then the textures. */
  function MetallicRoughnessDefaults(m: seq<Field>, rule: TextureRule): seq<Field> {
    var pbr := Lookup(m, "pbrMetallicRoughness");
    if !Defined(pbr) then m
    else if rule == OnMaterial then
      var m' := if pbr.value.JObj? then Put(m, "pbrMetallicRoughness", JObj(Fill(pbr.value.fields, MetallicRoughnessTable))) else m;
      TextureDefaults(TextureDefaults(m', "baseColorTexture"), "metallicRoughnessTexture")
    else if pbr.value.JObj? then
      var p := Fill(pbr.value.fields, MetallicRoughnessTable);
      Put(m, "pbrMetallicRoughness", JObj(TextureDefaults(TextureDefaults(p, "baseColorTexture"), "metallicRoughnessTexture")))
    else m
  }

  /** The `extensions.pbrSpecularGlossiness` block: its factors, then the
      texture. */
  function SpecularGlossinessDefaults(m: seq<Field>, rule: TextureRule): seq<Field> {
    var ext := Lookup(m, "extensions");
    var sg := if ext.Some? then Prop(ext.value, "pbrSpecularGlossiness") else None;
    if !Defined(sg) then m
    else if rule == OnMaterial then
      var m' := if sg.value.JObj? then Put(m, "extensions", JObj(Put(ext.value.fields, "pbrSpecularGlossiness",
                                                              JObj(Fill(sg.value.fields, SpecularGlossinessTable))))) else m;
      TextureDefaults(m', "specularGlossinessTexture")
    else if sg.value.JObj? then
      var s := TextureDefaults(Fill(sg.value.fields, SpecularGlossinessTable), "specularGlossinessTexture");
      Put(m, "extensions", JObj(Put(ext.value.fields, "pbrSpecularGlossiness", JObj(s))))
    else m
  }

  /** The material handler.  A glTF 1.0 material (when `extensionsUsed`
      has a `KHR_technique_webgl` property) is left alone; otherwise
      `material.extensions.KHR_materials_common` is read, which throws for a
      material without `extensions` and for one that is not an object. */
  function MaterialDefaults(m: Json, webgl: bool, alphaCutoff: Json, rule: TextureRule): (r: Result<Json, string>)
    ensures webgl ==> r == Ok(m)
    ensures !webgl && !m.JObj? ==> r.Err?
    ensures !webgl && m.JObj? && !Defined(Lookup(m.fields, "extensions")) ==> r.Err?
    ensures !webgl && m.JObj? && Defined(Lookup(m.fields, "extensions")) ==>
              var mc := Prop(Lookup(m.fields, "extensions").value, "KHR_materials_common");
              && (r.Err? <==> Defined(mc) && !Defined(Prop(mc.value, "values")))
              && (!Defined(mc) ==> r == Ok(JObj(MaterialPbrDefaults(m.fields, alphaCutoff, rule))))
              && (Defined(mc) && r.Ok? ==>
                    r.value.JObj? && forall k :: k != "extensions" ==> Lookup(r.value.fields, k) == Lookup(m.fields, k))
  {
    if webgl then Ok(m)
    else if !m.JObj? then Err("TypeError: Cannot read property 'KHR_materials_common' of undefined")
    else
      var ext := Lookup(m.fields, "extensions");
      if !Defined(ext) then Err("TypeError: Cannot read property 'KHR_materials_common' of undefined")
      else
        var mc := Prop(ext.value, "KHR_materials_common");
        if Defined(mc) then
          var fs :- CommonDefaults(m.fields, ext.value.fields, mc.value);
          Ok(JObj(fs))
        else Ok(JObj(MaterialPbrDefaults(m.fields, alphaCutoff, rule)))
  }

  /** `alphaCutoff` is filled only for a material whose (defaulted)
      `alphaMode` is `'MASK'`, and every defined factor keeps its value. */
  lemma MaterialAlphaRule(m: seq<Field>, alphaCutoff: Json)
    requires alphaCutoff != JNull
    ensures var m1 := Fill(m, MaterialTable);
            && FilledFrom(m, MaterialTable, m1)
            && (Lookup(m1, "alphaMode") == Some(JStr("MASK")) <==>
                  Lookup(m, "alphaMode") == Some(JStr("MASK")))
    ensures Lookup(MaterialBaseDefaults(m, alphaCutoff), "alphaCutoff") ==
              if Lookup(m, "alphaMode") == Some(JStr("MASK")) && !Defined(Lookup(m, "alphaCutoff"))
              then Some(alphaCutoff) else Lookup(m, "alphaCutoff")
    ensures Defined(Lookup(MaterialBaseDefaults(m, alphaCutoff), "alphaCutoff")) <==>
              Lookup(m, "alphaMode") == Some(JStr("MASK")) || Defined(Lookup(m, "alphaCutoff"))
  {
    FillSpec(m, MaterialTable);
    var m1 := Fill(m, MaterialTable);
    FillOther(m, MaterialTable, "alphaCutoff");
    var m2 := if Lookup(m1, "alphaMode") == Some(JStr("MASK")) then SetDefault(m1, "alphaCutoff", alphaCutoff) else m1;
    TextureOther(m2, "emissiveTexture", "alphaCutoff");
    TextureOther(TextureDefaults(m2, "emissiveTexture"), "normalTexture", "alphaCutoff");
    TextureOther(TextureDefaults(TextureDefaults(m2, "emissiveTexture"), "normalTexture"), "occlusionTexture", "alphaCutoff");
  }

  // ---------------------------------------------------------------------
  // The body

  /** `defined(gltf.extensionsUsed) && defined(gltf.extensionsUsed.KHR_technique_webgl)`.
      On an array of extension names the property read finds nothing. */
  predicate TechniqueWebgl(gltf: seq<Field>) {
    var used := Lookup(gltf, "extensionsUsed");
    Defined(used) && Defined(Prop(used.value, "KHR_technique_webgl"))
  }

  /** The collections the body visits. */
  const DefaultedKinds: set<string> := {"accessors", "animations", "bufferViews", "meshes", "materials", "nodes", "samplers"}

  /** The material handler as the body applies it. */
  function MaterialHandler(webgl: bool, alphaCutoff: Json, rule: TextureRule): Json -> Result<Json, string> {
    m => MaterialDefaults(m, webgl, alphaCutoff, rule)
  }

  /** The body of the first `addDefaults`: each handler over its collection,
      in the source's order; a material that throws aborts the rest. */
  function AddDefaultsBody(gltf: seq<Field>, alphaCutoff: Json, rule: TextureRule): (r: Result<seq<Field>, string>)
    ensures r.Ok? <==> Lookup(gltf, "materials").None? ||
                       EachOfOk(Lookup(gltf, "materials").value, MaterialHandler(TechniqueWebgl(gltf), alphaCutoff, rule)).Ok?
    ensures r.Ok? ==> forall k :: k !in DefaultedKinds ==> Lookup(r.value, k) == Lookup(gltf, k)
  {
    var webgl := TechniqueWebgl(gltf);
    var g1 := Within(Within(Within(Within(gltf, "accessors", AccessorDefaults), "animations", AnimationDefaults),
                            "bufferViews", BufferViewDefaults), "meshes", MeshDefaults);
    WithinOther(gltf, "accessors", AccessorDefaults, "materials");
    WithinOther(Within(gltf, "accessors", AccessorDefaults), "animations", AnimationDefaults, "materials");
    WithinOther(Within(Within(gltf, "accessors", AccessorDefaults), "animations", AnimationDefaults), "bufferViews",
                BufferViewDefaults, "materials");
    WithinOther(Within(Within(Within(gltf, "accessors", AccessorDefaults), "animations", AnimationDefaults),
                       "bufferViews", BufferViewDefaults), "meshes", MeshDefaults, "materials");
    var g2 :- WithinOk(g1, "materials", MaterialHandler(webgl, alphaCutoff, rule));
    Ok(Within(Within(g2, "nodes", NodeDefaults), "samplers", SamplerDefaults))
  }

  /** The handler the body applies to each collection other than
      `materials`. */
  function HandlerFor(k: string): Json -> Json {
    if k == "accessors" then AccessorDefaults
    else if k == "animations" then AnimationDefaults
    else if k == "bufferViews" then BufferViewDefaults
    else if k == "meshes" then MeshDefaults
    else if k == "nodes" then NodeDefaults
    else SamplerDefaults
  }

  /** The four collections visited before the materials each hold their
      elements as their handler leaves them. */
  lemma EarlyKindVisited(gltf: seq<Field>, alphaCutoff: Json, rule: TextureRule, k: string)
    requires AddDefaultsBody(gltf, alphaCutoff, rule).Ok? && Lookup(gltf, k).Some?
    requires k == "accessors" || k == "animations" || k == "bufferViews" || k == "meshes"
    ensures Lookup(AddDefaultsBody(gltf, alphaCutoff, rule).value, k) == Some(EachOf(Lookup(gltf, k).value, HandlerFor(k)))
  {
    var g0 := Within(gltf, "accessors", AccessorDefaults);
    var g1 := Within(g0, "animations", AnimationDefaults);
    var g2 := Within(g1, "bufferViews", BufferViewDefaults);
    var g3 := Within(g2, "meshes", MeshDefaults);
    var g4 := WithinOk(g3, "materials", MaterialHandler(TechniqueWebgl(gltf), alphaCutoff, rule)).value;
    var g5 := Within(g4, "nodes", NodeDefaults);
    var r := Within(g5, "samplers", SamplerDefaults);
    assert r == AddDefaultsBody(gltf, alphaCutoff, rule).value;
    assert Lookup(r, k) == Lookup(g3, k);
    if k == "accessors" {
    } else if k == "animations" {
    } else if k == "bufferViews" {
    }
  }

  /** The nodes and samplers, visited after the materials, each hold their
      elements as their handler leaves them. */
  lemma LateKindVisited(gltf: seq<Field>, alphaCutoff: Json, rule: TextureRule, k: string)
    requires AddDefaultsBody(gltf, alphaCutoff, rule).Ok? && Lookup(gltf, k).Some?
    requires k == "nodes" || k == "samplers"
    ensures Lookup(AddDefaultsBody(gltf, alphaCutoff, rule).value, k) == Some(EachOf(Lookup(gltf, k).value, HandlerFor(k)))
  {
    var g0 := Within(gltf, "accessors", AccessorDefaults);
    var g1 := Within(g0, "animations", AnimationDefaults);
    var g2 := Within(g1, "bufferViews", BufferViewDefaults);
    var g3 := Within(g2, "meshes", MeshDefaults);
    var g4 := WithinOk(g3, "materials", MaterialHandler(TechniqueWebgl(gltf), alphaCutoff, rule)).value;
    var g5 := Within(g4, "nodes", NodeDefaults);
    var r := Within(g5, "samplers", SamplerDefaults);
    assert r == AddDefaultsBody(gltf, alphaCutoff, rule).value;
    assert Lookup(g4, k) == Lookup(gltf, k);
  }

  /** The materials hold their elements as the material handler leaves
      them. */
  lemma MaterialsVisited(gltf: seq<Field>, alphaCutoff: Json, rule: TextureRule)
    requires AddDefaultsBody(gltf, alphaCutoff, rule).Ok? && Lookup(gltf, "materials").Some?
    ensures Lookup(AddDefaultsBody(gltf, alphaCutoff, rule).value, "materials") ==
              Some(EachOfOk(Lookup(gltf, "materials").value, MaterialHandler(TechniqueWebgl(gltf), alphaCutoff, rule)).value)
  {
    var g0 := Within(gltf, "accessors", AccessorDefaults);
    var g1 := Within(g0, "animations", AnimationDefaults);
    var g2 := Within(g1, "bufferViews", BufferViewDefaults);
    var g3 := Within(g2, "meshes", MeshDefaults);
    var g4 := WithinOk(g3, "materials", MaterialHandler(TechniqueWebgl(gltf), alphaCutoff, rule)).value;
    var g5 := Within(g4, "nodes", NodeDefaults);
    var r := Within(g5, "samplers", SamplerDefaults);
    assert r == AddDefaultsBody(gltf, alphaCutoff, rule).value;
  }

  lemma WithinOther(fs: seq<Field>, k: string, f: Json -> Json, k': string)
    requires k != k'
    ensures Lookup(Within(fs, k, f), k') == Lookup(fs, k')
  {
  }

  // ---------------------------------------------------------------------
  // Where the PBR texture defaults look

  /** The `texCoord` of texture `tex` inside block `block` of a material. */
  function TexCoordIn(m: seq<Field>, block: string, tex: string): Option<Json> {
    match Lookup(m, block)
    case Some(JObj(b)) => (match Lookup(b, tex) case Some(JObj(t)) => Lookup(t, "texCoord") case _ => None)
    case _ => None
  }

  /** Whether block `block` of a material holds texture object `tex`. */
  predicate HasTextureIn(m: seq<Field>, block: string, tex: string) {
    match Lookup(m, block)
    case Some(JObj(b)) => Lookup(b, tex).Some? && Lookup(b, tex).value.JObj?
    case _ => false
  }

  /** The material's own defaults touch only its factors, alpha mode and
      own textures. */
  lemma MaterialBaseFrame(m: seq<Field>, alphaCutoff: Json, k: string)
    requires Lookup(MaterialTable, k).None?
    requires k != "alphaCutoff" && k != "emissiveTexture" && k != "normalTexture" && k != "occlusionTexture"
    ensures Lookup(MaterialBaseDefaults(m, alphaCutoff), k) == Lookup(m, k)
  {
    var m1 := Fill(m, MaterialTable);
    FillOther(m, MaterialTable, k);
    var m2 := if Lookup(m1, "alphaMode") == Some(JStr("MASK")) then SetDefault(m1, "alphaCutoff", alphaCutoff) else m1;
    assert Lookup(m2, k) == Lookup(m1, k);
    TextureOther(m2, "emissiveTexture", k);
    TextureOther(TextureDefaults(m2, "emissiveTexture"), "normalTexture", k);
    TextureOther(TextureDefaults(TextureDefaults(m2, "emissiveTexture"), "normalTexture"), "occlusionTexture", k);
  }

  /** Assignment leaves every other key alone. */
  lemma PutElsewhere(fs: seq<Field>, k: string, v: Json, k': string)
    requires k != k'
    ensures Lookup(Put(fs, k, v), k') == Lookup(fs, k')
  {
  }

  /** The specular-glossiness defaults touch only `extensions` and the
      material's specular-glossiness texture. */
  lemma SpecularGlossinessFrame(m: seq<Field>, rule: TextureRule, k: string)
    requires k != "extensions" && k != "specularGlossinessTexture"
    ensures Lookup(SpecularGlossinessDefaults(m, rule), k) == Lookup(m, k)
  {
    var ext := Lookup(m, "extensions");
    var sg := if ext.Some? then Prop(ext.value, "pbrSpecularGlossiness") else None;
    if Defined(sg) && sg.value.JObj? {
      var s := if rule == OnMaterial then Fill(sg.value.fields, SpecularGlossinessTable)
               else TextureDefaults(Fill(sg.value.fields, SpecularGlossinessTable), "specularGlossinessTexture");
      var m' := Put(m, "extensions", JObj(Put(ext.value.fields, "pbrSpecularGlossiness", JObj(s))));
      PutElsewhere(m, "extensions", JObj(Put(ext.value.fields, "pbrSpecularGlossiness", JObj(s))), k);
      if rule == OnMaterial {
        TextureOther(m', "specularGlossinessTexture", k);
      }
    } else if Defined(sg) && rule == OnMaterial {
      TextureOther(m, "specularGlossinessTexture", k);
    }
  }

  /** A metallic-roughness material whose base color texture sits where
      glTF 2.0 puts it, and has no `texCoord`. */
  const TexturedMaterial: seq<Field> :=
    [Field("extensions", JObj([])),
     Field("pbrMetallicRoughness", JObj([Field("baseColorTexture", JObj([Field("index", JNum(0))]))]))]

  /** As written, the texture coordinates inside the metallic-roughness
      block are never defaulted: the source defaults `material.baseColorTexture`
      and `material.metallicRoughnessTexture`, which a glTF 2.0 material does
      not have. */
  lemma BlockTexturesUntouched(m: seq<Field>, alphaCutoff: Json, tex: string)
    requires Lookup(MetallicRoughnessTable, tex).None?
    ensures TexCoordIn(MaterialPbrDefaults(m, alphaCutoff, OnMaterial), "pbrMetallicRoughness", tex) ==
            TexCoordIn(m, "pbrMetallicRoughness", tex)
  {
    var m3 := MaterialBaseDefaults(m, alphaCutoff);
    MaterialBaseFrame(m, alphaCutoff, "pbrMetallicRoughness");
    TexCoordSame(m3, m, "pbrMetallicRoughness", tex);
    var pbr := Lookup(m, "pbrMetallicRoughness");
    var m5 := MetallicRoughnessDefaults(m3, OnMaterial);
    if Defined(pbr) {
      var m' := if pbr.value.JObj? then Put(m3, "pbrMetallicRoughness", JObj(Fill(pbr.value.fields, MetallicRoughnessTable))) else m3;
      assert m5 == TextureDefaults(TextureDefaults(m', "baseColorTexture"), "metallicRoughnessTexture");
      TextureOther(m', "baseColorTexture", "pbrMetallicRoughness");
      TextureOther(TextureDefaults(m', "baseColorTexture"), "metallicRoughnessTexture", "pbrMetallicRoughness");
      TexCoordSame(m5, m', "pbrMetallicRoughness", tex);
      if pbr.value.JObj? {
        FillOther(pbr.value.fields, MetallicRoughnessTable, tex);
        TexCoordAt(m', "pbrMetallicRoughness", Fill(pbr.value.fields, MetallicRoughnessTable), tex);
        TexCoordAt(m, "pbrMetallicRoughness", pbr.value.fields, tex);
      }
    }
    SpecularGlossinessFrame(m5, OnMaterial, "pbrMetallicRoughness");
    TexCoordSame(SpecularGlossinessDefaults(m5, OnMaterial), m5, "pbrMetallicRoughness", tex);
  }

  /** The texture coordinate read through a block depends on the block only. */
  lemma TexCoordSame(m1: seq<Field>, m2: seq<Field>, block: string, tex: string)
    requires Lookup(m1, block) == Lookup(m2, block)
    ensures TexCoordIn(m1, block, tex) == TexCoordIn(m2, block, tex)
  {
  }

  /** So a base color texture that lacks `texCoord` keeps lacking it. */
  lemma BaseColorTexCoordMissed(m: seq<Field>, alphaCutoff: Json)
    requires HasTextureIn(m, "pbrMetallicRoughness", "baseColorTexture")
    requires TexCoordIn(m, "pbrMetallicRoughness", "baseColorTexture").None?
    ensures TexCoordIn(MaterialPbrDefaults(m, alphaCutoff, OnMaterial), "pbrMetallicRoughness", "baseColorTexture").None?
  {
    TableLacksTextures();
    BlockTexturesUntouched(m, alphaCutoff, "baseColorTexture");
  }

  /** The metallic-roughness defaults hold no texture. */
  lemma TableLacksTextures()
    ensures Lookup(MetallicRoughnessTable, "baseColorTexture").None?
  {
  }

  /** `TexturedMaterial` is such a material: it has a base color texture
      without `texCoord`. */
  lemma TexturedMaterialLacksTexCoord()
    ensures HasTextureIn(TexturedMaterial, "pbrMetallicRoughness", "baseColorTexture")
    ensures TexCoordIn(TexturedMaterial, "pbrMetallicRoughness", "baseColorTexture").None?
  {
  }

  /** With the textures looked up inside their blocks, every metallic-
      roughness texture of a material gets its `texCoord`. */
  lemma BlockTexturesDefaulted(m: seq<Field>, alphaCutoff: Json)
    ensures HasTextureIn(m, "pbrMetallicRoughness", "baseColorTexture") ==>
              Defined(TexCoordIn(MaterialPbrDefaults(m, alphaCutoff, InBlock), "pbrMetallicRoughness", "baseColorTexture"))
    ensures HasTextureIn(m, "pbrMetallicRoughness", "metallicRoughnessTexture") ==>
              Defined(TexCoordIn(MaterialPbrDefaults(m, alphaCutoff, InBlock), "pbrMetallicRoughness", "metallicRoughnessTexture"))
  {
    var m3 := MaterialBaseDefaults(m, alphaCutoff);
    MaterialBaseFrame(m, alphaCutoff, "pbrMetallicRoughness");
    var pbr := Lookup(m, "pbrMetallicRoughness");
    if pbr.Some? && pbr.value.JObj? {
      var b := pbr.value.fields;
      var p := TextureDefaults(TextureDefaults(Fill(b, MetallicRoughnessTable), "baseColorTexture"), "metallicRoughnessTexture");
      BlockTextures(b);
      var m4 := Put(m3, "pbrMetallicRoughness", JObj(p));
      assert MetallicRoughnessDefaults(m3, InBlock) == m4;
      SpecularGlossinessFrame(m4, InBlock, "pbrMetallicRoughness");
      var r := SpecularGlossinessDefaults(m4, InBlock);
      assert r == MaterialPbrDefaults(m, alphaCutoff, InBlock);
      TexCoordAt(r, "pbrMetallicRoughness", p, "baseColorTexture");
      TexCoordAt(r, "pbrMetallicRoughness", p, "metallicRoughnessTexture");
    }
  }

  /** Reading a texture coordinate through a block. */
  lemma TexCoordAt(m: seq<Field>, block: string, b: seq<Field>, tex: string)
    requires Lookup(m, block) == Some(JObj(b))
    ensures TexCoordIn(m, block, tex) == if Lookup(b, tex).Some? && Lookup(b, tex).value.JObj? then Lookup(Lookup(b, tex).value.fields, "texCoord") else None
  {
  }

  /** Inside a metallic-roughness block, both textures get `texCoord`. */
  lemma BlockTextures(b: seq<Field>)
    ensures var r := TextureDefaults(TextureDefaults(Fill(b, MetallicRoughnessTable), "baseColorTexture"), "metallicRoughnessTexture");
            && (Lookup(b, "baseColorTexture").Some? && Lookup(b, "baseColorTexture").value.JObj? ==>
                  Lookup(r, "baseColorTexture").Some? && Lookup(r, "baseColorTexture").value.JObj? &&
                  Defined(Lookup(Lookup(r, "baseColorTexture").value.fields, "texCoord")))
            && (Lookup(b, "metallicRoughnessTexture").Some? && Lookup(b, "metallicRoughnessTexture").value.JObj? ==>
                  Lookup(r, "metallicRoughnessTexture").Some? && Lookup(r, "metallicRoughnessTexture").value.JObj? &&
                  Defined(Lookup(Lookup(r, "metallicRoughnessTexture").value.fields, "texCoord")))
  {
    var p := Fill(b, MetallicRoughnessTable);
    FillOther(b, MetallicRoughnessTable, "baseColorTexture");
    FillOther(b, MetallicRoughnessTable, "metallicRoughnessTexture");
    var p1 := TextureDefaults(p, "baseColorTexture");
    TextureOther(p, "baseColorTexture", "metallicRoughnessTexture");
    TextureOther(p1, "metallicRoughnessTexture", "baseColorTexture");
    if Lookup(b, "baseColorTexture").Some? && Lookup(b, "baseColorTexture").value.JObj? {
      TextureSets(p, "baseColorTexture");
    }
    if Lookup(b, "metallicRoughnessTexture").Some? && Lookup(b, "metallicRoughnessTexture").value.JObj? {
      TextureSets(p1, "metallicRoughnessTexture");
    }
  }
}
