/** Reference rewriting of `objectsToArrays`: once the collections are arrays,
    every property that named an element by id is replaced by the element's
    new index.  An id the table does not know yields `undefined`; a property
    holding `undefined` is modelled as absent and an array element holding it
    as `null`, which is how JSON serialisation writes them. */
module References {
  import opened Wrappers
  import opened Json
  import opened ObjectArrays

  /** `globalMapping[kind][v]`. */
  function RefTo(g: GlobalMapping, kind: string, v: Option<Json>): Option<Json> {
    if kind in g && v.Some? && v.value.JStr? && v.value.s in g[kind] then Some(JNum(g[kind][v.value.s]))
    else None
  }

  /** Assignment of a value that may be `undefined`. */
  function Assign(fs: seq<Field>, k: string, o: Option<Json>): (r: seq<Field>)
    ensures Lookup(r, k) == o
    ensures forall k' :: k' != k ==> Lookup(r, k') == Lookup(fs, k')
  {
    if o.Some? then Put(fs, k, o.value) else Delete(fs, k)
  }

  /** `if (defined(o[k])) o[k] = globalMapping[kind][o[k]]`. */
  function RemapDefined(fs: seq<Field>, k: string, g: GlobalMapping, kind: string): (r: seq<Field>)
    ensures !Defined(Lookup(fs, k)) ==> r == fs
    ensures Defined(Lookup(fs, k)) ==> Lookup(r, k) == RefTo(g, kind, Lookup(fs, k))
    ensures forall k' :: k' != k ==> Lookup(r, k') == Lookup(fs, k')
  {
    if Defined(Lookup(fs, k)) then Assign(fs, k, RefTo(g, kind, Lookup(fs, k))) else fs
  }

  /** A rewritten reference names the converted element its old id named:
      the index is the id's position in the old collection, and the array
      holds that element there.  An unknown id leaves the property absent. */
  lemma RemapResolves(fs: seq<Field>, k: string, g: GlobalMapping, kind: string,
                      coll: seq<Field>, arr: seq<Json>, id: string)
    requires kind in g && ConvertedWith(coll, arr, g[kind])
    requires Lookup(fs, k) == Some(JStr(id))
    ensures forall p :: 0 <= p < |coll| && coll[p].key == id ==>
              Lookup(RemapDefined(fs, k, g, kind), k) == Some(JNum(p)) && arr[p] == Named(id, coll[p].value)
    ensures (forall p :: 0 <= p < |coll| ==> coll[p].key != id) ==> Lookup(RemapDefined(fs, k, g, kind), k).None?
  {
    if id in g[kind] {
      assert coll[g[kind][id]].key == id;
    }
  }

  /** Remapping every element of an id array (`children`, `scene.nodes`). */
  function RemapElems(ids: seq<Json>, g: GlobalMapping, kind: string): (r: seq<Json>)
    ensures |r| == |ids|
    ensures forall i :: 0 <= i < |ids| ==> r[i] == RefTo(g, kind, Some(ids[i])).GetOr(JNull)
  {
    if ids == [] then [] else [RefTo(g, kind, Some(ids[0])).GetOr(JNull)] + RemapElems(ids[1..], g, kind)
  }

  /** Remapping every value of an id-valued object (`primitive.attributes`):
      entries whose id is unknown become `undefined`, i.e. disappear. */
  function RemapValues(fs: seq<Field>, g: GlobalMapping, kind: string): (r: seq<Field>)
    ensures |r| <= |fs|
    ensures forall i :: 0 <= i < |r| ==> exists j :: 0 <= j < |fs| && r[i].key == fs[j].key && Some(r[i].value) == RefTo(g, kind, Some(fs[j].value))
    ensures forall j :: 0 <= j < |fs| && RefTo(g, kind, Some(fs[j].value)).Some? ==> Field(fs[j].key, RefTo(g, kind, Some(fs[j].value)).value) in r
  {
    if fs == [] then []
    else
      var rest := RemapValues(fs[1..], g, kind);
      match RefTo(g, kind, Some(fs[0].value))
      case Some(v) => [Field(fs[0].key, v)] + rest
      case None => rest
  }

  /** `ForEach` over a collection array. */
  function MapElems(arr: seq<Json>, f: Json -> Json): (r: seq<Json>)
    ensures |r| == |arr|
    ensures forall i :: 0 <= i < |arr| ==> r[i] == f(arr[i])
  {
    seq(|arr|, i requires 0 <= i < |arr| => f(arr[i]))
  }

  /** A handler applied to every element of the top-level array `kind`;
      a missing collection is left alone. */
  function UpdateCollection(gltf: seq<Field>, kind: string, f: Json -> Json): (r: seq<Field>)
    ensures forall k :: k != kind ==> Lookup(r, k) == Lookup(gltf, k)
    ensures (Lookup(gltf, kind).Some? && Lookup(gltf, kind).value.JArr?) ==>
              Lookup(r, kind) == Some(JArr(MapElems(Lookup(gltf, kind).value.elems, f)))
    ensures !(Lookup(gltf, kind).Some? && Lookup(gltf, kind).value.JArr?) ==> r == gltf
  {
    match Lookup(gltf, kind)
    case Some(JArr(elems)) => Put(gltf, kind, JArr(MapElems(elems, f)))
    case _ => gltf
  }

  /** The properties that hold a single id, as collection, property and the
      collection the id names. */
  datatype SimpleRef = SimpleRef(collection: string, property: string, target: string)

  const SimpleRefs: seq<SimpleRef> := [
    SimpleRef("bufferViews", "buffer", "buffers"),
    SimpleRef("accessors", "bufferView", "bufferViews"),
    SimpleRef("programs", "vertexShader", "shaders"),
    SimpleRef("programs", "fragmentShader", "shaders"),
    SimpleRef("textures", "sampler", "samplers"),
    SimpleRef("textures", "source", "images")
  ]

  function RemapElement(v: Json, r: SimpleRef, g: GlobalMapping): Json {
    if v.JObj? then JObj(RemapDefined(v.fields, r.property, g, r.target)) else v
  }

  /** The single-id references of one collection, rewritten in every element. */
  function RemapSimple(gltf: seq<Field>, r: SimpleRef, g: GlobalMapping): (out: seq<Field>)
    ensures forall k :: k != r.collection ==> Lookup(out, k) == Lookup(gltf, k)
  {
    UpdateCollection(gltf, r.collection, v => RemapElement(v, r, g))
  }

  /** Every single-id reference rewritten, in table order. */
  function RemapAllSimple(gltf: seq<Field>, refs: seq<SimpleRef>, g: GlobalMapping): (out: seq<Field>)
    ensures forall k :: (forall i :: 0 <= i < |refs| ==> refs[i].collection != k) ==> Lookup(out, k) == Lookup(gltf, k)
    decreases |refs|
  {
    if refs == [] then gltf else RemapAllSimple(RemapSimple(gltf, refs[0], g), refs[1..], g)
  }

  /** Every element of a rewritten collection has its reference rewritten and
      nothing else about it changed. */
  lemma RemapSimpleElements(gltf: seq<Field>, r: SimpleRef, g: GlobalMapping, i: nat)
    requires Lookup(gltf, r.collection).Some? && Lookup(gltf, r.collection).value.JArr?
    requires i < |Lookup(gltf, r.collection).value.elems|
    requires Lookup(gltf, r.collection).value.elems[i].JObj?
    ensures var before := Lookup(gltf, r.collection).value.elems[i].fields;
            var after := Lookup(RemapSimple(gltf, r, g), r.collection).value.elems[i];
            && after.JObj?
            && (Defined(Lookup(before, r.property)) ==> Lookup(after.fields, r.property) == RefTo(g, r.target, Lookup(before, r.property)))
            && (!Defined(Lookup(before, r.property)) ==> after.fields == before)
            && (forall k :: k != r.property ==> Lookup(after.fields, k) == Lookup(before, k))
  {
  }

  /** `{index: globalMapping.textures[value]}` for every string value of a
      material's or a `KHR_materials_common` extension's `values`. */
  function TextureValues(values: seq<Field>, g: GlobalMapping): (r: seq<Field>)
    ensures |r| == |values|
    ensures forall i :: 0 <= i < |values| ==> r[i].key == values[i].key
    ensures forall i :: 0 <= i < |values| && !values[i].value.JStr? ==> r[i] == values[i]
    ensures forall i :: 0 <= i < |values| && values[i].value.JStr? ==>
              r[i].value == JObj(Assign([], "index", RefTo(g, "textures", Some(values[i].value))))
  {
    seq(|values|, i requires 0 <= i < |values| =>
      if values[i].value.JStr? then Field(values[i].key, JObj(Assign([], "index", RefTo(g, "textures", Some(values[i].value)))))
      else values[i])
  }

  /** Rewrites the `values` object of `fs`, when it is one. */
  function FixValues(fs: seq<Field>, g: GlobalMapping): seq<Field> {
    match Lookup(fs, "values")
    case Some(JObj(values)) => Put(fs, "values", JObj(TextureValues(values, g)))
    case _ => fs
  }

  /** The material handler: `technique`, the texture values and those of a
      `KHR_materials_common` extension. */
  function FixMaterial(v: Json, g: GlobalMapping): (r: Json)
    ensures v.JObj? ==>
              (r.JObj? && Lookup(r.fields, "technique") ==
               (if Defined(Lookup(v.fields, "technique")) then RefTo(g, "techniques", Lookup(v.fields, "technique")) else Lookup(v.fields, "technique")))
  {
    if !v.JObj? then v
    else
      var fs := FixValues(RemapDefined(v.fields, "technique", g, "techniques"), g);
      match Lookup(fs, "extensions")
      case Some(JObj(ext)) =>
        (match Lookup(ext, "KHR_materials_common")
         case Some(JObj(common)) => JObj(Put(fs, "extensions", JObj(Put(ext, "KHR_materials_common", JObj(FixValues(common, g))))))
         case _ => JObj(fs))
      case _ => JObj(fs)
  }

  /** The technique parameter handler: `node`, and a string `value` naming a
      texture. */
  function FixParameter(p: Json, g: GlobalMapping): (r: Json)
    ensures p.JObj? ==> r.JObj?
  {
    if !p.JObj? then p
    else
      var fs := RemapDefined(p.fields, "node", g, "nodes");
      match Lookup(fs, "value")
      case Some(JStr(s)) => JObj(Put(fs, "value", JObj(Assign([], "index", RefTo(g, "textures", Some(JStr(s)))))))
      case _ => JObj(fs)
  }

  /** The technique handler: `program` and every parameter. */
  function FixTechnique(v: Json, g: GlobalMapping): Json {
    if !v.JObj? then v
    else
      var fs := RemapDefined(v.fields, "program", g, "programs");
      match Lookup(fs, "parameters")
      case Some(JObj(ps)) =>
        JObj(Put(fs, "parameters", JObj(seq(|ps|, i requires 0 <= i < |ps| => Field(ps[i].key, FixParameter(ps[i].value, g))))))
      case _ => JObj(fs)
  }

  /** The primitive handler: `indices`, every attribute and `material`. */
  function FixPrimitive(p: Json, g: GlobalMapping): (r: Json)
    ensures p.JObj? ==> r.JObj?
  {
    if !p.JObj? then p
    else
      var fs := RemapDefined(p.fields, "indices", g, "accessors");
      var fs' := match Lookup(fs, "attributes")
                 case Some(JObj(attrs)) => Put(fs, "attributes", JObj(RemapValues(attrs, g, "accessors")))
                 case _ => fs;
      JObj(RemapDefined(fs', "material", g, "materials"))
  }

  function FixMesh(m: Json, g: GlobalMapping): Json {
    if !m.JObj? then m
    else
      match Lookup(m.fields, "primitives")
      case Some(JArr(ps)) => JObj(Put(m.fields, "primitives", JArr(MapElems(ps, p => FixPrimitive(p, g)))))
      case _ => m
  }

  /** The scene handler: every root node. */
  function FixScene(s: Json, g: GlobalMapping): Json {
    if !s.JObj? then s
    else
      match Lookup(s.fields, "nodes")
      case Some(JArr(ids)) => JObj(Put(s.fields, "nodes", JArr(RemapElems(ids, g, "nodes"))))
      case _ => s
  }

  /** The skin handler: `inverseBindMatrices`, and `jointNames` replaced by
      `joints`, the node index recorded for each joint name. */
  function FixSkin(s: Json, g: GlobalMapping, joints: map<string, Option<nat>>): (r: Json)
    ensures s.JObj? ==> r.JObj?
    ensures s.JObj? && Defined(Lookup(s.fields, "jointNames")) && Lookup(s.fields, "jointNames").value.JArr? ==>
              Lookup(r.fields, "jointNames").None? &&
              Lookup(r.fields, "joints") == Some(JArr(JointElems(Lookup(s.fields, "jointNames").value.elems, joints)))
  {
    if !s.JObj? then s
    else
      var fs := RemapDefined(s.fields, "inverseBindMatrices", g, "accessors");
      match Lookup(fs, "jointNames")
      case Some(JArr(names)) => JObj(Delete(Put(fs, "joints", JArr(JointElems(names, joints))), "jointNames"))
      case _ => JObj(fs)
  }

  /** `jointNameToId[jointNames[i]]` for each joint. */
  function JointElems(names: seq<Json>, joints: map<string, Option<nat>>): (r: seq<Json>)
    ensures |r| == |names|
    ensures forall i :: 0 <= i < |names| ==>
              (r[i] != JNull <==> names[i].JStr? && names[i].s in joints && joints[names[i].s].Some?)
    ensures forall i :: 0 <= i < |names| && r[i] != JNull ==> r[i] == JNum(joints[names[i].s].value)
  {
    seq(|names|, i requires 0 <= i < |names| =>
      if names[i].JStr? && names[i].s in joints && joints[names[i].s].Some? then JNum(joints[names[i].s].value) else JNull)
  }

  /** The binary-glTF extension of a shader or image: its `bufferView` is
      rewritten onto the object itself (and, for images, its `mimeType`), the
      extension is removed, and an `extensions` object left empty is
      removed too. */
  function LiftBinary(fs: seq<Field>, g: GlobalMapping, withMime: bool): (r: seq<Field>)
    ensures (match Lookup(fs, "extensions") case Some(JObj(ext)) => Defined(Lookup(ext, "KHR_binary_glTF")) case _ => false) ==>
              Lookup(r, "bufferView") == RefTo(g, "bufferViews", Lookup(FieldsOf(Lookup(Lookup(fs, "extensions").value.fields, "KHR_binary_glTF").value), "bufferView"))
    ensures match Lookup(r, "extensions") case Some(JObj(ext)) => !Defined(Lookup(ext, "KHR_binary_glTF")) && ext != [] case _ => true
  {
    match Lookup(fs, "extensions")
    case Some(JObj(ext)) =>
      var binary := Lookup(ext, "KHR_binary_glTF");
      if Defined(binary) then
        WithExtensions(BinaryLifted(fs, FieldsOf(binary.value), g, withMime), Delete(ext, "KHR_binary_glTF"))
      else WithExtensions(fs, ext)
    case _ => fs
  }

  /** The binary-glTF extension's `bufferView` (remapped) and, for images,
      `mimeType` copied onto the object. */
  function BinaryLifted(fs: seq<Field>, b: seq<Field>, g: GlobalMapping, withMime: bool): (r: seq<Field>)
    ensures Lookup(r, "bufferView") == RefTo(g, "bufferViews", Lookup(b, "bufferView"))
    ensures withMime ==> Lookup(r, "mimeType") == Lookup(b, "mimeType")
    ensures forall k :: k != "bufferView" && (withMime ==> k != "mimeType") ==> Lookup(r, k) == Lookup(fs, k)
  {
    var withView := Assign(fs, "bufferView", RefTo(g, "bufferViews", Lookup(b, "bufferView")));
    if withMime then Assign(withView, "mimeType", Lookup(b, "mimeType")) else withView
  }

  /** The object's `extensions` set to `ext`, or removed when `ext` is empty. */
  function WithExtensions(fs: seq<Field>, ext: seq<Field>): (r: seq<Field>)
    ensures Lookup(r, "extensions") == if ext == [] then None else Some(JObj(ext))
    ensures forall k :: k != "extensions" ==> Lookup(r, k) == Lookup(fs, k)
  {
    if ext == [] then Delete(fs, "extensions") else Put(fs, "extensions", JObj(ext))
  }

  function FixShader(v: Json, g: GlobalMapping): Json {
    if v.JObj? then JObj(LiftBinary(v.fields, g, false)) else v
  }

  /** The extensions object an image is left with once its binary-glTF
      extension is lifted (the same object even when the image drops it for
      being empty); `None` when the image has no `extensions` object. */
  function ImageExtensionsAfter(fs: seq<Field>): Option<seq<Field>> {
    match Lookup(fs, "extensions")
    case Some(JObj(ext)) => Some(if Defined(Lookup(ext, "KHR_binary_glTF")) then Delete(ext, "KHR_binary_glTF") else ext)
    case _ => None
  }

  /** Which `extensions` object decides whether a compressed image's emptied
      `extensions` is removed: the image's own, as written, or the compressed
      image's, as evidently intended. */
  datatype ExtensionsRule = ImageExtensions | CompressedExtensions

  /** One `compressedImage3DTiles` entry: its binary-glTF extension lifted as
      for the image itself.  `Object.keys` of an undefined or null image
      `extensions` throws. */
  function FixCompressed(ci: Json, g: GlobalMapping, imageExt: Option<seq<Field>>, rule: ExtensionsRule): Result<Json, string> {
    if ci.JNull? then Err("compressedImage3DTiles")
    else if !ci.JObj? then Ok(ci)
    else
      match Lookup(ci.fields, "extensions")
      case Some(JObj(ce)) =>
        var binary := Lookup(ce, "KHR_binary_glTF");
        var fs := if Defined(binary) then
                    Assign(Assign(ci.fields, "bufferView", RefTo(g, "bufferViews", Lookup(FieldsOf(binary.value), "bufferView"))),
                           "mimeType", Lookup(FieldsOf(binary.value), "mimeType"))
                  else ci.fields;
        var ce' := if Defined(binary) then Delete(ce, "KHR_binary_glTF") else ce;
        var fs' := Put(fs, "extensions", JObj(ce'));
        (match rule
         case ImageExtensions =>
           if imageExt.None? then Err("extensions")
           else if imageExt.value == [] then Ok(JObj(Delete(fs', "extensions")))
           else Ok(JObj(fs'))
         case CompressedExtensions =>
           if ce' == [] then Ok(JObj(Delete(fs', "extensions"))) else Ok(JObj(fs')))
      case _ => Ok(ci)
  }

  /** Every entry of a `compressedImage3DTiles` object. */
  function FixCompressedAll(cs: seq<Field>, g: GlobalMapping, imageExt: Option<seq<Field>>, rule: ExtensionsRule): (r: Result<seq<Field>, string>)
    ensures r.Ok? ==> |r.value| == |cs| && forall i :: 0 <= i < |cs| ==> r.value[i].key == cs[i].key
  {
    if cs == [] then Ok([])
    else
      var head :- FixCompressed(cs[0].value, g, imageExt, rule);
      var rest :- FixCompressedAll(cs[1..], g, imageExt, rule);
      Ok([Field(cs[0].key, head)] + rest)
  }

  /** The image handler: the binary-glTF extension of the image and of each
      compressed variant under `extras.compressedImage3DTiles`. */
  function FixImage(v: Json, g: GlobalMapping, rule: ExtensionsRule): Result<Json, string> {
    if !v.JObj? then Ok(v)
    else
      var imageExt := ImageExtensionsAfter(v.fields);
      var fs := LiftBinary(v.fields, g, true);
      match Lookup(fs, "extras")
      case Some(JObj(extras)) =>
        (match Lookup(extras, "compressedImage3DTiles")
         case Some(JObj(cs)) =>
           var cs' :- FixCompressedAll(cs, g, imageExt, rule);
           Ok(JObj(Put(fs, "extras", JObj(Put(extras, "compressedImage3DTiles", JObj(cs'))))))
         case _ => Ok(JObj(fs)))
      case _ => Ok(JObj(fs))
  }

  /** The compressed-image entry of the image below, with one binary-glTF
      extension and nothing else. */
  const CompressedEntry: Json :=
    JObj([Field("extensions", JObj([Field("KHR_binary_glTF", JObj([Field("bufferView", JStr("bv"))]))]))])

  /** An image without `extensions` of its own whose compressed variant is
      embedded in the binary body. */
  const EmbeddedCompressedImage: Json :=
    JObj([Field("extras", JObj([Field("compressedImage3DTiles", JObj([Field("crn", CompressedEntry)]))]))])

  /** As written, the emptiness test reads the image's `extensions`, which
      this image does not have, so the conversion throws. */
  lemma CompressedImageThrowsAsWritten(g: GlobalMapping)
    ensures FixImage(EmbeddedCompressedImage, g, ImageExtensions).Err?
  {
    assert ImageExtensionsAfter(EmbeddedCompressedImage.fields).None?;
    assert FixCompressed(CompressedEntry, g, None, ImageExtensions).Err?;
  }

  /** Testing the compressed image's own extensions, the variant gets the
      rewritten `bufferView` and loses its emptied `extensions`. */
  lemma CompressedEntryIntended(g: GlobalMapping)
    ensures FixCompressed(CompressedEntry, g, None, CompressedExtensions) ==
              Ok(JObj(Assign([], "bufferView", RefTo(g, "bufferViews", Some(JStr("bv"))))))
  {
    var binary := JObj([Field("bufferView", JStr("bv"))]);
    var ce := [Field("KHR_binary_glTF", binary)];
    assert Lookup(CompressedEntry.fields, "extensions") == Some(JObj(ce));
    assert Lookup(ce, "KHR_binary_glTF") == Some(binary);
    assert Delete(ce, "KHR_binary_glTF") == [];
    assert Lookup(FieldsOf(binary), "mimeType").None?;
    var fs := Assign(CompressedEntry.fields, "bufferView", RefTo(g, "bufferViews", Some(JStr("bv"))));
    assert Assign(fs, "mimeType", None) == fs;
    assert Delete(Put(fs, "extensions", JObj([])), "extensions") == Assign([], "bufferView", RefTo(g, "bufferViews", Some(JStr("bv"))));
  }

  /** With the intended test the same image converts. */
  lemma CompressedImageConvertsIntended(g: GlobalMapping)
    ensures FixImage(EmbeddedCompressedImage, g, CompressedExtensions).Ok?
  {
    CompressedEntryIntended(g);
    var fs := EmbeddedCompressedImage.fields;
    assert LiftBinary(fs, g, true) == fs;
    var cs := [Field("crn", CompressedEntry)];
    assert Lookup(fs, "extras") == Some(JObj([Field("compressedImage3DTiles", JObj(cs))]));
    assert Lookup([Field("compressedImage3DTiles", JObj(cs))], "compressedImage3DTiles") == Some(JObj(cs));
    assert FixCompressedAll(cs[1..], g, None, CompressedExtensions) == Ok([]);
    assert FixCompressedAll(cs, g, None, CompressedExtensions).Ok?;
  }

  /** With the intended test, an image converts unless one of its compressed
      variants is `null`, and no variant keeps an emptied `extensions`. */
  lemma {:induction false} IntendedCompressedNeverThrows(cs: seq<Field>, g: GlobalMapping, imageExt: Option<seq<Field>>)
    requires forall i :: 0 <= i < |cs| ==> !cs[i].value.JNull?
    ensures FixCompressedAll(cs, g, imageExt, CompressedExtensions).Ok?
    ensures forall i :: 0 <= i < |cs| && cs[i].value.JObj? ==>
              var c := FixCompressedAll(cs, g, imageExt, CompressedExtensions).value[i].value;
              c.JObj? && Lookup(c.fields, "extensions") != Some(JObj([]))
  {
    if cs != [] {
      IntendedCompressedNeverThrows(cs[1..], g, imageExt);
      var r := FixCompressedAll(cs, g, imageExt, CompressedExtensions).value;
      assert r[1..] == FixCompressedAll(cs[1..], g, imageExt, CompressedExtensions).value;
      forall i | 0 < i < |cs| && cs[i].value.JObj?
        ensures r[i].value.JObj? && Lookup(r[i].value.fields, "extensions") != Some(JObj([]))
      {
        assert cs[1..][i - 1] == cs[i];
        assert r[i] == r[1..][i - 1];
      }
    }
  }

  /** `gltf.scene`, the default scene, rewritten like any other single id. */
  function FixRootScene(gltf: seq<Field>, g: GlobalMapping): (r: seq<Field>)
    ensures !Defined(Lookup(gltf, "scene")) ==> r == gltf
    ensures Defined(Lookup(gltf, "scene")) ==> Lookup(r, "scene") == RefTo(g, "scenes", Lookup(gltf, "scene"))
    ensures forall k :: k != "scene" ==> Lookup(r, k) == Lookup(gltf, k)
  {
    RemapDefined(gltf, "scene", g, "scenes")
  }

  /** `samplerMapping[v]` for an animation's own sampler table. */
  function IndexOf(m: map<string, nat>, v: Option<Json>): Option<Json> {
    if v.Some? && v.value.JStr? && v.value.s in m then Some(JNum(m[v.value.s])) else None
  }

  /** A rewritten reference into a converted object names the element its
      old id named; an id the object does not have yields `undefined`. */
  lemma IndexResolves(m: map<string, nat>, coll: seq<Field>, arr: seq<Json>, id: string)
    requires ConvertedWith(coll, arr, m)
    ensures forall p :: 0 <= p < |coll| && coll[p].key == id ==>
              IndexOf(m, Some(JStr(id))) == Some(JNum(p)) && arr[p] == Named(id, coll[p].value)
    ensures (forall p :: 0 <= p < |coll| ==> coll[p].key != id) ==> IndexOf(m, Some(JStr(id))).None?
  {
    if id in m {
      assert coll[m[id]].key == id;
    }
  }

  /** The animation sampler handler: `input` and `output` name accessors,
      and are assigned even when the id is unknown. */
  function FixSampler(s: Json, g: GlobalMapping): (r: Json)
    ensures s.JObj? ==> r.JObj?
    ensures s.JObj? ==> Lookup(r.fields, "input") == RefTo(g, "accessors", Lookup(s.fields, "input"))
    ensures s.JObj? ==> Lookup(r.fields, "output") == RefTo(g, "accessors", Lookup(s.fields, "output"))
    ensures s.JObj? ==> forall k :: k != "input" && k != "output" ==> Lookup(r.fields, k) == Lookup(s.fields, k)
    ensures !s.JObj? ==> r == s
  {
    if !s.JObj? then s
    else
      var fs := Assign(s.fields, "input", RefTo(g, "accessors", Lookup(s.fields, "input")));
      JObj(Assign(fs, "output", RefTo(g, "accessors", Lookup(s.fields, "output"))))
  }

  /** The animation channel handler: `sampler` through the animation's own
      sampler table, and the target's node id `id` replaced by `node`. */
  function FixChannel(c: Json, g: GlobalMapping, sm: map<string, nat>): (r: Json)
    ensures c.JObj? ==> r.JObj? && Lookup(r.fields, "sampler") == IndexOf(sm, Lookup(c.fields, "sampler"))
    ensures c.JObj? ==>
              match Lookup(c.fields, "target")
              case Some(JObj(t)) =>
                exists t' :: Lookup(r.fields, "target") == Some(JObj(t')) &&
                  Lookup(t', "node") == RefTo(g, "nodes", Lookup(t, "id")) && Lookup(t', "id").None? &&
                  forall k :: k != "node" && k != "id" ==> Lookup(t', k) == Lookup(t, k)
              case other => Lookup(r.fields, "target") == other
    ensures !c.JObj? ==> r == c
  {
    if !c.JObj? then c
    else
      var fs := Assign(c.fields, "sampler", IndexOf(sm, Lookup(c.fields, "sampler")));
      match Lookup(fs, "target")
      case Some(JObj(t)) =>
        var t' := Delete(Assign(t, "node", RefTo(g, "nodes", Lookup(t, "id"))), "id");
        JObj(Put(fs, "target", JObj(t')))
      case _ => JObj(fs)
  }

  /** The samplers of an animation as `for...in` enumerates them: an absent
      `samplers` visits nothing. */
  function SamplerFields(fs: seq<Field>): seq<Field> {
    var v := Lookup(fs, "samplers");
    if v.Some? then Enumerated(v.value) else []
  }

  /** The animation once its samplers are the array `arr` with table `sm`:
      every sampler and every channel rewritten. */
  function AnimationWith(fs: seq<Field>, arr: seq<Json>, sm: map<string, nat>, g: GlobalMapping): (r: seq<Field>)
    ensures Lookup(r, "samplers") == Some(JArr(MapElems(arr, s => FixSampler(s, g))))
    ensures match Lookup(fs, "channels")
            case Some(JArr(cs)) => Lookup(r, "channels") == Some(JArr(MapElems(cs, c => FixChannel(c, g, sm))))
            case other => Lookup(r, "channels") == other
    ensures forall k :: k != "samplers" && k != "channels" ==> Lookup(r, k) == Lookup(fs, k)
  {
    var fs' := Put(fs, "samplers", JArr(MapElems(arr, s => FixSampler(s, g))));
    match Lookup(fs', "channels")
    case Some(JArr(cs)) => Put(fs', "channels", JArr(MapElems(cs, c => FixChannel(c, g, sm))))
    case _ => fs'
  }

  /** The animation handler: `samplers` becomes an array through
      `objectToArray` with an animation-local table, then every sampler and
      channel is rewritten.  A sampler that is neither an object nor an
      array (the characters of a string `samplers` among them) is an
      error. */
  method FixAnimation(a: Json, g: GlobalMapping) returns (r: Result<Json, string>)
    requires a.JObj? ==> UniqueKeys(SamplerFields(a.fields))
    ensures !a.JObj? ==> r == Ok(a)
    ensures a.JObj? ==> (r.Ok? <==> AllNameable(SamplerFields(a.fields)))
    ensures a.JObj? && r.Ok? ==>
              exists arr, sm :: ConvertedWith(SamplerFields(a.fields), arr, sm) && r.value == JObj(AnimationWith(a.fields, arr, sm, g))
  {
    if !a.JObj? {
      return Ok(a);
    }
    var res := ObjectToArray(SamplerFields(a.fields));
    if res.Err? {
      return Err(res.error);
    }
    var (arr, sm) := res.value;
    assert ConvertedWith(SamplerFields(a.fields), arr, sm);
    return Ok(JObj(AnimationWith(a.fields, arr, sm, g)));
  }
}
