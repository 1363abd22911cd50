/** The small clean-up passes of the 0.8 to 1.0 and 1.0 to 2.0 upgrades:
    primitive modes, technique passes, known extensions, scissor state,
    clamped technique and camera parameters, and parameter counts.  Each
    pass visits a collection with a handler; an element that is not an
    object has no properties to read and is left alone. */
module CleanupPasses {
  import opened Wrappers
  import opened Json
  import opened GlConstants
  import opened References

  /** Names every JavaScript object literal inherits from `Object.prototype`:
      `table[name]` is defined for them whatever the literal lists. */
  const PrototypeNames: set<string> :=
    {"constructor", "hasOwnProperty", "isPrototypeOf", "propertyIsEnumerable", "toLocaleString",
     "toString", "valueOf", "__proto__", "__defineGetter__", "__defineSetter__", "__lookupGetter__",
     "__lookupSetter__"}

  /** A handler applied to every value of an object, keys kept. */
  function MapFields(fs: seq<Field>, f: Json -> Json): (r: seq<Field>)
    ensures |r| == |fs|
    ensures forall i :: 0 <= i < |fs| ==> r[i] == Field(fs[i].key, f(fs[i].value))
  {
    if fs == [] then [] else [Field(fs[0].key, f(fs[0].value))] + MapFields(fs[1..], f)
  }

  /** Reading a property of the mapped object reads the mapped property. */
  lemma {:induction false} LookupMapFields(fs: seq<Field>, f: Json -> Json, k: string)
    ensures Lookup(MapFields(fs, f), k) == if Lookup(fs, k).Some? then Some(f(Lookup(fs, k).value)) else None
  {
    if fs != [] {
      LookupMapFields(fs[1..], f, k);
    }
  }

  /** `ForEach` / `for...in` over a collection: an object's values keep their
      keys, an array's elements their positions; anything else enumerates
      nothing. */
  function EachOf(v: Json, f: Json -> Json): (r: Json)
    ensures v.JArr? ==> r == JArr(MapElems(v.elems, f))
    ensures v.JObj? ==> r == JObj(MapFields(v.fields, f))
    ensures !v.JArr? && !v.JObj? ==> r == v
  {
    match v
    case JArr(es) => JArr(MapElems(es, f))
    case JObj(fs) => JObj(MapFields(fs, f))
    case _ => v
  }

  /** The collection `fs[k]` visited with `f`; nothing else changes. */
  function Within(fs: seq<Field>, k: string, f: Json -> Json): (r: seq<Field>)
    ensures Lookup(fs, k).None? ==> r == fs
    ensures Lookup(fs, k).Some? ==> Lookup(r, k) == Some(EachOf(Lookup(fs, k).value, f))
    ensures forall k' :: k' != k ==> Lookup(r, k') == Lookup(fs, k')
  {
    match Lookup(fs, k)
    case Some(v) => Put(fs, k, EachOf(v, f))
    case None => fs
  }

  /** An array visited with a handler that may throw: the first error wins. */
  function MapElemsOk(es: seq<Json>, f: Json -> Result<Json, string>): (r: Result<seq<Json>, string>)
    ensures r.Ok? <==> forall i :: 0 <= i < |es| ==> f(es[i]).Ok?
    ensures r.Ok? ==> |r.value| == |es| && forall i :: 0 <= i < |es| ==> r.value[i] == f(es[i]).value
  {
    if es == [] then Ok([])
    else
      var head :- f(es[0]);
      var rest :- MapElemsOk(es[1..], f);
      assert forall i :: 1 <= i < |es| ==> es[i] == es[1..][i - 1];
      Ok([head] + rest)
  }

  /** An object visited with a handler that may throw. */
  function MapFieldsOk(fs: seq<Field>, f: Json -> Result<Json, string>): (r: Result<seq<Field>, string>)
    ensures r.Ok? <==> forall i :: 0 <= i < |fs| ==> f(fs[i].value).Ok?
    ensures r.Ok? ==> |r.value| == |fs| && forall i :: 0 <= i < |fs| ==> r.value[i] == Field(fs[i].key, f(fs[i].value).value)
  {
    if fs == [] then Ok([])
    else
      var head :- f(fs[0].value);
      var rest :- MapFieldsOk(fs[1..], f);
      assert forall i :: 1 <= i < |fs| ==> fs[i] == fs[1..][i - 1];
      Ok([Field(fs[0].key, head)] + rest)
  }

  /** `EachOf` for a handler that may throw. */
  function EachOfOk(v: Json, f: Json -> Result<Json, string>): (r: Result<Json, string>)
    ensures v.JArr? ==> r == (match MapElemsOk(v.elems, f) case Ok(es) => Ok(JArr(es)) case Err(e) => Err(e))
    ensures v.JObj? ==> r == (match MapFieldsOk(v.fields, f) case Ok(fs) => Ok(JObj(fs)) case Err(e) => Err(e))
    ensures !v.JArr? && !v.JObj? ==> r == Ok(v)
  {
    match v
    case JArr(es) => (var es' :- MapElemsOk(es, f); Ok(JArr(es')))
    case JObj(fs) => (var fs' :- MapFieldsOk(fs, f); Ok(JObj(fs')))
    case _ => Ok(v)
  }

  /** `Within` for a handler that may throw. */
  function WithinOk(fs: seq<Field>, k: string, f: Json -> Result<Json, string>): (r: Result<seq<Field>, string>)
    ensures Lookup(fs, k).None? ==> r == Ok(fs)
    ensures Lookup(fs, k).Some? ==> (r.Ok? <==> EachOfOk(Lookup(fs, k).value, f).Ok?)
    ensures Lookup(fs, k).Some? && r.Ok? ==> Lookup(r.value, k) == Some(EachOfOk(Lookup(fs, k).value, f).value)
    ensures r.Ok? ==> forall k' :: k' != k ==> Lookup(r.value, k') == Lookup(fs, k')
  {
    match Lookup(fs, k)
    case Some(v) => (var v' :- EachOfOk(v, f); Ok(Put(fs, k, v')))
    case None => Ok(fs)
  }

  // ---------------------------------------------------------------------
  // setPrimitiveModes (0.8 to 1.0)

  /** A value JavaScript treats as an object: properties can be written on
      it (those of an array or a typed array are not serialised). */
  predicate IsObject(v: Json) {
    v.JObj? || v.JArr? || v.JBytes?
  }

  /** `primitive.mode = defaultValue(primitive.mode, defaultValue(primitive.primitive, TRIANGLES))`,
      then `primitive.primitive` is deleted.  Reading a property of `null`
      throws, and so does writing `mode` on a number, string or boolean in
      strict mode. */
  function SetMode(p: Json): (r: Result<Json, string>)
    ensures r.Err? <==> !IsObject(p)
    ensures IsObject(p) && !p.JObj? ==> r == Ok(p)
    ensures p.JObj? ==> r.Ok? && r.value.JObj?
    ensures p.JObj? ==>
              (Lookup(r.value.fields, "mode") ==
                 if Defined(Lookup(p.fields, "mode")) then Lookup(p.fields, "mode")
                 else if Defined(Lookup(p.fields, "primitive")) then Lookup(p.fields, "primitive")
                 else Some(JNum(TRIANGLES)))
    ensures p.JObj? ==> Lookup(r.value.fields, "primitive").None?
    ensures p.JObj? ==> forall k :: k != "mode" && k != "primitive" ==> Lookup(r.value.fields, k) == Lookup(p.fields, k)
  {
    if p.JNull? then Err("TypeError: Cannot read property 'primitive' of null")
    else if !IsObject(p) then Err("TypeError: Cannot create property 'mode' on a primitive value")
    else if !p.JObj? then Ok(p)
    else
      var mode := if Defined(Lookup(p.fields, "primitive")) then Lookup(p.fields, "primitive").value else JNum(TRIANGLES);
      Ok(JObj(Delete(SetDefault(p.fields, "mode", mode), "primitive")))
  }

  /** After the pass a primitive's mode is always defined, and a second run
      changes nothing. */
  lemma SetModeIdempotent(p: Json)
    requires p.JObj?
    ensures Defined(Lookup(SetMode(p).value.fields, "mode"))
    ensures SetMode(SetMode(p).value) == SetMode(p)
  {
    var q := SetMode(p).value;
    assert Defined(Lookup(q.fields, "mode"));
    assert SetDefault(q.fields, "mode", JNum(TRIANGLES)) == q.fields;
  }

  /** The mesh handler: `mesh.primitives`, when defined, is walked from 0 to
      its `length`.  A `null` mesh throws; a string or typed array of
      primitives has characters or numbers as elements, and writing `mode`
      on the first one throws; any other value has no `length` and is not
      walked. */
  function SetMeshModes(m: Json): (r: Result<Json, string>)
    ensures m.JNull? <==> r.Err? && !m.JObj?
    ensures !m.JObj? && !m.JNull? ==> r == Ok(m)
    ensures m.JObj? && !Defined(Lookup(m.fields, "primitives")) ==> r == Ok(m)
    ensures m.JObj? && Lookup(m.fields, "primitives").Some? && Lookup(m.fields, "primitives").value.JArr? ==>
              var es := Lookup(m.fields, "primitives").value.elems;
              && (r.Ok? <==> forall i :: 0 <= i < |es| ==> IsObject(es[i]))
              && (r.Ok? ==> r.value.JObj? && Lookup(r.value.fields, "primitives") == Some(JArr(MapElemsOk(es, SetMode).value)))
    ensures m.JObj? && r.Ok? ==> r.value.JObj? && forall k :: k != "primitives" ==> Lookup(r.value.fields, k) == Lookup(m.fields, k)
  {
    if m.JNull? then Err("TypeError: Cannot read property 'primitives' of null")
    else if !m.JObj? then Ok(m)
    else
      match Lookup(m.fields, "primitives")
      case Some(JArr(es)) =>
        SetModesOk(es);
        var mapped := MapElemsOk(es, SetMode);
        assert Lookup(m.fields, "primitives").value.elems == es;
        if mapped.Err? then Err(mapped.error) else Ok(JObj(Put(m.fields, "primitives", JArr(mapped.value))))
      case Some(JStr(cs)) => if cs == [] then Ok(m) else Err("TypeError: Cannot create property 'mode' on string")
      case Some(JBytes(bs)) => if bs == [] then Ok(m) else Err("TypeError: Cannot create property 'mode' on number")
      case _ => Ok(m)
  }

  /** The primitives' walk finishes exactly when every primitive is an
      object. */
  lemma SetModesOk(es: seq<Json>)
    ensures MapElemsOk(es, SetMode).Ok? <==> forall i :: 0 <= i < |es| ==> IsObject(es[i])
  {
    assert forall i :: 0 <= i < |es| ==> (SetMode(es[i]).Ok? <==> IsObject(es[i]));
  }

  /** `setPrimitiveModes`: `for...in` over `meshes`, every mesh's primitives;
      nothing but `meshes` changes. */
  function SetPrimitiveModes(gltf: seq<Field>): (r: Result<seq<Field>, string>)
    ensures Lookup(gltf, "meshes").None? ==> r == Ok(gltf)
    ensures Lookup(gltf, "meshes").Some? ==> (r.Ok? <==> EachOfOk(Lookup(gltf, "meshes").value, SetMeshModes).Ok?)
    ensures r.Ok? && Lookup(gltf, "meshes").Some? ==>
              Lookup(r.value, "meshes") == Some(EachOfOk(Lookup(gltf, "meshes").value, SetMeshModes).value)
    ensures r.Ok? ==> forall k :: k != "meshes" ==> Lookup(r.value, k) == Lookup(gltf, k)
  {
    WithinOk(gltf, "meshes", SetMeshModes)
  }

  // ---------------------------------------------------------------------
  // removeTechniquePasses (0.8 to 1.0)

  /** `defaultValue(technique.pass, 'defaultPass')`, the name of the pass
      whose program and states are kept.  A pass that is not a string is
      not looked up. */
  function PassName(t: seq<Field>): Option<string> {
    match Lookup(t, "pass")
    case Some(JStr(n)) => Some(n)
    case Some(JNull) => Some("defaultPass")
    case None => Some("defaultPass")
    case _ => None
  }

  /** The selected pass, when `passes` is an object that owns it. */
  function SelectedPass(t: seq<Field>): Option<Json> {
    match Lookup(t, "passes")
    case Some(JObj(ps)) => if PassName(t).Some? then Lookup(ps, PassName(t).value) else None
    case _ => None
  }

  /** `t[k] = defaultValue(t[k], v)`: kept when defined, otherwise replaced by
      `v`, which may itself be `undefined`. */
  function DefaultFrom(t: seq<Field>, k: string, v: Option<Json>): (r: seq<Field>)
    ensures Lookup(r, k) == if Defined(Lookup(t, k)) then Lookup(t, k) else v
    ensures forall k' :: k' != k ==> Lookup(r, k') == Lookup(t, k')
  {
    if Defined(Lookup(t, k)) then t else Assign(t, k, v)
  }

  /** The program and states of the selected pass moved onto the technique. */
  function LiftPass(t: seq<Field>, pass: Json): (r: seq<Field>)
    requires pass.JObj? && Defined(Lookup(pass.fields, "instanceProgram"))
    ensures var ip := FieldsOf(Lookup(pass.fields, "instanceProgram").value);
            && Lookup(r, "attributes") == (if Defined(Lookup(t, "attributes")) then Lookup(t, "attributes") else Lookup(ip, "attributes"))
            && Lookup(r, "program") == (if Defined(Lookup(t, "program")) then Lookup(t, "program") else Lookup(ip, "program"))
            && Lookup(r, "uniforms") == (if Defined(Lookup(t, "uniforms")) then Lookup(t, "uniforms") else Lookup(ip, "uniforms"))
            && Lookup(r, "states") == (if Defined(Lookup(t, "states")) then Lookup(t, "states") else Lookup(pass.fields, "states"))
    ensures forall k :: k != "attributes" && k != "program" && k != "uniforms" && k != "states" ==> Lookup(r, k) == Lookup(t, k)
  {
    var ip := FieldsOf(Lookup(pass.fields, "instanceProgram").value);
    var t1 := DefaultFrom(t, "attributes", Lookup(ip, "attributes"));
    var t2 := DefaultFrom(t1, "program", Lookup(ip, "program"));
    var t3 := DefaultFrom(t2, "uniforms", Lookup(ip, "uniforms"));
    DefaultFrom(t3, "states", Lookup(pass.fields, "states"))
  }

  /** A pass the technique can take its program from: an object with a
      defined `instanceProgram`.  Reading `instanceProgram` of anything else
      yields `undefined`, and reading `attributes` of that throws. */
  predicate UsablePass(pass: Json) {
    pass.JObj? && Defined(Lookup(pass.fields, "instanceProgram"))
  }

  /** The technique handler of `removeTechniquePasses`. */
  function RemovePasses(t: Json): (r: Result<Json, string>)
    ensures t.JNull? ==> r.Err?
    ensures !t.JObj? && !t.JNull? ==> r == Ok(t)
    ensures t.JObj? && !Defined(Lookup(t.fields, "passes")) ==> r == Ok(t)
    ensures t.JObj? && Defined(Lookup(t.fields, "passes")) ==>
              (r.Err? <==> SelectedPass(t.fields).Some? && !UsablePass(SelectedPass(t.fields).value))
    ensures t.JObj? && Defined(Lookup(t.fields, "passes")) && r.Ok? ==>
              && r.value.JObj?
              && Lookup(r.value.fields, "passes").None? && Lookup(r.value.fields, "pass").None?
              && (SelectedPass(t.fields).None? ==>
                    forall k :: k != "passes" && k != "pass" ==> Lookup(r.value.fields, k) == Lookup(t.fields, k))
              && (SelectedPass(t.fields).Some? ==>
                    forall k :: k != "passes" && k != "pass" ==>
                      Lookup(r.value.fields, k) == Lookup(LiftPass(t.fields, SelectedPass(t.fields).value), k))
  {
    if t.JNull? then Err("TypeError: Cannot read property 'passes' of null")
    else if !t.JObj? || !Defined(Lookup(t.fields, "passes")) then Ok(t)
    else
      match SelectedPass(t.fields)
      case None => Ok(JObj(Delete(Delete(t.fields, "passes"), "pass")))
      case Some(pass) =>
        if !UsablePass(pass) then Err("instanceProgram")
        else Ok(JObj(Delete(Delete(LiftPass(t.fields, pass), "passes"), "pass")))
  }

  /** A property the technique already defines is never replaced by the
      pass's. */
  lemma RemovePassesKeepsDefined(t: Json, k: string)
    requires t.JObj? && RemovePasses(t).Ok?
    requires k != "passes" && k != "pass" && Defined(Lookup(t.fields, k))
    ensures Lookup(RemovePasses(t).value.fields, k) == Lookup(t.fields, k)
  {
    if Defined(Lookup(t.fields, "passes")) && SelectedPass(t.fields).Some? {
      var pass := SelectedPass(t.fields).value;
      assert Lookup(LiftPass(t.fields, pass), k) == Lookup(t.fields, k);
    }
  }

  /** `removeTechniquePasses`: every technique. */
  function RemoveTechniquePasses(gltf: seq<Field>): (r: Result<seq<Field>, string>)
    ensures r.Ok? ==> forall k :: k != "techniques" ==> Lookup(r.value, k) == Lookup(gltf, k)
    ensures Lookup(gltf, "techniques").None? ==> r == Ok(gltf)
    ensures Lookup(gltf, "techniques").Some? ==> (r.Ok? <==> EachOfOk(Lookup(gltf, "techniques").value, RemovePasses).Ok?)
    ensures r.Ok? && Lookup(gltf, "techniques").Some? ==>
              Lookup(r.value, "techniques") == Some(EachOfOk(Lookup(gltf, "techniques").value, RemovePasses).value)
  {
    WithinOk(gltf, "techniques", RemovePasses)
  }

  // ---------------------------------------------------------------------
  // requireKnownExtensions

  /** `defined(knownExtensions[e])`: one of the three extensions the pipeline
      promotes, or a name every object inherits. */
  predicate KnownExtension(e: Json) {
    e.JStr? && (e.s in {"CESIUM_RTC", "KHR_materials_common", "WEB3D_quantized_attributes"} || e.s in PrototypeNames)
  }

  /** The entries of `extensionsUsed` that are pushed, in order. */
  function KnownIn(es: seq<Json>): (r: seq<Json>)
    ensures |r| <= |es|
  {
    if es == [] then []
    else KnownIn(es[..|es| - 1]) + (if KnownExtension(es[|es| - 1]) then [es[|es| - 1]] else [])
  }

  /** An entry is pushed exactly when it is a known extension of
      `extensionsUsed`, and nothing else is pushed. */
  lemma {:induction false} KnownInMembers(es: seq<Json>)
    ensures forall e :: e in KnownIn(es) <==> e in es && KnownExtension(e)
  {
    if es != [] {
      var init := es[..|es| - 1];
      KnownInMembers(init);
      assert es == init + [es[|es| - 1]];
    }
  }

  /** The array an `extensionsUsed` loop walks: `length` of anything but an
      array is `undefined`, or (for a string) counts characters, which are
      never extension names. */
  function UsedEntries(gltf: seq<Field>): seq<Json> {
    match Lookup(gltf, "extensionsUsed")
    case Some(JArr(es)) => es
    case _ => []
  }

  /** `requireKnownExtensions`: `extensionsRequired` defaults to `[]`, and each
      known extension of `extensionsUsed` is pushed onto it in order.  Pushing
      onto an `extensionsRequired` that is not an array throws. */
  method RequireKnownExtensions(gltf: seq<Field>) returns (r: Result<seq<Field>, string>)
    ensures var req := SetDefault(gltf, "extensionsRequired", JArr([]));
            r.Ok? <==> KnownIn(UsedEntries(gltf)) == [] || Lookup(req, "extensionsRequired").value.JArr?
    ensures r.Ok? ==> forall k :: k != "extensionsRequired" ==> Lookup(r.value, k) == Lookup(gltf, k)
    ensures r.Ok? && Defined(Lookup(gltf, "extensionsRequired")) && KnownIn(UsedEntries(gltf)) == [] ==>
              Lookup(r.value, "extensionsRequired") == Lookup(gltf, "extensionsRequired")
    ensures r.Ok? && !Defined(Lookup(gltf, "extensionsRequired")) ==>
              Lookup(r.value, "extensionsRequired") == Some(JArr(KnownIn(UsedEntries(gltf))))
    ensures r.Ok? && Defined(Lookup(gltf, "extensionsRequired")) && Lookup(gltf, "extensionsRequired").value.JArr? ==>
              Lookup(r.value, "extensionsRequired") == Some(JArr(Lookup(gltf, "extensionsRequired").value.elems + KnownIn(UsedEntries(gltf))))
  {
    var fs := SetDefault(gltf, "extensionsRequired", JArr([]));
    var required := Lookup(fs, "extensionsRequired").value;
    var pushed := PushKnown(UsedEntries(gltf));
    if pushed == [] {
      if required.JArr? {
        assert required.elems + pushed == required.elems;
      }
      return Ok(fs);
    }
    if !required.JArr? {
      return Err("extensionsRequired");
    }
    if !Defined(Lookup(gltf, "extensionsRequired")) {
      assert required.elems + pushed == pushed;
    }
    return Ok(Put(fs, "extensionsRequired", JArr(required.elems + pushed)));
  }

  /** The loop of `requireKnownExtensions`: the known extensions of `used`, in
      order.  The first push onto an `extensionsRequired` that is not an array
      throws, which the caller decides from whether anything is pushed. */
  method PushKnown(used: seq<Json>) returns (pushed: seq<Json>)
    ensures pushed == KnownIn(used)
  {
    pushed := [];
    var i := 0;
    while i < |used|
      invariant 0 <= i <= |used|
      invariant pushed == KnownIn(used[..i])
    {
      assert used[..i + 1][..i] == used[..i];
      if KnownExtension(used[i]) {
        pushed := pushed + [used[i]];
      }
      i := i + 1;
    }
    assert used[..|used|] == used;
  }

  // ---------------------------------------------------------------------
  // removeScissorFromTechniques

  /** `indexOf(x)` of an array that holds `x`. */
  function FirstIndex(es: seq<Json>, x: Json): (i: nat)
    requires x in es
    ensures i < |es| && es[i] == x && x !in es[..i]
  {
    if es[0] == x then 0
    else
      var j := FirstIndex(es[1..], x);
      assert es[..j + 1] == [es[0]] + es[1..][..j];
      j + 1
  }

  /** `splice(indexOf(x), 1)`: the first occurrence removed, the rest in
      order; nothing happens when `indexOf` finds nothing. */
  function RemoveFirst(es: seq<Json>, x: Json): (r: seq<Json>)
    ensures x !in es ==> r == es
    ensures x in es ==> r == es[..FirstIndex(es, x)] + es[FirstIndex(es, x) + 1..]
  {
    if x in es then es[..FirstIndex(es, x)] + es[FirstIndex(es, x) + 1..] else es
  }

  /** Exactly one enable entry `SCISSOR_TEST` disappears when there is one. */
  lemma RemoveFirstCount(es: seq<Json>, x: Json)
    ensures x in es ==> multiset(RemoveFirst(es, x)) == multiset(es) - multiset{x}
    ensures x !in es ==> multiset(RemoveFirst(es, x)) == multiset(es)
  {
    if x in es {
      var i := FirstIndex(es, x);
      assert es == es[..i] + [x] + es[i + 1..];
    }
  }

  /** `states.functions.scissor` deleted and `SCISSOR_TEST` taken out of
      `states.enable`. */
  function RemoveScissor(t: Json): (r: Json)
    ensures !t.JObj? ==> r == t
    ensures t.JObj? ==> r.JObj? && forall k :: k != "states" ==> Lookup(r.fields, k) == Lookup(t.fields, k)
    ensures t.JObj? ==>
              match Lookup(t.fields, "states")
              case Some(JObj(st)) =>
                exists st' :: Lookup(r.fields, "states") == Some(JObj(st')) &&
                  (match Lookup(st, "functions")
                   case Some(JObj(fns)) => Lookup(st', "functions") == Some(JObj(Delete(fns, "scissor")))
                   case other => Lookup(st', "functions") == other) &&
                  (match Lookup(st, "enable")
                   case Some(JArr(en)) => Lookup(st', "enable") == Some(JArr(RemoveFirst(en, JNum(SCISSOR_TEST))))
                   case other => Lookup(st', "enable") == other)
              case other => Lookup(r.fields, "states") == other
  {
    if !t.JObj? then t
    else
      match Lookup(t.fields, "states")
      case Some(JObj(st)) =>
        var st1 := match Lookup(st, "functions")
                   case Some(JObj(fns)) => Put(st, "functions", JObj(Delete(fns, "scissor")))
                   case _ => st;
        var st2 := match Lookup(st1, "enable")
                   case Some(JArr(en)) => Put(st1, "enable", JArr(RemoveFirst(en, JNum(SCISSOR_TEST))))
                   case _ => st1;
        JObj(Put(t.fields, "states", JObj(st2)))
      case _ => t
  }

  /** `removeScissorFromTechniques`: every technique. */
  function RemoveScissorFromTechniques(gltf: seq<Field>): (r: seq<Field>)
    ensures forall k :: k != "techniques" ==> Lookup(r, k) == Lookup(gltf, k)
    ensures Lookup(gltf, "techniques").Some? ==> Lookup(r, "techniques") == Some(EachOf(Lookup(gltf, "techniques").value, RemoveScissor))
  {
    Within(gltf, "techniques", RemoveScissor)
  }

  // ---------------------------------------------------------------------
  // clampTechniqueFunctionStates

  /** `CesiumMath.clamp(v, lo, hi)`. */
  function Clamp(v: int, lo: int, hi: int): (r: int)
    ensures lo <= hi ==> lo <= r <= hi
    ensures lo <= v <= hi ==> r == v
  {
    if v < lo then lo else if v > hi then hi else v
  }

  /** Clamping one `blendColor` entry to [0, 1].  `null`, booleans and
      objects compare false both ways, so `clamp` returns them unchanged. */
  function ClampUnit(e: Json): (r: Json)
    ensures e.JNum? ==> r.JNum? && 0 <= r.n <= 1
    ensures !e.JNum? ==> r == e
  {
    if e.JNum? then JNum(Clamp(e.n, 0, 1)) else e
  }

  /** `blendColor[i] = clamp(blendColor[i], 0, 1)` for `i` in 0..3.  A missing
      entry reads as `undefined`, which `clamp` returns unchanged; it is held
      as `null`, the value JSON writes for an `undefined` array entry. */
  function BlendColor(es: seq<Json>): (r: seq<Json>)
    ensures |r| == if |es| < 4 then 4 else |es|
    ensures forall i :: 0 <= i < 4 && i < |es| ==> r[i] == ClampUnit(es[i])
    ensures forall i :: |es| <= i < 4 ==> r[i] == JNull
    ensures forall i :: 4 <= i < |es| ==> r[i] == es[i]
  {
    var n := if |es| < 4 then 4 else |es|;
    seq(n, i requires 0 <= i < n => if i >= 4 then es[i] else if i < |es| then ClampUnit(es[i]) else JNull)
  }

  /** Afterwards the four colour components are numbers in [0, 1] or not
      numbers at all, and a second clamp changes nothing. */
  lemma BlendColorClamped(es: seq<Json>)
    ensures forall i :: 0 <= i < 4 && BlendColor(es)[i].JNum? ==> 0 <= BlendColor(es)[i].n <= 1
    ensures BlendColor(BlendColor(es)) == BlendColor(es)
  {
    var r := BlendColor(es);
    assert forall i :: 0 <= i < 4 ==> ClampUnit(r[i]) == r[i];
  }

  /** `depthRange[1]` clamped to [0, 1], then `depthRange[0]` to
      [0, depthRange[1]], when both are numbers. */
  function DepthRange(es: seq<Json>): (r: seq<Json>)
    ensures |r| == |es|
    ensures |es| >= 2 && es[0].JNum? && es[1].JNum? ==>
              r[1] == JNum(Clamp(es[1].n, 0, 1)) && r[0] == JNum(Clamp(es[0].n, 0, Clamp(es[1].n, 0, 1))) && r[2..] == es[2..]
    ensures !(|es| >= 2 && es[0].JNum? && es[1].JNum?) ==> r == es
  {
    if |es| >= 2 && es[0].JNum? && es[1].JNum? then
      var far := Clamp(es[1].n, 0, 1);
      [JNum(Clamp(es[0].n, 0, far)), JNum(far)] + es[2..]
    else es
  }

  /** A clamped depth range is ordered inside [0, 1]:
      0 <= depthRange[0] <= depthRange[1] <= 1. */
  lemma DepthRangeOrdered(es: seq<Json>)
    requires |es| >= 2 && es[0].JNum? && es[1].JNum?
    ensures var r := DepthRange(es);
            r[0].JNum? && r[1].JNum? && 0 <= r[0].n <= r[1].n <= 1
  {
  }

  /** The `states.functions` object with its `blendColor` and `depthRange`
      clamped. */
  function ClampFunctions(fns: seq<Field>): (r: seq<Field>)
    ensures match Lookup(fns, "blendColor")
            case Some(JArr(bc)) => Lookup(r, "blendColor") == Some(JArr(BlendColor(bc)))
            case other => Lookup(r, "blendColor") == other
    ensures match Lookup(fns, "depthRange")
            case Some(JArr(dr)) => Lookup(r, "depthRange") == Some(JArr(DepthRange(dr)))
            case other => Lookup(r, "depthRange") == other
    ensures forall k :: k != "blendColor" && k != "depthRange" ==> Lookup(r, k) == Lookup(fns, k)
  {
    var f1 := match Lookup(fns, "blendColor")
              case Some(JArr(bc)) => Put(fns, "blendColor", JArr(BlendColor(bc)))
              case _ => fns;
    match Lookup(f1, "depthRange")
    case Some(JArr(dr)) => Put(f1, "depthRange", JArr(DepthRange(dr)))
    case _ => f1
  }

  /** The technique handler of `clampTechniqueFunctionStates`. */
  function ClampStates(t: Json): (r: Json)
    ensures !t.JObj? ==> r == t
    ensures t.JObj? ==> r.JObj? && forall k :: k != "states" ==> Lookup(r.fields, k) == Lookup(t.fields, k)
    ensures t.JObj? ==>
              match Lookup(t.fields, "states")
              case Some(JObj(st)) =>
                exists st' :: Lookup(r.fields, "states") == Some(JObj(st')) &&
                  (forall k :: k != "functions" ==> Lookup(st', k) == Lookup(st, k)) &&
                  (match Lookup(st, "functions")
                   case Some(JObj(fns)) => Lookup(st', "functions") == Some(JObj(ClampFunctions(fns)))
                   case other => Lookup(st', "functions") == other)
              case other => Lookup(r.fields, "states") == other
  {
    if !t.JObj? then t
    else
      match Lookup(t.fields, "states")
      case Some(JObj(st)) =>
        (match Lookup(st, "functions")
         case Some(JObj(fns)) => JObj(Put(t.fields, "states", JObj(Put(st, "functions", JObj(ClampFunctions(fns))))))
         case _ => t)
      case _ => t
  }

  /** `clampTechniqueFunctionStates`: every technique. */
  function ClampTechniqueFunctionStates(gltf: seq<Field>): (r: seq<Field>)
    ensures forall k :: k != "techniques" ==> Lookup(r, k) == Lookup(gltf, k)
    ensures Lookup(gltf, "techniques").Some? ==> Lookup(r, "techniques") == Some(EachOf(Lookup(gltf, "techniques").value, ClampStates))
  {
    Within(gltf, "techniques", ClampStates)
  }

  // ---------------------------------------------------------------------
  // clampCameraParameters

  /** A zero `aspectRatio` is deleted and a zero `yfov` becomes 1. */
  function ClampPerspective(p: seq<Field>): (r: seq<Field>)
    ensures Lookup(r, "aspectRatio") == if Lookup(p, "aspectRatio") == Some(JNum(0)) then None else Lookup(p, "aspectRatio")
    ensures Lookup(r, "yfov") == if Lookup(p, "yfov") == Some(JNum(0)) then Some(JNum(1)) else Lookup(p, "yfov")
    ensures forall k :: k != "aspectRatio" && k != "yfov" ==> Lookup(r, k) == Lookup(p, k)
  {
    var p1 := if Lookup(p, "aspectRatio") == Some(JNum(0)) then Delete(p, "aspectRatio") else p;
    if Lookup(p1, "yfov") == Some(JNum(0)) then Put(p1, "yfov", JNum(1)) else p1
  }

  /** No zero `aspectRatio` or `yfov` is left, and clamping twice is clamping
      once. */
  lemma ClampPerspectiveIdempotent(p: seq<Field>)
    ensures Lookup(ClampPerspective(p), "aspectRatio") != Some(JNum(0))
    ensures Lookup(ClampPerspective(p), "yfov") != Some(JNum(0))
    ensures ClampPerspective(ClampPerspective(p)) == ClampPerspective(p)
  {
  }

  /** The camera handler of `clampCameraParameters`. */
  function ClampCamera(c: Json): (r: Json)
    ensures !c.JObj? ==> r == c
    ensures c.JObj? ==> r.JObj? && forall k :: k != "perspective" ==> Lookup(r.fields, k) == Lookup(c.fields, k)
    ensures c.JObj? ==>
              match Lookup(c.fields, "perspective")
              case Some(JObj(p)) => Lookup(r.fields, "perspective") == Some(JObj(ClampPerspective(p)))
              case other => Lookup(r.fields, "perspective") == other
  {
    if !c.JObj? then c
    else
      match Lookup(c.fields, "perspective")
      case Some(JObj(p)) => JObj(Put(c.fields, "perspective", JObj(ClampPerspective(p))))
      case _ => c
  }

  /** `clampCameraParameters`: every camera. */
  function ClampCameraParameters(gltf: seq<Field>): (r: seq<Field>)
    ensures forall k :: k != "cameras" ==> Lookup(r, k) == Lookup(gltf, k)
    ensures Lookup(gltf, "cameras").Some? ==> Lookup(r, "cameras") == Some(EachOf(Lookup(gltf, "cameras").value, ClampCamera))
  {
    Within(gltf, "cameras", ClampCamera)
  }

  // ---------------------------------------------------------------------
  // stripTechniqueParameterCount

  /** A semantic under which `count` survives: `JOINTMATRIX` or a string
      starting with an underscore, or an array whose first element is the
      string `_` (its `indexOf('_')` is 0 too). */
  predicate CountAllowed(semantic: Option<Json>) {
    Defined(semantic) &&
    match semantic.value
    case JStr(s) => s == "JOINTMATRIX" || (|s| > 0 && s[0] == '_')
    case JArr(es) => |es| > 0 && es[0] == JStr("_")
    case _ => false
  }

  /** A defined semantic with no `indexOf`: calling it throws. */
  predicate SemanticThrows(semantic: Option<Json>) {
    Defined(semantic) && !semantic.value.JStr? && !semantic.value.JArr?
  }

  /** A defined `count` is deleted unless the semantic allows it; a semantic
      without `indexOf` throws. */
  function StripCount(p: Json): (r: Result<Json, string>)
    ensures p.JNull? ==> r.Err?
    ensures !p.JObj? && !p.JNull? ==> r == Ok(p)
    ensures p.JObj? ==>
              (r.Err? <==> Defined(Lookup(p.fields, "count")) && SemanticThrows(Lookup(p.fields, "semantic")))
    ensures p.JObj? && r.Ok? ==>
              && r.value.JObj?
              && (forall k :: k != "count" ==> Lookup(r.value.fields, k) == Lookup(p.fields, k))
              && Lookup(r.value.fields, "count") ==
                   if Defined(Lookup(p.fields, "count")) && !CountAllowed(Lookup(p.fields, "semantic"))
                   then None else Lookup(p.fields, "count")
  {
    if p.JNull? then Err("TypeError: Cannot read property 'count' of null")
    else if !p.JObj? || !Defined(Lookup(p.fields, "count")) then Ok(p)
    else
      var semantic := Lookup(p.fields, "semantic");
      if !Defined(semantic) then Ok(JObj(Delete(p.fields, "count")))
      else if semantic.value.JStr? && semantic.value.s == "JOINTMATRIX" then Ok(p)
      else if semantic.value.JStr? then
        (if |semantic.value.s| > 0 && semantic.value.s[0] == '_' then Ok(p) else Ok(JObj(Delete(p.fields, "count"))))
      else if semantic.value.JArr? then
        (if |semantic.value.elems| > 0 && semantic.value.elems[0] == JStr("_") then Ok(p) else Ok(JObj(Delete(p.fields, "count"))))
      else Err("indexOf")
  }

  /** After stripping, a defined `count` is left only under a semantic that
      allows it, and stripping twice is stripping once. */
  lemma StripCountSound(p: Json)
    requires p.JObj? && StripCount(p).Ok?
    ensures Defined(Lookup(StripCount(p).value.fields, "count")) ==> CountAllowed(Lookup(StripCount(p).value.fields, "semantic"))
    ensures StripCount(StripCount(p).value) == StripCount(p)
  {
  }

  /** The technique handler: every parameter of `parameters`; reading that
      of a `null` technique throws. */
  function StripParameterCounts(t: Json): Result<Json, string> {
    if t.JNull? then Err("TypeError: Cannot read property 'parameters' of null")
    else if t.JObj? then (var fs :- WithinOk(t.fields, "parameters", StripCount); Ok(JObj(fs))) else Ok(t)
  }

  /** `stripTechniqueParameterCount`: every technique. */
  function StripTechniqueParameterCount(gltf: seq<Field>): (r: Result<seq<Field>, string>)
    ensures Lookup(gltf, "techniques").None? ==> r == Ok(gltf)
    ensures Lookup(gltf, "techniques").Some? ==> (r.Ok? <==> EachOfOk(Lookup(gltf, "techniques").value, StripParameterCounts).Ok?)
    ensures r.Ok? && Lookup(gltf, "techniques").Some? ==>
              Lookup(r.value, "techniques") == Some(EachOfOk(Lookup(gltf, "techniques").value, StripParameterCounts).value)
    ensures r.Ok? ==> forall k :: k != "techniques" ==> Lookup(r.value, k) == Lookup(gltf, k)
  {
    WithinOk(gltf, "techniques", StripParameterCounts)
  }
}
