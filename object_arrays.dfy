/** The first step of the 1.0 to 2.0 rewrite: every top-level collection,
    a JSON object keyed by id, becomes an array, and the conversion records
    which index each old id received so that references can be rewritten. */
module ObjectArrays {
  import opened Wrappers
  import opened Json

  /** A JavaScript object never has two own properties with the same key. */
  predicate UniqueKeys(fs: seq<Field>) {
    forall i, j :: 0 <= i < j < |fs| ==> fs[i].key != fs[j].key
  }

  /** The values `objectToArray` accepts: an object, which takes a `name`,
      or an array or typed array, on which the `name` assignment makes a
      property JSON does not write. */
  predicate Nameable(v: Json) {
    v.JObj? || v.JArr? || v.JBytes?
  }

  predicate AllNameable(obj: seq<Field>) {
    forall i :: 0 <= i < |obj| ==> Nameable(obj[i].value)
  }

  /** An array element keeps its `name`, or takes its old id as name. */
  function Named(id: string, v: Json): (r: Json)
    requires Nameable(v)
    ensures !v.JObj? ==> r == v
    ensures v.JObj? ==> r.JObj? && (Defined(Lookup(v.fields, "name")) ==> r == v)
    ensures v.JObj? && !Defined(Lookup(v.fields, "name")) ==> Lookup(r.fields, "name") == Some(JStr(id))
    ensures v.JObj? ==> forall k :: k != "name" ==> Lookup(r.fields, k) == Lookup(v.fields, k)
  {
    if v.JObj? then JObj(SetDefault(v.fields, "name", JStr(id))) else v
  }

  /** The own enumerable properties `for...in` visits, in insertion order:
      an object's fields; the indices of an array, a string or a typed array
      with their elements; nothing for `null`, a number or a boolean. */
  function Enumerated(v: Json): (r: seq<Field>)
    ensures v.JObj? ==> r == v.fields
    ensures v.JArr? ==> |r| == |v.elems| && forall i :: 0 <= i < |r| ==> r[i] == Field(Decimal(i), v.elems[i])
    ensures v.JStr? ==> |r| == |v.s| && forall i :: 0 <= i < |r| ==> r[i] == Field(Decimal(i), JStr([v.s[i]]))
    ensures v.JBytes? ==> |r| == |v.bytes| && forall i :: 0 <= i < |r| ==> r[i] == Field(Decimal(i), JNum(v.bytes[i]))
    ensures v.JNull? || v.JNum? || v.JBool? ==> r == []
  {
    match v
    case JObj(fs) => fs
    case JArr(es) => Indexed(es)
    case JStr(cs) => Indexed(seq(|cs|, i requires 0 <= i < |cs| => JStr([cs[i]])))
    case JBytes(bs) => Indexed(seq(|bs|, i requires 0 <= i < |bs| => JNum(bs[i])))
    case _ => []
  }

  /** The fields `"0"`, `"1"`, ... of a sequence of elements. */
  function Indexed(es: seq<Json>): (r: seq<Field>)
    ensures |r| == |es| && forall i :: 0 <= i < |r| ==> r[i] == Field(Decimal(i), es[i])
  {
    seq(|es|, i requires 0 <= i < |es| => Field(Decimal(i), es[i]))
  }

  /** What `for...in` visits never repeats a key. */
  lemma EnumeratedUnique(v: Json)
    requires v.JObj? ==> UniqueKeys(v.fields)
    ensures UniqueKeys(Enumerated(v))
  {
    var r := Enumerated(v);
    if !v.JObj? {
      forall i, j | 0 <= i < j < |r| ensures r[i].key != r[j].key {
        if r[i].key == r[j].key {
          DecimalInjective(i, j);
        }
      }
    }
  }

  /** An array enumerates its indices, so an array of objects converts like
      an object keyed `"0"`, `"1"`, ...; a string enumerates its characters,
      so a non-empty one fails at its first. */
  lemma ArrayEnumeratesIndices(es: seq<Json>)
    requires |es| > 0
    ensures Enumerated(JArr(es))[0] == Field("0", es[0])
    ensures Enumerated(JStr("ab")) == [Field("0", JStr("a")), Field("1", JStr("b"))]
  {
    assert Decimal(0) == "0";
    assert Decimal(1) == "1";
  }

  /** `objectToArray` over the properties `obj` that `for...in` visits: the
      values in that order, named, and the id-to-index table.  Reading `name`
      of `null`, or assigning it on a string, number or boolean, throws; the
      error carries the offending id. */
  method ObjectToArray(obj: seq<Field>) returns (r: Result<(seq<Json>, map<string, nat>), string>)
    requires UniqueKeys(obj)
    ensures r.Ok? <==> AllNameable(obj)
    ensures r.Err? ==> exists i :: 0 <= i < |obj| && !Nameable(obj[i].value) && obj[i].key == r.error
    ensures r.Ok? ==> |r.value.0| == |obj|
    ensures r.Ok? ==> forall i :: 0 <= i < |obj| ==> r.value.0[i] == Named(obj[i].key, obj[i].value)
    ensures r.Ok? ==> forall i :: 0 <= i < |obj| ==> obj[i].key in r.value.1 && r.value.1[obj[i].key] == i
    ensures r.Ok? ==> forall k :: k in r.value.1 ==> r.value.1[k] < |obj| && obj[r.value.1[k]].key == k
  {
    var arr: seq<Json> := [];
    var mapping: map<string, nat> := map[];
    var i := 0;
    while i < |obj|
      invariant 0 <= i <= |obj|
      invariant forall j :: 0 <= j < i ==> Nameable(obj[j].value)
      invariant |arr| == i
      invariant forall j :: 0 <= j < i ==> arr[j] == Named(obj[j].key, obj[j].value)
      invariant forall j :: 0 <= j < i ==> obj[j].key in mapping && mapping[obj[j].key] == j
      invariant forall k :: k in mapping ==> mapping[k] < i && obj[mapping[k]].key == k
    {
      var field := obj[i];
      if !Nameable(field.value) {
        return Err(field.key);
      }
      mapping := mapping[field.key := |arr|];
      arr := arr + [Named(field.key, field.value)];
      i := i + 1;
    }
    return Ok((arr, mapping));
  }

  /** The id-to-index table is a bijection between the old ids and the
      indices `0 .. n-1`: distinct ids get distinct indices, and there are
      exactly as many ids as indices. */
  lemma {:induction false} MappingIsBijection(obj: seq<Field>, m: map<string, nat>)
    requires forall i :: 0 <= i < |obj| ==> obj[i].key in m && m[obj[i].key] == i
    requires forall k :: k in m ==> m[k] < |obj| && obj[m[k]].key == k
    ensures forall k, k' :: k in m && k' in m && k != k' ==> m[k] != m[k']
    ensures |m.Keys| == |obj|
    decreases |obj|
  {
    if obj != [] {
      var n := |obj| - 1;
      var last := obj[n].key;
      var m' := m - {last};
      var init := obj[..n];
      forall i | 0 <= i < |init|
        ensures init[i].key in m' && m'[init[i].key] == i
      {
        assert obj[i].key != last;
      }
      MappingIsBijection(init, m');
      assert m.Keys == m'.Keys + {last};
    }
  }

  /** The sixteen top-level collections that become arrays. */
  const Kinds: set<string> := {"accessors", "animations", "buffers", "bufferViews", "cameras", "images",
                               "materials", "meshes", "nodes", "programs", "samplers", "scenes", "shaders",
                               "skins", "textures", "techniques"}

  /** For each collection, the index each old id received. */
  type GlobalMapping = map<string, map<string, nat>>

  /** The top-level conversion of `objectsToArrays`: each collection in
      `Kinds` is replaced by its array, in the asset's own key order, and its
      table is recorded (collections that are absent keep an empty table).
      A collection that enumerates a value other than an object or an array
      (a `null` entry, or the characters of a non-empty string) is reported
      as an error. */
  method ConvertTopLevel(gltf: seq<Field>) returns (r: Result<(seq<Field>, GlobalMapping), string>)
    requires UniqueKeys(gltf)
    requires forall i :: 0 <= i < |gltf| && gltf[i].value.JObj? ==> UniqueKeys(gltf[i].value.fields)
    ensures r.Ok? <==> forall i :: 0 <= i < |gltf| ==> Convertible(gltf[i])
    ensures r.Ok? ==> |r.value.0| == |gltf| && r.value.1.Keys == Kinds
    ensures r.Ok? ==> forall i :: 0 <= i < |gltf| ==> ConvertedField(gltf[i], r.value.0[i], r.value.1)
    ensures r.Ok? ==> forall k :: k in Kinds && Lookup(gltf, k).None? ==> r.value.1[k] == map[]
  {
    var out: seq<Field> := [];
    var g: GlobalMapping := map k | k in Kinds :: map[];
    var i := 0;
    while i < |gltf|
      invariant 0 <= i <= |gltf|
      invariant |out| == i
      invariant g.Keys == Kinds
      invariant forall j :: 0 <= j < i ==> Convertible(gltf[j])
      invariant forall j :: 0 <= j < i ==> ConvertedField(gltf[j], out[j], g)
      invariant forall k :: k in Kinds && (forall j :: 0 <= j < i ==> gltf[j].key != k) ==> g[k] == map[]
    {
      var field := gltf[i];
      if field.key in Kinds {
        var res := ConvertCollection(field);
        if res.Err? {
          return Err(res.error);
        }
        var g' := g[field.key := res.value.1];
        ConvertedFieldFrame(gltf, out, i, g, g');
        out := out + [res.value.0];
        g := g';
      } else {
        out := out + [field];
      }
      i := i + 1;
    }
    forall k | k in Kinds && Lookup(gltf, k).None?
      ensures g[k] == map[]
    {
      LookupFound(gltf, k);
    }
    return Ok((out, g));
  }

  /** One top-level collection converted, with its table. */
  method ConvertCollection(field: Field) returns (r: Result<(Field, map<string, nat>), string>)
    requires field.key in Kinds
    requires field.value.JObj? ==> UniqueKeys(field.value.fields)
    ensures r.Ok? <==> Convertible(field)
    ensures r.Ok? ==> ConvertedField(field, r.value.0, map[field.key := r.value.1])
  {
    EnumeratedUnique(field.value);
    var res := ObjectToArray(Enumerated(field.value));
    if res.Err? {
      return Err(res.error);
    }
    return Ok((Field(field.key, JArr(res.value.0)), res.value.1));
  }

  /** A collection the conversion accepts. */
  predicate Convertible(f: Field) {
    f.key in Kinds ==> AllNameable(Enumerated(f.value))
  }

  /** `o` is what the conversion makes of the top-level property `f`, with
      table `g[f.key]`. */
  predicate ConvertedField(f: Field, o: Field, g: GlobalMapping) {
    && o.key == f.key
    && (f.key !in Kinds ==> o == f)
    && (f.key in Kinds ==>
          && f.key in g
          && o.value.JArr?
          && ConvertedWith(Enumerated(f.value), o.value.elems, g[f.key]))
  }

  /** Recording the table of a later collection leaves the earlier ones'. */
  lemma ConvertedFieldFrame(gltf: seq<Field>, out: seq<Field>, i: nat, g: GlobalMapping, g': GlobalMapping)
    requires UniqueKeys(gltf) && i < |gltf| && |out| == i
    requires forall j :: 0 <= j < i ==> ConvertedField(gltf[j], out[j], g)
    requires g'.Keys == g.Keys
    requires forall k :: k in g && k != gltf[i].key ==> g'[k] == g[k]
    ensures forall j :: 0 <= j < i ==> ConvertedField(gltf[j], out[j], g')
  {
    forall j | 0 <= j < i
      ensures ConvertedField(gltf[j], out[j], g')
    {
      assert gltf[j].key != gltf[i].key;
    }
  }

  /** `arr` and `m` are what `objectToArray` makes of `obj`. */
  predicate ConvertedWith(obj: seq<Field>, arr: seq<Json>, m: map<string, nat>) {
    && AllNameable(obj)
    && |arr| == |obj|
    && (forall i :: 0 <= i < |obj| ==> arr[i] == Named(obj[i].key, obj[i].value))
    && (forall i :: 0 <= i < |obj| ==> obj[i].key in m && m[obj[i].key] == i)
    && (forall k :: k in m ==> m[k] < |obj| && obj[m[k]].key == k)
  }

  /** `jointNameToId` before remapping: each `jointName` (a string) to the
      id of the last node carrying it. */
  function JointNames(nodes: seq<Field>): (r: map<string, string>)
    ensures forall k :: k in r ==> exists i :: 0 <= i < |nodes| && Lookup(FieldsOf(nodes[i].value), "jointName") == Some(JStr(k)) && nodes[i].key == r[k]
  {
    if nodes == [] then map[]
    else
      var last := nodes[|nodes| - 1];
      var rest := JointNames(nodes[..|nodes| - 1]);
      match Lookup(FieldsOf(last.value), "jointName")
      case Some(JStr(name)) => rest[name := last.key]
      case _ => rest
  }

  /** The last node carrying a joint name wins: a later node overrides the
      id an earlier one recorded. */
  lemma {:induction false} JointNamesLastWins(nodes: seq<Field>, name: string, i: nat)
    requires i < |nodes|
    requires Lookup(FieldsOf(nodes[i].value), "jointName") == Some(JStr(name))
    requires forall j :: i < j < |nodes| ==> Lookup(FieldsOf(nodes[j].value), "jointName") != Some(JStr(name))
    ensures name in JointNames(nodes) && JointNames(nodes)[name] == nodes[i].key
    decreases |nodes|
  {
    var init := nodes[..|nodes| - 1];
    var last := nodes[|nodes| - 1];
    var rest := JointNames(init);
    if i < |nodes| - 1 {
      assert init[i] == nodes[i];
      JointNamesLastWins(init, name, i);
      assert Lookup(FieldsOf(last.value), "jointName") != Some(JStr(name));
      assert JointNames(nodes)[name] == rest[name];
    }
  }

  /** `jointNameToId` after its ids are replaced by node indices: an id that
      is not a node yields `undefined`. */
  function JointIndices(names: map<string, string>, nodeIndex: map<string, nat>): (r: map<string, Option<nat>>)
    ensures r.Keys == names.Keys
    ensures forall k :: k in r && r[k].Some? ==> names[k] in nodeIndex && r[k].value == nodeIndex[names[k]]
    ensures forall k :: k in r && names[k] in nodeIndex ==> r[k].Some?
  {
    map k | k in names :: if names[k] in nodeIndex then Some(nodeIndex[names[k]]) else None
  }
}
