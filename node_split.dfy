/** The node handler of `objectsToArrays`: references on each node are
    rewritten, a node with several meshes is split into one node per mesh
    (the extra ones appended to `nodes` and made its children), and
    `skeletons` is moved onto the node's skin. */
module NodeSplit {
  import opened Wrappers
  import opened Json
  import opened ObjectArrays
  import opened References

  /** The entries of an array value; anything else reads as empty. */
  function ElemsOf(v: Json): seq<Json> {
    if v.JArr? then v.elems else []
  }

  function Elems(fs: seq<Field>, k: string): seq<Json> {
    if Lookup(fs, k).Some? then ElemsOf(Lookup(fs, k).value) else []
  }

  /** `{mesh : globalMapping.meshes[m]}`: an id with no index leaves the
      new node empty. */
  function MeshNode(mesh: Option<Json>): (r: Json)
    ensures r.JObj? && Lookup(r.fields, "mesh") == mesh
  {
    if mesh.Some? then JObj([Field("mesh", mesh.value)]) else JObj([])
  }

  /** The nodes split off a node: one for every mesh after the first. */
  function MeshNodes(fs: seq<Field>, g: GlobalMapping): (r: seq<Json>)
    ensures |r| == if |Elems(fs, "meshes")| > 0 then |Elems(fs, "meshes")| - 1 else 0
  {
    var ms := Elems(fs, "meshes");
    if |ms| == 0 then [] else NodesFor(ms[1..], g)
  }

  /** One new node per mesh id, in order. */
  function NodesFor(ms: seq<Json>, g: GlobalMapping): (r: seq<Json>)
    ensures |r| == |ms|
  {
    if ms == [] then [] else [MeshNode(RefTo(g, "meshes", Some(ms[0])))] + NodesFor(ms[1..], g)
  }

  lemma {:induction false} NodesForAt(ms: seq<Json>, g: GlobalMapping, i: nat)
    requires i < |ms|
    ensures NodesFor(ms, g)[i] == MeshNode(RefTo(g, "meshes", Some(ms[i])))
  {
    if i > 0 {
      NodesForAt(ms[1..], g, i - 1);
    }
  }

  /** Split-off node `i` carries the index of mesh `i + 1`. */
  lemma MeshNodesAt(fs: seq<Field>, g: GlobalMapping, i: nat)
    requires i < |MeshNodes(fs, g)|
    ensures MeshNodes(fs, g)[i] == MeshNode(RefTo(g, "meshes", Some(Elems(fs, "meshes")[i + 1])))
  {
    var ms := Elems(fs, "meshes");
    NodesForAt(ms[1..], g, i);
  }

  /** The indices the split-off nodes receive when `nodes` has `next` entries. */
  function NewIds(n: nat, next: nat): (r: seq<Json>)
    ensures |r| == n && forall i :: 0 <= i < n ==> r[i] == JNum(next + i)
  {
    if n == 0 then [] else [JNum(next)] + NewIds(n - 1, next + 1)
  }

  /** `children` rewritten, or nothing when the node has none. */
  function OldChildren(fs: seq<Field>, g: GlobalMapping): seq<Json> {
    RemapElems(Elems(fs, "children"), g, "nodes")
  }

  /** What the handler makes of the node's own property `k`, whose value is
      `v` (`None`: the property is removed).  `children` is rewritten and
      gets the split-off nodes' indices (a `null` one is replaced when there
      are any), `mesh` is set from the first mesh, and `camera` and `skin`
      are rewritten; `meshes`, `skeletons` and `jointName` are deleted.  The
      handler only touches a property it finds defined. */
  function FixValue(k: string, v: Json, fs: seq<Field>, g: GlobalMapping, next: nat): Option<Json> {
    var ms := Elems(fs, "meshes");
    var n := |MeshNodes(fs, g)|;
    if k == "children" then
      if v != JNull then Some(JArr(RemapElems(ElemsOf(v), g, "nodes") + NewIds(n, next)))
      else if n > 0 then Some(JArr(NewIds(n, next)))
      else Some(v)
    else if k == "meshes" || k == "skeletons" || k == "jointName" then
      if v != JNull then None else Some(v)
    else if k == "mesh" then
      if |ms| > 0 then RefTo(g, "meshes", Some(ms[0])) else Some(v)
    else if k == "camera" then
      if v != JNull then RefTo(g, "cameras", Some(v)) else Some(v)
    else if k == "skin" then
      if v != JNull then RefTo(g, "skins", Some(v)) else Some(v)
    else Some(v)
  }

  /** The node's own properties, in order, after the handler. */
  function FixFields(rest: seq<Field>, fs: seq<Field>, g: GlobalMapping, next: nat): seq<Field> {
    if rest == [] then []
    else
      var head := match FixValue(rest[0].key, rest[0].value, fs, g, next)
        case Some(v) => [Field(rest[0].key, v)]
        case None => [];
      head + FixFields(rest[1..], fs, g, next)
  }

  /** The properties the handler creates: `mesh` when there was none (and
      the first mesh has an index), then `children` when there was none and
      meshes were split off. */
  function Appended(fs: seq<Field>, g: GlobalMapping, next: nat): seq<Field> {
    var ms := Elems(fs, "meshes");
    var n := |MeshNodes(fs, g)|;
    var mesh := if |ms| > 0 then RefTo(g, "meshes", Some(ms[0])) else None;
    (if Lookup(fs, "mesh").None? && mesh.Some? then [Field("mesh", mesh.value)] else [])
    + (if Lookup(fs, "children").None? && n > 0 then [Field("children", JArr(NewIds(n, next)))] else [])
  }

  /** The node itself after the handler, when `nodes` has `next` entries at
      the time it is visited: a property keeps its place when it is
      reassigned, and a new one goes last. */
  function FixNode(fs: seq<Field>, g: GlobalMapping, next: nat): seq<Field> {
    FixFields(fs, fs, g, next) + Appended(fs, g, next)
  }

  /** A property the node has reads as `FixValue` says, one it lacks reads
      as nothing. */
  lemma {:induction false} LookupFixFields(rest: seq<Field>, fs: seq<Field>, g: GlobalMapping, next: nat, k: string)
    requires UniqueKeys(rest)
    ensures Lookup(FixFields(rest, fs, g, next), k)
            == if Lookup(rest, k).Some? then FixValue(k, Lookup(rest, k).value, fs, g, next) else None
  {
    if rest != [] {
      var head := match FixValue(rest[0].key, rest[0].value, fs, g, next)
        case Some(v) => [Field(rest[0].key, v)]
        case None => [];
      assert FixFields(rest, fs, g, next) == head + FixFields(rest[1..], fs, g, next);
      LookupAppend(head, FixFields(rest[1..], fs, g, next), k);
      assert UniqueKeys(rest[1..]) by {
        forall i, j | 0 <= i < j < |rest[1..]|
          ensures rest[1..][i].key != rest[1..][j].key
        {
          assert rest[1..][i] == rest[i + 1] && rest[1..][j] == rest[j + 1];
        }
      }
      LookupFixFields(rest[1..], fs, g, next, k);
      if rest[0].key == k {
        LookupFound(rest[1..], k);
      }
    }
  }

  /** Every property of the handled node: a property the node had reads as
      `FixValue` says, and one it lacked only as the handler creates it. */
  lemma LookupFixNode(fs: seq<Field>, g: GlobalMapping, next: nat, k: string)
    requires UniqueKeys(fs)
    ensures Lookup(fs, k).Some? ==> Lookup(FixNode(fs, g, next), k) == FixValue(k, Lookup(fs, k).value, fs, g, next)
    ensures Lookup(fs, k).None? ==> Lookup(FixNode(fs, g, next), k) == Lookup(Appended(fs, g, next), k)
  {
    LookupFixFields(fs, fs, g, next, k);
    LookupAppend(FixFields(fs, fs, g, next), Appended(fs, g, next), k);
  }

  /** What a node lacking `k` reads after the handler. */
  lemma LookupAppended(fs: seq<Field>, g: GlobalMapping, next: nat, k: string)
    ensures var ms := Elems(fs, "meshes");
            var n := |MeshNodes(fs, g)|;
            && (k == "mesh" && Lookup(fs, "mesh").None? ==>
                  Lookup(Appended(fs, g, next), k) == if |ms| > 0 then RefTo(g, "meshes", Some(ms[0])) else None)
            && (k == "children" && Lookup(fs, "children").None? ==>
                  Lookup(Appended(fs, g, next), k) == if n > 0 then Some(JArr(NewIds(n, next))) else None)
            && (k != "mesh" && k != "children" ==> Lookup(Appended(fs, g, next), k).None?)
  {
    var ms := Elems(fs, "meshes");
    var n := |MeshNodes(fs, g)|;
    var mesh := if |ms| > 0 then RefTo(g, "meshes", Some(ms[0])) else None;
    var a1: seq<Field> := if Lookup(fs, "mesh").None? && mesh.Some? then [Field("mesh", mesh.value)] else [];
    var a2: seq<Field> := if Lookup(fs, "children").None? && n > 0 then [Field("children", JArr(NewIds(n, next)))] else [];
    assert Appended(fs, g, next) == a1 + a2;
    LookupAppend(a1, a2, k);
  }

  /** The properties the node handler writes. */
  predicate Written(k: string) {
    k in {"children", "mesh", "meshes", "camera", "skin", "skeletons", "jointName"}
  }

  /** A node with meshes `[m0, ..., mn]` ends with `mesh` = the index of m0;
      a defined `meshes` is removed. */
  lemma SplitNodeMesh(fs: seq<Field>, g: GlobalMapping, next: nat)
    requires UniqueKeys(fs)
    ensures var r := FixNode(fs, g, next);
            var ms := Elems(fs, "meshes");
            && Lookup(r, "meshes") == (if Defined(Lookup(fs, "meshes")) then None else Lookup(fs, "meshes"))
            && (|ms| > 0 ==> Lookup(r, "mesh") == RefTo(g, "meshes", Some(ms[0])))
            && (|ms| == 0 ==> Lookup(r, "mesh") == Lookup(fs, "mesh"))
  {
    LookupFixNode(fs, g, next, "meshes");
    LookupFixNode(fs, g, next, "mesh");
    LookupAppended(fs, g, next, "meshes");
    LookupAppended(fs, g, next, "mesh");
  }

  /** The n nodes split off it have their indices appended to the node's
      (rewritten) `children`, which is created when it is missing or `null`
      and n > 0. */
  lemma SplitNodeChildren(fs: seq<Field>, g: GlobalMapping, next: nat)
    requires UniqueKeys(fs)
    ensures var r := FixNode(fs, g, next);
            var n := |MeshNodes(fs, g)|;
            && (Defined(Lookup(fs, "children")) || n > 0 ==> Lookup(r, "children") == Some(JArr(OldChildren(fs, g) + NewIds(n, next))))
            && (!Defined(Lookup(fs, "children")) && n == 0 ==> Lookup(r, "children") == Lookup(fs, "children"))
  {
    LookupFixNode(fs, g, next, "children");
    LookupAppended(fs, g, next, "children");
    if !Defined(Lookup(fs, "children")) {
      assert OldChildren(fs, g) == [];
      assert OldChildren(fs, g) + NewIds(|MeshNodes(fs, g)|, next) == NewIds(|MeshNodes(fs, g)|, next);
    }
  }

  /** The node handler also rewrites a defined `camera` and `skin`. */
  lemma FixNodeRefs(fs: seq<Field>, g: GlobalMapping, next: nat)
    requires UniqueKeys(fs)
    ensures var r := FixNode(fs, g, next);
            && (Defined(Lookup(fs, "camera")) ==> Lookup(r, "camera") == RefTo(g, "cameras", Lookup(fs, "camera")))
            && (!Defined(Lookup(fs, "camera")) ==> Lookup(r, "camera") == Lookup(fs, "camera"))
            && (Defined(Lookup(fs, "skin")) ==> Lookup(r, "skin") == RefTo(g, "skins", Lookup(fs, "skin")))
            && (!Defined(Lookup(fs, "skin")) ==> Lookup(r, "skin") == Lookup(fs, "skin"))
  {
    LookupFixNode(fs, g, next, "camera");
    LookupFixNode(fs, g, next, "skin");
    LookupAppended(fs, g, next, "camera");
    LookupAppended(fs, g, next, "skin");
  }

  /** It removes a defined `skeletons` and `jointName`. */
  lemma FixNodeClean(fs: seq<Field>, g: GlobalMapping, next: nat)
    requires UniqueKeys(fs)
    ensures var r := FixNode(fs, g, next);
            && Lookup(r, "skeletons") == (if Defined(Lookup(fs, "skeletons")) then None else Lookup(fs, "skeletons"))
            && !Defined(Lookup(r, "jointName"))
  {
    LookupFixNode(fs, g, next, "skeletons");
    LookupFixNode(fs, g, next, "jointName");
    LookupAppended(fs, g, next, "skeletons");
    LookupAppended(fs, g, next, "jointName");
  }

  /** It leaves every property it does not write alone. */
  lemma FixNodeFrame(fs: seq<Field>, g: GlobalMapping, next: nat, k: string)
    requires UniqueKeys(fs)
    requires !Written(k)
    ensures Lookup(FixNode(fs, g, next), k) == Lookup(fs, k)
  {
    LookupFixNode(fs, g, next, k);
    LookupAppended(fs, g, next, k);
  }

  /** The write `gltf.skins[node.skin].skeleton = ...` a node makes: the
      node's rewritten skin and the index of its first skeleton. */
  function Skeleton(fs: seq<Field>, g: GlobalMapping): Option<(Json, Option<Json>)> {
    var skin := if Defined(Lookup(fs, "skin")) then RefTo(g, "skins", Lookup(fs, "skin")) else Lookup(fs, "skin");
    var skeletons := Elems(fs, "skeletons");
    if |skeletons| > 0 && Defined(skin) then Some((skin.value, RefTo(g, "nodes", Some(skeletons[0])))) else None
  }

  /** Performs a skeleton write; a skin index with no skin object behind it
      throws. */
  function SkinWrite(skins: seq<Json>, w: Option<(Json, Option<Json>)>): (r: Result<seq<Json>, string>)
    ensures r.Ok? ==> |r.value| == |skins|
  {
    if w.None? then Ok(skins)
    else if w.value.0.JNum? && 0 <= w.value.0.n < |skins| && skins[w.value.0.n].JObj? then
      Ok(skins[w.value.0.n := JObj(Assign(skins[w.value.0.n].fields, "skeleton", w.value.1))])
    else Err("skin")
  }

  /** The skins after the handler ran over the first `i` nodes, in order;
      the first skeleton write that throws ends the pass. */
  function SkinsAfter(nodes: seq<seq<Field>>, skins: seq<Json>, g: GlobalMapping, i: nat): Result<seq<Json>, string>
    requires i <= |nodes|
  {
    if i == 0 then Ok(skins)
    else
      match SkinsAfter(nodes, skins, g, i - 1)
      case Ok(sk) => SkinWrite(sk, Skeleton(nodes[i - 1], g))
      case Err(e) => Err(e)
  }

  /** The nodes each node splits off, node by node. */
  function Chunks(nodes: seq<seq<Field>>, g: GlobalMapping): (r: seq<seq<Json>>)
    ensures |r| == |nodes|
  {
    if nodes == [] then [] else [MeshNodes(nodes[0], g)] + Chunks(nodes[1..], g)
  }

  lemma {:induction false} ChunksAt(nodes: seq<seq<Field>>, g: GlobalMapping, i: nat)
    requires i < |nodes|
    ensures Chunks(nodes, g)[i] == MeshNodes(nodes[i], g)
  {
    if i > 0 {
      ChunksAt(nodes[1..], g, i - 1);
    }
  }

  /** The first `i` chunks, one after the other. */
  function Flat<T>(cs: seq<seq<T>>, i: nat): seq<T>
    requires i <= |cs|
  {
    if i == 0 then [] else Flat(cs, i - 1) + cs[i - 1]
  }

  /** Appending more chunks leaves the earlier ones in place. */
  lemma {:induction false} FlatKeeps<T>(cs: seq<seq<T>>, i: nat, j: nat, k: nat)
    requires j < i <= |cs|
    requires k < |cs[j]|
    ensures |Flat(cs, j)| + k < |Flat(cs, i)|
    ensures Flat(cs, i)[|Flat(cs, j)| + k] == cs[j][k]
    decreases i
  {
    if i == j + 1 {
      assert Flat(cs, i) == Flat(cs, j) + cs[j];
    } else {
      FlatKeeps(cs, i - 1, j, k);
      var a := Flat(cs, i - 1);
      assert Flat(cs, i) == a + cs[i - 1];
    }
  }

  /** The nodes split off the first `i` nodes, in visiting order: node `j`
      is visited when `nodes` has its original entries plus
      `SplitOff(nodes, g, j)`. */
  function SplitOff(nodes: seq<seq<Field>>, g: GlobalMapping, i: nat): seq<Json>
    requires i <= |nodes|
  {
    Flat(Chunks(nodes, g), i)
  }

  /** `f(0), ..., f(n - 1)`. */
  function Tabulate<T>(f: nat -> T, n: nat): seq<T> {
    if n == 0 then [] else Tabulate(f, n - 1) + [f(n - 1)]
  }

  lemma {:induction false} TabulateAt<T>(f: nat -> T, n: nat, j: nat)
    requires j < n
    ensures |Tabulate(f, n)| == n && Tabulate(f, n)[j] == f(j)
  {
    if j < n - 1 {
      TabulateAt(f, n - 1, j);
    } else if n > 1 {
      TabulateAt(f, n - 1, 0);
    }
  }

  /** Node `j` as the handler leaves it: handled with `next` = the length of
      `nodes` at its visit, the original entries plus those split off before
      it. */
  function Handle(nodes: seq<seq<Field>>, g: GlobalMapping): nat -> Json {
    (j: nat) => if j < |nodes| then JObj(FixNode(nodes[j], g, |nodes| + |SplitOff(nodes, g, j)|)) else JNull
  }

  /** The first `i` nodes as the handler leaves them. */
  function Fixed(nodes: seq<seq<Field>>, g: GlobalMapping, i: nat): seq<Json>
    requires i <= |nodes|
  {
    Tabulate(Handle(nodes, g), i)
  }

  /** Where the node pass stands after the first `i` nodes: the visited
      nodes as handled, the nodes split off so far, and the skins. */
  datatype PassState = PassState(fixed: seq<Json>, extras: seq<Json>, skins: seq<Json>)

  function After(nodes: seq<seq<Field>>, skins: seq<Json>, g: GlobalMapping, i: nat): Result<PassState, string>
    requires i <= |nodes|
  {
    match SkinsAfter(nodes, skins, g, i)
    case Err(e) => Err(e)
    case Ok(sk) => Ok(PassState(Fixed(nodes, g, i), SplitOff(nodes, g, i), sk))
  }

  /** `ForEach.node` with the handler above, over the nodes' property lists
      (every node is an object once the collection is an array).  The loop
      bound is the length before the first split, so the appended nodes are
      not visited: the array returned is the visited nodes followed by those
      split off, with the skins as the skeleton writes leave them. */
  method FixNodes(nodes: seq<seq<Field>>, skins: seq<Json>, g: GlobalMapping) returns (r: Result<(seq<Json>, seq<Json>), string>)
    ensures SkinsAfter(nodes, skins, g, |nodes|).Err? ==> r.Err?
    ensures SkinsAfter(nodes, skins, g, |nodes|).Ok? ==>
              r == Ok((Fixed(nodes, g, |nodes|) + SplitOff(nodes, g, |nodes|), SkinsAfter(nodes, skins, g, |nodes|).value))
  {
    var st := PassState([], [], skins);
    var i := 0;
    while i < |nodes|
      invariant 0 <= i <= |nodes|
      invariant After(nodes, skins, g, i) == Ok(st)
    {
      var res := VisitNode(nodes, skins, g, i, st);
      if res.Err? {
        SkinErrorSticks(nodes, skins, g, i + 1);
        return Err(res.error);
      }
      st := res.value;
      i := i + 1;
    }
    return Ok((st.fixed + st.extras, st.skins));
  }

  /** The handler on node `i`: the skeleton written to the node's skin, the
      node as handled, and the nodes split off it appended to `nodes`. */
  method VisitNode(nodes: seq<seq<Field>>, skins: seq<Json>, g: GlobalMapping, i: nat, st: PassState)
    returns (r: Result<PassState, string>)
    requires i < |nodes|
    requires After(nodes, skins, g, i) == Ok(st)
    ensures r == After(nodes, skins, g, i + 1)
  {
    var node := nodes[i];
    var w := SkinWrite(st.skins, Skeleton(node, g));
    if w.Err? {
      return Err(w.error);
    }
    ChunksAt(nodes, g, i);
    var fixed := JObj(FixNode(node, g, |nodes| + |st.extras|));
    return Ok(PassState(st.fixed + [fixed], st.extras + MeshNodes(node, g), w.value));
  }

  /** Once a skeleton write has thrown, the pass stays thrown. */
  lemma {:induction false} SkinErrorSticks(nodes: seq<seq<Field>>, skins: seq<Json>, g: GlobalMapping, i: nat)
    requires i <= |nodes|
    requires SkinsAfter(nodes, skins, g, i).Err?
    ensures SkinsAfter(nodes, skins, g, |nodes|).Err?
    decreases |nodes| - i
  {
    if i < |nodes| {
      SkinErrorSticks(nodes, skins, g, i + 1);
    }
  }

  /** The pass keeps one handled node per visited node, in order: node
      `j` handled with `next` = the length of `nodes` at its visit. */
  lemma FixedAt(nodes: seq<seq<Field>>, g: GlobalMapping, i: nat, j: nat)
    requires j < i <= |nodes|
    ensures |Fixed(nodes, g, i)| == i
    ensures Fixed(nodes, g, i)[j] == JObj(FixNode(nodes[j], g, |nodes| + |SplitOff(nodes, g, j)|))
  {
    TabulateAt(Handle(nodes, g), i, j);
  }

  /** The indices node `j` received as new children are the positions, in
      the final `nodes` array (the `|nodes|` handled nodes, then those split
      off), of exactly the nodes split off it, in mesh order. */
  lemma SplitChildrenResolve(nodes: seq<seq<Field>>, g: GlobalMapping, j: nat, k: nat)
    requires j < |nodes|
    requires k < |MeshNodes(nodes[j], g)|
    ensures var all := SplitOff(nodes, g, |nodes|);
            var pre := SplitOff(nodes, g, j);
            |pre| + k < |all| && all[|pre| + k] == MeshNodes(nodes[j], g)[k]
  {
    ChunksAt(nodes, g, j);
    FlatKeeps(Chunks(nodes, g), |nodes|, j, k);
  }
}
