/** Attribute semantics in the 1.0 to 2.0 upgrade: `TEXCOORD` and `COLOR`
    gain the set index 0, and application-specific semantics gain a leading
    underscore, both in mesh primitives and in technique parameters. */
module Semantics {
  import opened Wrappers
  import opened Json
  import opened ObjectArrays
  import opened CleanupPasses

  // ---------------------------------------------------------------------
  // requireAttributeSetIndex

  /** The attribute loop: each `TEXCOORD` or `COLOR` attribute, in key order,
      is copied to the set-index-0 name. */
  function CopySetIndex(attrs: seq<Field>, acc: seq<Field>): seq<Field>
    decreases |attrs|
  {
    if attrs == [] then acc
    else
      var acc' := if attrs[0].key == "TEXCOORD" then Put(acc, "TEXCOORD_0", attrs[0].value)
                  else if attrs[0].key == "COLOR" then Put(acc, "COLOR_0", attrs[0].value)
                  else acc;
      CopySetIndex(attrs[1..], acc')
  }

  /** What the loop of `CopySetIndex` leaves readable: the set-index-0 names
      take the unindexed attributes' accessors, everything else reads as
      before. */
  lemma {:induction false} LookupCopySetIndex(attrs: seq<Field>, acc: seq<Field>, k: string)
    requires UniqueKeys(attrs)
    ensures Lookup(CopySetIndex(attrs, acc), k) ==
              if k == "TEXCOORD_0" && Lookup(attrs, "TEXCOORD").Some? then Lookup(attrs, "TEXCOORD")
              else if k == "COLOR_0" && Lookup(attrs, "COLOR").Some? then Lookup(attrs, "COLOR")
              else Lookup(acc, k)
    decreases |attrs|
  {
    if attrs != [] {
      var rest := attrs[1..];
      var key := attrs[0].key;
      var acc' := if key == "TEXCOORD" then Put(acc, "TEXCOORD_0", attrs[0].value)
                  else if key == "COLOR" then Put(acc, "COLOR_0", attrs[0].value)
                  else acc;
      assert UniqueKeys(rest) by {
        forall i, j | 0 <= i < j < |rest| ensures rest[i].key != rest[j].key {
          assert rest[i] == attrs[i + 1] && rest[j] == attrs[j + 1];
        }
      }
      LookupCopySetIndex(rest, acc', k);
      forall i | 0 <= i < |rest|
        ensures rest[i].key != key
      {
        assert rest[i] == attrs[i + 1];
      }
      LookupFound(rest, key);
    }
  }

  /** `primitive.attributes` after `requireAttributeSetIndex`. */
  function WithSetIndex(attrs: seq<Field>): seq<Field> {
    Delete(Delete(CopySetIndex(attrs, attrs), "TEXCOORD"), "COLOR")
  }

  /** No unindexed `TEXCOORD` or `COLOR` is left; the indexed names hold the
      accessors the unindexed ones named (or keep their own when there was
      none); every other attribute is unchanged. */
  lemma WithSetIndexEffect(attrs: seq<Field>, k: string)
    requires UniqueKeys(attrs)
    ensures Lookup(WithSetIndex(attrs), "TEXCOORD").None? && Lookup(WithSetIndex(attrs), "COLOR").None?
    ensures k == "TEXCOORD_0" ==>
              (Lookup(WithSetIndex(attrs), k) == if Lookup(attrs, "TEXCOORD").Some? then Lookup(attrs, "TEXCOORD") else Lookup(attrs, k))
    ensures k == "COLOR_0" ==>
              (Lookup(WithSetIndex(attrs), k) == if Lookup(attrs, "COLOR").Some? then Lookup(attrs, "COLOR") else Lookup(attrs, k))
    ensures k != "TEXCOORD" && k != "COLOR" && k != "TEXCOORD_0" && k != "COLOR_0" ==>
              Lookup(WithSetIndex(attrs), k) == Lookup(attrs, k)
  {
    LookupCopySetIndex(attrs, attrs, k);
  }

  /** The primitive handler.  Reading `attributes` of a `null` primitive
      throws, and `delete primitive.attributes.TEXCOORD` throws when
      `attributes` is absent or `null`, as it is on any primitive that is
      not an object. */
  function SetIndexPrimitive(p: Json): (r: Result<Json, string>)
    ensures !p.JObj? ==> r.Err?
    ensures p.JObj? ==> (r.Err? <==> !Defined(Lookup(p.fields, "attributes")))
    ensures p.JObj? && r.Ok? ==>
              && r.value.JObj?
              && (forall k :: k != "attributes" ==> Lookup(r.value.fields, k) == Lookup(p.fields, k))
              && match Lookup(p.fields, "attributes")
                 case Some(JObj(a)) => Lookup(r.value.fields, "attributes") == Some(JObj(WithSetIndex(a)))
                 case other => Lookup(r.value.fields, "attributes") == other
  {
    if !p.JObj? then Err("attributes")
    else
      match Lookup(p.fields, "attributes")
      case None => Err("attributes")
      case Some(JNull) => Err("attributes")
      case Some(JObj(a)) => Ok(JObj(Put(p.fields, "attributes", JObj(WithSetIndex(a)))))
      case Some(_) => Ok(p)
  }

  /** The technique parameter handler: a `TEXCOORD` or `COLOR` semantic gains
      the set index 0. */
  function SetIndexParameter(p: Json): (r: Json)
    ensures !p.JObj? ==> r == p
    ensures p.JObj? ==> r.JObj? && forall k :: k != "semantic" ==> Lookup(r.fields, k) == Lookup(p.fields, k)
    ensures p.JObj? ==>
              (Lookup(r.fields, "semantic") ==
                 if Lookup(p.fields, "semantic") == Some(JStr("TEXCOORD")) then Some(JStr("TEXCOORD_0"))
                 else if Lookup(p.fields, "semantic") == Some(JStr("COLOR")) then Some(JStr("COLOR_0"))
                 else Lookup(p.fields, "semantic"))
  {
    if !p.JObj? then p
    else if Lookup(p.fields, "semantic") == Some(JStr("TEXCOORD")) then JObj(Put(p.fields, "semantic", JStr("TEXCOORD_0")))
    else if Lookup(p.fields, "semantic") == Some(JStr("COLOR")) then JObj(Put(p.fields, "semantic", JStr("COLOR_0")))
    else p
  }

  function SetIndexMesh(m: Json): Result<Json, string> {
    if m.JObj? then (var fs :- WithinOk(m.fields, "primitives", SetIndexPrimitive); Ok(JObj(fs))) else Ok(m)
  }

  function SetIndexTechnique(t: Json): Json {
    if t.JObj? then JObj(Within(t.fields, "parameters", SetIndexParameter)) else t
  }

  /** `requireAttributeSetIndex`: every mesh primitive, then every technique
      parameter. */
  function RequireAttributeSetIndex(gltf: seq<Field>): (r: Result<seq<Field>, string>)
    ensures Lookup(gltf, "meshes").Some? ==> (r.Ok? <==> EachOfOk(Lookup(gltf, "meshes").value, SetIndexMesh).Ok?)
    ensures Lookup(gltf, "meshes").None? ==> r.Ok?
    ensures r.Ok? && Lookup(gltf, "meshes").Some? ==>
              Lookup(r.value, "meshes") == Some(EachOfOk(Lookup(gltf, "meshes").value, SetIndexMesh).value)
    ensures r.Ok? && Lookup(gltf, "techniques").Some? ==>
              Lookup(r.value, "techniques") == Some(EachOf(Lookup(gltf, "techniques").value, SetIndexTechnique))
    ensures r.Ok? ==> forall k :: k != "meshes" && k != "techniques" ==> Lookup(r.value, k) == Lookup(gltf, k)
  {
    var fs :- WithinOk(gltf, "meshes", SetIndexMesh);
    Ok(Within(fs, "techniques", SetIndexTechnique))
  }

  // ---------------------------------------------------------------------
  // underscoreApplicationSpecificSemantics

  predicate IsDigit(c: char) {
    '0' <= c <= '9'
  }

  /** `semantic.search(/_[0-9]+/)`: the first underscore followed by a digit,
      or the length of the semantic when there is none. */
  function SetIndexAt(s: string): (r: nat)
    ensures r <= |s|
    ensures r < |s| ==> r + 1 < |s| && s[r] == '_' && IsDigit(s[r + 1])
    ensures forall j :: 0 <= j < r && j + 1 < |s| ==> !(s[j] == '_' && IsDigit(s[j + 1]))
  {
    if |s| < 2 then |s|
    else if s[0] == '_' && IsDigit(s[1]) then 0
    else 1 + SetIndexAt(s[1..])
  }

  /** The semantic without its set index. */
  function Stripped(s: string): string {
    s[..SetIndexAt(s)]
  }

  /** `defined(knownSemantics[s])`. */
  predicate KnownSemantic(s: string) {
    s in {"POSITION", "NORMAL", "TANGENT", "TEXCOORD", "COLOR", "JOINT", "WEIGHTS"} || s in PrototypeNames
  }

  predicate Underscored(s: string) {
    |s| > 0 && s[0] == '_'
  }

  /** An attribute semantic the pass renames: not underscored already and,
      without its set index, not a glTF semantic. */
  predicate NeedsUnderscore(s: string) {
    !Underscored(s) && !KnownSemantic(Stripped(s))
  }

  /** `mappedSemantics`, as its keys in insertion order; each key `s` maps to
      `'_' + s`, and none is underscored already. */
  predicate MappedOk(ks: seq<string>) {
    && (forall i :: 0 <= i < |ks| ==> !Underscored(ks[i]))
    && (forall i, j :: 0 <= i < j < |ks| ==> ks[i] != ks[j])
  }

  /** The attribute loop: every semantic of the primitive that needs an
      underscore enters `mappedSemantics`, once, after those already there. */
  function Scan(attrs: seq<Field>, ks: seq<string>): (r: seq<string>)
    requires MappedOk(ks)
    ensures MappedOk(r)
    ensures |ks| <= |r| && r[..|ks|] == ks
    decreases |attrs|
  {
    if attrs == [] then ks
    else
      var k := attrs[0].key;
      var ks' := if NeedsUnderscore(k) && k !in ks then ks + [k] else ks;
      assert ks'[..|ks|] == ks;
      var r := Scan(attrs[1..], ks');
      assert r[..|ks|] == r[..|ks'|][..|ks|];
      r
  }

  /** Every semantic of the primitive that needs an underscore is mapped
      after the scan, and so is every semantic mapped before it. */
  lemma ScanCovers(attrs: seq<Field>, ks: seq<string>)
    requires MappedOk(ks)
    ensures forall i :: 0 <= i < |attrs| && NeedsUnderscore(attrs[i].key) ==> attrs[i].key in Scan(attrs, ks)
    ensures forall s :: s in ks ==> s in Scan(attrs, ks)
  {
    forall i | 0 <= i < |attrs| && NeedsUnderscore(attrs[i].key)
      ensures attrs[i].key in Scan(attrs, ks)
    {
      ScanCoversAt(attrs, ks, i);
    }
    ScanKeeps(attrs, ks);
  }

  /** The semantic at position `i` is mapped after the scan. */
  lemma {:induction false} ScanCoversAt(attrs: seq<Field>, ks: seq<string>, i: nat)
    requires MappedOk(ks) && i < |attrs| && NeedsUnderscore(attrs[i].key)
    ensures attrs[i].key in Scan(attrs, ks)
    decreases i
  {
    var k := attrs[0].key;
    var ks' := if NeedsUnderscore(k) && k !in ks then ks + [k] else ks;
    if NeedsUnderscore(k) && k !in ks {
      MappedAppend(ks, k);
    }
    assert Scan(attrs, ks) == Scan(attrs[1..], ks');
    if i == 0 {
      assert k in ks';
      ScanKeeps(attrs[1..], ks');
    } else {
      assert attrs[1..][i - 1] == attrs[i];
      ScanCoversAt(attrs[1..], ks', i - 1);
    }
  }

  /** A new semantic that needs an underscore can join `mappedSemantics`. */
  lemma MappedAppend(ks: seq<string>, k: string)
    requires MappedOk(ks) && NeedsUnderscore(k) && k !in ks
    ensures MappedOk(ks + [k])
  {
  }

  /** A semantic mapped before the scan stays mapped. */
  lemma ScanKeeps(attrs: seq<Field>, ks: seq<string>)
    requires MappedOk(ks)
    ensures forall s :: s in ks ==> s in Scan(attrs, ks)
  {
    var r := Scan(attrs, ks);
    forall s | s in ks
      ensures s in r
    {
      var j :| 0 <= j < |ks| && ks[j] == s;
      assert r[j] == r[..|ks|][j];
    }
  }

  /** One renaming: `attributes['_' + k] = attributes[k]`, then `k` deleted,
      when `attributes[k]` is defined. */
  function RenameOne(attrs: seq<Field>, k: string): (r: seq<Field>)
    ensures Defined(Lookup(attrs, k)) ==> Lookup(r, k).None? && Lookup(r, "_" + k) == Lookup(attrs, k)
    ensures !Defined(Lookup(attrs, k)) ==> r == attrs
    ensures forall q :: q != k && q != "_" + k ==> Lookup(r, q) == Lookup(attrs, q)
  {
    if Defined(Lookup(attrs, k)) then Put(Delete(attrs, k), "_" + k, Lookup(attrs, k).value) else attrs
  }

  /** The renaming loop over `mappedSemantics`, in insertion order. */
  function Rename(attrs: seq<Field>, ks: seq<string>): seq<Field>
    decreases |ks|
  {
    if ks == [] then attrs else Rename(RenameOne(attrs, ks[0]), ks[1..])
  }

  /** What a renamed attribute object reads: a mapped semantic that was
      defined is gone, its underscored name holds its accessor, and every
      other semantic reads as before. */
  function RenamedLookup(attrs: seq<Field>, ks: seq<string>, q: string): Option<Json> {
    if q in ks && Defined(Lookup(attrs, q)) then None
    else if Underscored(q) && q[1..] in ks && Defined(Lookup(attrs, q[1..])) then Lookup(attrs, q[1..])
    else Lookup(attrs, q)
  }

  lemma UnderscoreSplit(k: string, q: string)
    ensures q == "_" + k <==> Underscored(q) && q[1..] == k
  {
    if Underscored(q) && q[1..] == k {
      assert q == [q[0]] + q[1..];
    }
  }

  lemma {:induction false} LookupRename(attrs: seq<Field>, ks: seq<string>, q: string)
    requires MappedOk(ks)
    ensures Lookup(Rename(attrs, ks), q) == RenamedLookup(attrs, ks, q)
    decreases |ks|
  {
    if ks != [] {
      var k := ks[0];
      var rest := ks[1..];
      var a1 := RenameOne(attrs, k);
      assert MappedOk(rest) by {
        forall i, j | 0 <= i < j < |rest| ensures rest[i] != rest[j] {
          assert rest[i] == ks[i + 1] && rest[j] == ks[j + 1];
        }
        forall i | 0 <= i < |rest| ensures !Underscored(rest[i]) {
          assert rest[i] == ks[i + 1];
        }
      }
      LookupRename(a1, rest, q);
      assert k !in rest by {
        forall i | 0 <= i < |rest| ensures rest[i] != k {
          assert rest[i] == ks[i + 1];
        }
      }
      UnderscoreSplit(k, q);
      if Underscored(q) {
        UnderscoreSplit(q[1..], q);
        assert q !in ks;
        if q[1..] in rest {
          assert q[1..] != k;
          assert Lookup(a1, q[1..]) == Lookup(attrs, q[1..]);
        }
      } else {
        assert q != "_" + k;
        if q in rest {
          assert q != k;
        }
      }
    }
  }

  /** The primitive step: its semantics scanned into `mappedSemantics`, then
      every mapped semantic renamed.  Reading `attributes` of a `null`
      primitive throws; reading `attributes[s]` of an absent or `null`
      attributes object throws once anything is mapped, and a primitive that
      is neither an object nor `null` has no attributes. */
  function UnderscorePrimitive(p: Json, ks: seq<string>): (r: Result<(Json, seq<string>), string>)
    requires MappedOk(ks)
    ensures r.Ok? ==> MappedOk(r.value.1) && |ks| <= |r.value.1| && r.value.1[..|ks|] == ks
    ensures p.JNull? ==> r.Err?
    ensures !p.JObj? && !p.JNull? ==> (r.Ok? <==> ks == []) && (r.Ok? ==> r == Ok((p, ks)))
    ensures p.JObj? && Lookup(p.fields, "attributes").Some? && Lookup(p.fields, "attributes").value.JObj? ==>
              var a := Lookup(p.fields, "attributes").value.fields;
              r.Ok? && r.value.1 == Scan(a, ks) &&
              r.value.0 == JObj(Put(p.fields, "attributes", JObj(Rename(a, Scan(a, ks)))))
    ensures p.JObj? && Lookup(p.fields, "attributes").Some? && !Lookup(p.fields, "attributes").value.JObj? ==>
              (Lookup(p.fields, "attributes").value.JNull? ==> (r.Ok? <==> ks == [])) &&
              (r.Ok? ==> r == Ok((p, ks)))
    ensures p.JObj? && Lookup(p.fields, "attributes").None? ==> (r.Ok? <==> ks == []) && (r.Ok? ==> r == Ok((p, ks)))
  {
    if p.JNull? then Err("attributes")
    else if !p.JObj? then (if ks == [] then Ok((p, ks)) else Err("attributes"))
    else
      match Lookup(p.fields, "attributes")
      case Some(JObj(a)) =>
        var ks' := Scan(a, ks);
        Ok((JObj(Put(p.fields, "attributes", JObj(Rename(a, ks')))), ks'))
      case Some(JNull) => if ks == [] then Ok((p, ks)) else Err("attributes")
      case Some(_) => Ok((p, ks))
      case None => if ks == [] then Ok((p, ks)) else Err("attributes")
  }

  /** After its step a primitive has no defined attribute whose semantic
      still needs an underscore, and every renamed attribute keeps its
      accessor under the underscored name. */
  lemma UnderscoreComplete(a: seq<Field>, ks: seq<string>, q: string)
    requires MappedOk(ks)
    ensures Defined(Lookup(Rename(a, Scan(a, ks)), q)) ==> !NeedsUnderscore(q)
    ensures NeedsUnderscore(q) && Defined(Lookup(a, q)) ==> Lookup(Rename(a, Scan(a, ks)), "_" + q) == Lookup(a, q)
  {
    if NeedsUnderscore(q) {
      var ks' := Scan(a, ks);
      ScanCovers(a, ks);
      MappedGone(a, ks', q);
      if Defined(Lookup(a, q)) {
        LookupFound(a, q);
        var i :| 0 <= i < |a| && a[i].key == q;
        assert q in ks';
        MappedMoved(a, ks', q);
      }
    }
  }

  /** A defined mapped semantic reads as undefined after renaming; an
      unmapped one that needs no underscore reads as before. */
  lemma MappedGone(a: seq<Field>, ks: seq<string>, q: string)
    requires MappedOk(ks) && !Underscored(q)
    ensures Lookup(Rename(a, ks), q) == if q in ks && Defined(Lookup(a, q)) then None else Lookup(a, q)
  {
    LookupRename(a, ks, q);
  }

  /** A defined mapped semantic's accessor is found under its underscored
      name after renaming. */
  lemma MappedMoved(a: seq<Field>, ks: seq<string>, q: string)
    requires MappedOk(ks) && q in ks && Defined(Lookup(a, q))
    ensures Lookup(Rename(a, ks), "_" + q) == Lookup(a, q)
  {
    var u := "_" + q;
    LookupRename(a, ks, u);
    UnderscoreSplit(q, u);
    forall i | 0 <= i < |ks|
      ensures ks[i] != u
    {
      assert !Underscored(ks[i]);
    }
  }

  /** The key `mappedSemantics[parameter.semantic]` reads: `String` of the
      value, `'undefined'` when it is absent.  Arrays and objects are not
      looked up. */
  function SemanticKey(o: Option<Json>): Option<string> {
    match o
    case None => Some("undefined")
    case Some(JNull) => Some("null")
    case Some(JBool(b)) => Some(if b then "true" else "false")
    case Some(JStr(s)) => Some(s)
    case Some(JNum(n)) => Some(if n < 0 then "-" + Decimal(-n) else Decimal(n))
    case _ => None
  }

  /** The technique parameter handler: a mapped semantic is replaced by its
      underscored form. */
  function UnderscoreParameter(p: Json, ks: seq<string>): (r: Json)
    ensures !p.JObj? ==> r == p
    ensures p.JObj? ==> r.JObj? && forall k :: k != "semantic" ==> Lookup(r.fields, k) == Lookup(p.fields, k)
    ensures p.JObj? ==>
              (Lookup(r.fields, "semantic") ==
                 var key := SemanticKey(Lookup(p.fields, "semantic"));
                 if key.Some? && key.value in ks then Some(JStr("_" + key.value)) else Lookup(p.fields, "semantic"))
  {
    if !p.JObj? then p
    else
      var key := SemanticKey(Lookup(p.fields, "semantic"));
      if key.Some? && key.value in ks then JObj(Put(p.fields, "semantic", JStr("_" + key.value))) else p
  }

  /** All primitives of one mesh, in order, threading `mappedSemantics`. */
  function UnderscorePrimitives(ps: seq<Json>, ks: seq<string>): (r: Result<(seq<Json>, seq<string>), string>)
    requires MappedOk(ks)
    ensures r.Ok? ==> |r.value.0| == |ps| && MappedOk(r.value.1) && |ks| <= |r.value.1| && r.value.1[..|ks|] == ks
    decreases |ps|
  {
    if ps == [] then Ok(([], ks))
    else
      var (p', ks1) :- UnderscorePrimitive(ps[0], ks);
      var (rest, ks2) :- UnderscorePrimitives(ps[1..], ks1);
      assert ks2[..|ks|] == ks by {
        assert ks2[..|ks1|] == ks1;
      }
      Ok(([p'] + rest, ks2))
  }

  /** The mesh handler. */
  function UnderscoreMesh(m: Json, ks: seq<string>): (r: Result<(Json, seq<string>), string>)
    requires MappedOk(ks)
    ensures r.Ok? ==> MappedOk(r.value.1) && |ks| <= |r.value.1| && r.value.1[..|ks|] == ks
  {
    if !m.JObj? then Ok((m, ks))
    else
      match Lookup(m.fields, "primitives")
      case Some(JArr(ps)) =>
        var (ps', ks') :- UnderscorePrimitives(ps, ks);
        Ok((JObj(Put(m.fields, "primitives", JArr(ps'))), ks'))
      case _ => Ok((m, ks))
  }

  /** The meshes after the first `n` have been visited, with the semantics
      mapped so far. */
  function MeshesAfter(ms: seq<Json>, n: nat): (r: Result<(seq<Json>, seq<string>), string>)
    requires n <= |ms|
    ensures r.Ok? ==> |r.value.0| == n && MappedOk(r.value.1)
  {
    if n == 0 then Ok(([], []))
    else
      var (done, ks) :- MeshesAfter(ms, n - 1);
      var (m', ks') :- UnderscoreMesh(ms[n - 1], ks);
      Ok((done + [m'], ks'))
  }

  /** Once a mesh has thrown, the pass has thrown. */
  lemma {:induction false} MeshesErrorSticks(ms: seq<Json>, n: nat, m: nat)
    requires n <= m <= |ms| && MeshesAfter(ms, n).Err?
    ensures MeshesAfter(ms, m).Err?
    decreases m - n
  {
    if n < m {
      MeshesErrorSticks(ms, n + 1, m);
    }
  }

  /** `underscoreApplicationSpecificSemantics`: the meshes in order, each
      primitive scanned and renamed with the semantics mapped so far, then
      every technique parameter looked up in the final table. */
  method UnderscoreApplicationSpecificSemantics(gltf: seq<Field>) returns (r: Result<seq<Field>, string>)
    ensures var ms := match Lookup(gltf, "meshes") case Some(JArr(ms)) => ms case _ => [];
            (r.Ok? <==> MeshesAfter(ms, |ms|).Ok?) &&
            (r.Ok? ==>
               var (meshes, ks) := MeshesAfter(ms, |ms|).value;
               && (forall k :: k != "meshes" && k != "techniques" ==> Lookup(r.value, k) == Lookup(gltf, k))
               && (Lookup(gltf, "meshes").Some? && Lookup(gltf, "meshes").value.JArr? ==> Lookup(r.value, "meshes") == Some(JArr(meshes)))
               && (!(Lookup(gltf, "meshes").Some? && Lookup(gltf, "meshes").value.JArr?) ==> Lookup(r.value, "meshes") == Lookup(gltf, "meshes"))
               && (Lookup(gltf, "techniques").Some? ==>
                     Lookup(r.value, "techniques") == Some(EachOf(Lookup(gltf, "techniques").value, t => UnderscoreTechnique(t, ks)))))
  {
    var ms := match Lookup(gltf, "meshes") case Some(JArr(ms)) => ms case _ => [];
    var done := UnderscoreMeshes(ms);
    if done.Err? {
      return Err(done.error);
    }
    var (meshes, ks) := done.value;
    var fs := match Lookup(gltf, "meshes") case Some(JArr(_)) => Put(gltf, "meshes", JArr(meshes)) case _ => gltf;
    return Ok(Within(fs, "techniques", t => UnderscoreTechnique(t, ks)));
  }

  /** The loop over the meshes, collecting `mappedSemantics` as it goes. */
  method UnderscoreMeshes(ms: seq<Json>) returns (r: Result<(seq<Json>, seq<string>), string>)
    ensures r.Ok? <==> MeshesAfter(ms, |ms|).Ok?
    ensures r.Ok? ==> r == MeshesAfter(ms, |ms|)
  {
    var meshes: seq<Json> := [];
    var ks: seq<string> := [];
    var i := 0;
    while i < |ms|
      invariant 0 <= i <= |ms|
      invariant MeshesAfter(ms, i) == Ok((meshes, ks))
    {
      var step := UnderscoreMesh(ms[i], ks);
      if step.Err? {
        assert MeshesAfter(ms, i + 1).Err?;
        MeshesErrorSticks(ms, i + 1, |ms|);
        return Err(step.error);
      }
      meshes := meshes + [step.value.0];
      ks := step.value.1;
      i := i + 1;
    }
    return Ok((meshes, ks));
  }

  function UnderscoreTechnique(t: Json, ks: seq<string>): Json {
    if t.JObj? then JObj(Within(t.fields, "parameters", p => UnderscoreParameter(p, ks))) else t
  }
}
