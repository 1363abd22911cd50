/** Revision selection and the upgrade loop of `updateVersion`: which glTF
    revision an asset is taken to be in, and which of the revision-to-revision
    rewrites run, in which order, before the loop stops. */
module Version {
  import opened Wrappers

  /** The revisions the update-function table has an entry for. */
  predicate Known(v: string) {
    v == "0.8" || v == "1.0" || v == "2.0"
  }

  /** `version.toString()` throws when neither the root `version` nor
      `asset.version` is defined. */
  datatype VersionError = UndefinedVersion

  /** The rewrites of the update-function table; `'2.0'` has none. */
  datatype Upgrade = From08To10 | From10To20

  /** The revision each rewrite writes into `asset.version`. */
  function VersionAfter(u: Upgrade): string {
    match u
    case From08To10 => "1.0"
    case From10To20 => "2.0"
  }

  function UpdateFunction(v: string): (r: Option<Upgrade>)
    ensures r.Some? <==> Known(v) && v != "2.0"
    ensures r.Some? ==> VersionAfter(r.value) != v
  {
    if v == "0.8" then Some(From08To10)
    else if v == "1.0" then Some(From10To20)
    else None
  }

  /** `substring(0, 3)`. */
  function Truncate(v: string): (r: string)
    ensures |r| == if |v| < 3 then |v| else 3
    ensures r <= v
  {
    if |v| <= 3 then v else v[..3]
  }

  /** An unknown revision is truncated to three characters, and if that is
      still unknown the asset is taken to be 1.0. */
  function Normalize(v: string): (r: string)
    ensures Known(r)
    ensures Known(v) ==> r == v
    ensures !Known(v) && Known(Truncate(v)) ==> r == Truncate(v)
    ensures !Known(v) && !Known(Truncate(v)) ==> r == "1.0"
  {
    if Known(v) then v
    else if Known(Truncate(v)) then Truncate(v)
    else "1.0"
  }

  /** The starting revision.  `root` is the root `version` property and
      `asset` the `asset` object: `None` when it is missing (it is then
      created as `{version: '1.0'}`), `Some(None)` when it has no version. */
  function StartVersion(root: Option<string>, asset: Option<Option<string>>): (r: Result<string, VersionError>)
    ensures r.Ok? ==> Known(r.value)
    ensures r.Err? <==> root.None? && asset == Some(None)
  {
    if root.Some? then Ok(Normalize(root.value))
    else if asset.None? then Ok("1.0")
    else if asset.value.Some? then Ok(Normalize(asset.value.value))
    else Err(UndefinedVersion)
  }

  /** How far along the revision chain a revision is; bounds the loop. */
  function Rank(v: string): nat {
    if v == "0.8" then 2 else if v == "1.0" then 1 else 0
  }

  /** The rewrites the loop applies from revision `v`: it stops when the
      current revision is the target or has no update function. */
  function Plan(v: string, target: Option<string>): seq<Upgrade>
    decreases Rank(v)
  {
    if UpdateFunction(v).None? || target == Some(v) then []
    else [UpdateFunction(v).value] + Plan(VersionAfter(UpdateFunction(v).value), target)
  }

  /** The revision the asset ends in. */
  function EndVersion(v: string, target: Option<string>): string
    decreases Rank(v)
  {
    if UpdateFunction(v).None? || target == Some(v) then v
    else EndVersion(VersionAfter(UpdateFunction(v).value), target)
  }

  /** `asset.version` before the loop: an asset created by the defaulting
      carries `'1.0'`, an existing one keeps what it has. */
  function AssetVersion(asset: Option<Option<string>>): Option<string> {
    if asset.None? then Some("1.0") else asset.value
  }

  /** `updateVersion` on the revision bookkeeping: returns the rewrites it
      runs, in order, and the final `asset.version`.  Only a rewrite writes
      `asset.version`, so when none runs it keeps its value from before the
      loop, which need not be the resolved revision. */
  method UpdateVersion(root: Option<string>, asset: Option<Option<string>>, target: Option<string>)
    returns (r: Result<(seq<Upgrade>, Option<string>), VersionError>)
    ensures StartVersion(root, asset).Err? ==> r == Err(UndefinedVersion)
    ensures StartVersion(root, asset).Ok? ==> r.Ok? && r.value.0 == Plan(StartVersion(root, asset).value, target)
    ensures r.Ok? && r.value.0 != [] ==> r.value.1 == Some(EndVersion(StartVersion(root, asset).value, target))
    ensures r.Ok? && r.value.0 == [] ==> r.value.1 == AssetVersion(asset)
  {
    var start := StartVersion(root, asset);
    if start.Err? {
      return Err(UndefinedVersion);
    }
    var version := start.value;
    var assetVersion := AssetVersion(asset);
    var applied: seq<Upgrade> := [];
    var updateFunction := UpdateFunction(version);
    while updateFunction.Some?
      invariant updateFunction == UpdateFunction(version)
      invariant applied + Plan(version, target) == Plan(start.value, target)
      invariant EndVersion(version, target) == EndVersion(start.value, target)
      invariant applied == [] ==> assetVersion == AssetVersion(asset)
      invariant applied != [] ==> assetVersion == Some(version)
      decreases Rank(version)
    {
      if target == Some(version) {
        break;
      }
      applied := applied + [updateFunction.value];
      version := VersionAfter(updateFunction.value);
      assetVersion := Some(version);
      updateFunction := UpdateFunction(version);
    }
    assert Plan(version, target) == [] && EndVersion(version, target) == version;
    assert applied == applied + Plan(version, target);
    return Ok((applied, assetVersion));
  }

  /** With no rewrite to run, `asset.version` is left as it was: a root
      version 2.0 over an asset that says 1.0, or 1.0.3 with the target 1.0,
      both end with the asset's own value. */
  lemma UntouchedAssetVersion()
    ensures Plan(StartVersion(Some("2.0"), Some(Some("1.0"))).value, None) == []
    ensures AssetVersion(Some(Some("1.0"))) == Some("1.0")
    ensures Plan(StartVersion(Some("1.0.3"), Some(Some("1.0.3"))).value, Some("1.0")) == []
  {
    assert Truncate("1.0.3") == "1.0";
  }

  /** The root `version` takes precedence over `asset.version`. */
  lemma RootTakesPrecedence(v: string, asset: Option<Option<string>>, asset': Option<Option<string>>)
    ensures StartVersion(Some(v), asset) == StartVersion(Some(v), asset')
    ensures Known(v) ==> StartVersion(Some(v), asset) == Ok(v)
  {
  }

  /** Revisions numbered beyond the table are read by their first three
      characters: "1.0.3" is 1.0, and "3.1" and "" fall back to 1.0. */
  lemma TruncationExamples()
    ensures StartVersion(Some("1.0.3"), None) == Ok("1.0")
    ensures StartVersion(None, Some(Some("0.8.1"))) == Ok("0.8")
    ensures StartVersion(Some("3.1"), None) == Ok("1.0")
    ensures StartVersion(None, Some(Some(""))) == Ok("1.0")
  {
    assert Truncate("1.0.3") == "1.0";
    assert Truncate("0.8.1") == "0.8";
  }

  /** Without a target every known revision is upgraded to 2.0, each rewrite
      running once and in chain order. */
  lemma {:induction false} NoTargetReaches20(v: string)
    requires Known(v)
    decreases Rank(v)
    ensures EndVersion(v, None) == "2.0"
    ensures v == "0.8" ==> Plan(v, None) == [From08To10, From10To20]
    ensures v == "1.0" ==> Plan(v, None) == [From10To20]
    ensures v == "2.0" ==> Plan(v, None) == []
  {
    if v == "0.8" {
      NoTargetReaches20("1.0");
    } else if v == "1.0" {
      NoTargetReaches20("2.0");
    }
  }

  /** A known target at or after the start revision is where the loop stops;
      any other target (an earlier revision, an unknown string) is never met
      and the loop runs through to 2.0. */
  lemma {:induction false} TargetStops(v: string, t: string)
    requires Known(v)
    decreases Rank(v)
    ensures Known(t) && Rank(t) <= Rank(v) ==> EndVersion(v, Some(t)) == t
    ensures !(Known(t) && Rank(t) <= Rank(v)) ==> EndVersion(v, Some(t)) == "2.0"
  {
    if v != t && v != "2.0" {
      TargetStops(VersionAfter(UpdateFunction(v).value), t);
    }
  }

  /** No rewrite runs twice, and the number run is the distance travelled
      along the chain. */
  lemma {:induction false} PlanLength(v: string, target: Option<string>)
    requires Known(v)
    decreases Rank(v)
    ensures |Plan(v, target)| == Rank(v) - Rank(EndVersion(v, target))
    ensures Known(EndVersion(v, target))
    ensures forall i, j :: 0 <= i < j < |Plan(v, target)| ==> Plan(v, target)[i] != Plan(v, target)[j]
  {
    if UpdateFunction(v).Some? && target != Some(v) {
      PlanLength(VersionAfter(UpdateFunction(v).value), target);
      if v == "0.8" {
        assert Plan(v, target)[0] == From08To10;
        assert forall k :: 0 < k < |Plan(v, target)| ==> Plan(v, target)[k] == From10To20;
      }
    }
  }
}
