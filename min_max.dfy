/** The accessor min/max scan of lib/findAccessorMinMax.js for the integer
    component types.  `mem` is the whole `ArrayBuffer` behind the buffer's
    pipeline source (the source builds its `DataView` over `source.buffer`),
    and `sourceByteOffset` is the source's offset inside it. */
module AccessorMinMax {
  import opened Wrappers
  import opened Bytes
  import opened GlConstants

  /** A running bound: `Number.NEGATIVE_INFINITY`, an integer, or
      `Number.POSITIVE_INFINITY`. */
  datatype Ext = NegInf | Fin(v: int) | PosInf

  predicate Le(a: Ext, b: Ext) {
    a == NegInf || b == PosInf || (a.Fin? && b.Fin? && a.v <= b.v)
  }

  /** `Math.min(a, v)`. */
  function MinE(a: Ext, v: int): (r: Ext)
    ensures Le(r, a) && Le(r, Fin(v)) && (r == a || r == Fin(v))
  {
    match a
    case NegInf => NegInf
    case PosInf => Fin(v)
    case Fin(x) => if x <= v then a else Fin(v)
  }

  /** `Math.max(a, v)`. */
  function MaxE(a: Ext, v: int): (r: Ext)
    ensures Le(a, r) && Le(Fin(v), r) && (r == a || r == Fin(v))
  {
    match a
    case PosInf => PosInf
    case NegInf => Fin(v)
    case Fin(x) => if x >= v then a else Fin(v)
  }

  /** The accessor fields the scan reads, with the byte offsets already
      defaulted. */
  datatype AccessorInfo = AccessorInfo(byteOffset: nat, count: nat, componentType: nat, elemType: AccessorType)
  datatype ViewInfo = ViewInfo(byteOffset: nat, byteStride: Option<nat>)

  /** `getAccessorByteStride`: the view's positive `byteStride`, else the
      packed element size. */
  function AccessorByteStride(acc: AccessorInfo, view: ViewInfo): (r: Option<nat>)
    ensures r.Some? <==> SizeInBytes(acc.componentType).Some?
    ensures r.Some? && (view.byteStride.None? || view.byteStride.value == 0) ==>
      r.value == SizeInBytes(acc.componentType).value * NumberOfComponents(acc.elemType)
  {
    match SizeInBytes(acc.componentType)
    case None => None
    case Some(size) =>
      if view.byteStride.Some? && view.byteStride.value > 0 then view.byteStride
      else Some(size * NumberOfComponents(acc.elemType))
  }

  /** `DataView.getInt8`/`getUint8`/`getInt16`/`getUint16`/`getInt32`/
      `getUint32` at `off`, little-endian; `None` where the read leaves the
      buffer (a RangeError). */
  function ReadComponent(mem: seq<byte>, componentType: nat, off: nat): (r: Option<int>)
    requires IsIntegerType(componentType)
    ensures r.Some? <==> off + SizeInBytes(componentType).value <= |mem|
    ensures r.Some? && componentType == BYTE ==> -128 <= r.value < 128
    ensures r.Some? && componentType == UNSIGNED_BYTE ==> r.value == mem[off]
    ensures r.Some? && componentType == SHORT ==> -32768 <= r.value < 32768
    ensures r.Some? && componentType == UNSIGNED_SHORT ==> 0 <= r.value < 0x1_0000
    ensures r.Some? && componentType == INT ==> -0x8000_0000 <= r.value < 0x8000_0000
    ensures r.Some? && componentType == UNSIGNED_INT ==> 0 <= r.value < TWO_32
  {
    if off + SizeInBytes(componentType).value > |mem| then None
    else if componentType == BYTE then Some(Signed(mem[off], 128))
    else if componentType == UNSIGNED_BYTE then Some(mem[off] as int)
    else if componentType == SHORT then Some(Signed(U16(mem, off), 0x8000))
    else if componentType == UNSIGNED_SHORT then Some(U16(mem, off))
    else if componentType == INT then Some(Signed(U32(mem, off), 0x8000_0000))
    else Some(U32(mem, off))
  }

  /** The outcome of `readComponents`: the result array filled, `undefined`
      for a component type the switch does not list, a RangeError, or a
      floating-point type, which this model does not decode. */
  datatype ReadOutcome = Filled | Undefined | Range | FloatUnmodelled

  /** `readComponents`: component `i` is read at
      `byteOffset + i * componentTypeByteLength`. */
  method ReadComponents(mem: seq<byte>, byteOffset: nat, numberOfComponents: nat, componentType: nat,
                        componentTypeByteLength: nat, result: array<int>) returns (outcome: ReadOutcome)
    requires numberOfComponents <= result.Length
    modifies result
    ensures !IsIntegerType(componentType) && componentType != FLOAT && componentType != DOUBLE ==>
      outcome == Undefined && result[..] == old(result[..])
    ensures componentType == FLOAT || componentType == DOUBLE ==> outcome == FloatUnmodelled
    ensures IsIntegerType(componentType) ==>
      (outcome == Filled || outcome == Range) &&
      (outcome == Filled <==> forall i :: 0 <= i < numberOfComponents ==>
         ReadComponent(mem, componentType, byteOffset + i * componentTypeByteLength).Some?)
    ensures outcome == Filled ==> forall i :: 0 <= i < numberOfComponents ==>
      result[i] == ReadComponent(mem, componentType, byteOffset + i * componentTypeByteLength).value
  {
    if componentType == FLOAT || componentType == DOUBLE {
      return FloatUnmodelled;
    }
    if !IsIntegerType(componentType) {
      return Undefined;
    }
    for i := 0 to numberOfComponents
      invariant forall k :: 0 <= k < i ==>
        ReadComponent(mem, componentType, byteOffset + k * componentTypeByteLength).Some? &&
        result[k] == ReadComponent(mem, componentType, byteOffset + k * componentTypeByteLength).value
    {
      var v := ReadComponent(mem, componentType, byteOffset + i * componentTypeByteLength);
      if v.None? {
        return Range;
      }
      result[i] := v.value;
    }
    return Filled;
  }

  // ---------------------------------------------------------------------------
  // The scan as a specification

  /** The strided layout being scanned: element `i` starts at
      `start + i * stride`, component `j` of it at `+ j * size`. */
  datatype Scan = Scan(mem: seq<byte>, componentType: nat, start: nat, stride: nat)

  predicate ValidScan(s: Scan) {
    IsIntegerType(s.componentType)
  }

  function Size(s: Scan): nat
    requires ValidScan(s)
  {
    SizeInBytes(s.componentType).value
  }

  function Addr(s: Scan, i: nat, j: nat): nat
    requires ValidScan(s)
  {
    s.start + i * s.stride + j * Size(s)
  }

  predicate Readable(s: Scan, i: nat, j: nat)
    requires ValidScan(s)
  {
    ReadComponent(s.mem, s.componentType, Addr(s, i, j)).Some?
  }

  /** Component `j` of element `i`. */
  function Value(s: Scan, i: nat, j: nat): int
    requires ValidScan(s) && Readable(s, i, j)
  {
    ReadComponent(s.mem, s.componentType, Addr(s, i, j)).value
  }

  /** Every component of the first `k` elements can be read. */
  predicate AllReadable(s: Scan, k: nat, n: nat)
    requires ValidScan(s)
  {
    forall i, j :: 0 <= i < k && 0 <= j < n ==> Readable(s, i, j)
  }

  /** The running minimum and maximum of component `j` over the first `k`
      elements, seeded at +infinity and -infinity. */
  function Lo(s: Scan, k: nat, n: nat, j: nat): Ext
    requires ValidScan(s) && j < n && AllReadable(s, k, n)
    decreases k
  {
    if k == 0 then PosInf else MinE(Lo(s, k - 1, n, j), Value(s, k - 1, j))
  }

  function Hi(s: Scan, k: nat, n: nat, j: nat): Ext
    requires ValidScan(s) && j < n && AllReadable(s, k, n)
    decreases k
  {
    if k == 0 then NegInf else MaxE(Hi(s, k - 1, n, j), Value(s, k - 1, j))
  }

  /** Every value read for component `j` lies between the two bounds. */
  lemma {:induction false} BoundsCover(s: Scan, k: nat, n: nat, j: nat)
    requires ValidScan(s) && j < n && AllReadable(s, k, n)
    ensures forall i :: 0 <= i < k ==> Le(Lo(s, k, n, j), Fin(Value(s, i, j))) && Le(Fin(Value(s, i, j)), Hi(s, k, n, j))
    decreases k
  {
    if k > 0 {
      BoundsCover(s, k - 1, n, j);
    }
  }

  /** After at least one element both bounds are values actually read, so
      the minimum does not exceed the maximum. */
  lemma {:induction false} BoundsAttained(s: Scan, k: nat, n: nat, j: nat)
    requires ValidScan(s) && j < n && AllReadable(s, k, n) && k > 0
    ensures exists i :: 0 <= i < k && Lo(s, k, n, j) == Fin(Value(s, i, j))
    ensures exists i :: 0 <= i < k && Hi(s, k, n, j) == Fin(Value(s, i, j))
    ensures Le(Lo(s, k, n, j), Hi(s, k, n, j))
    decreases k
  {
    if k > 1 {
      BoundsAttained(s, k - 1, n, j);
    }
    BoundsCover(s, k, n, j);
    assert Le(Lo(s, k, n, j), Fin(Value(s, 0, j)));
  }

  // ---------------------------------------------------------------------------
  // findAccessorMinMax

  datatype MinMax = MinMax(min: seq<Ext>, max: seq<Ext>)

  datatype MinMaxError =
    | InvalidComponentType  // getSizeInBytes throws
    | FloatNotModelled      // FLOAT and DOUBLE data are not decoded here
    | RangeError            // a DataView read outside the buffer

  function ScanOf(mem: seq<byte>, sourceByteOffset: nat, acc: AccessorInfo, view: ViewInfo): Scan
    requires SizeInBytes(acc.componentType).Some?
  {
    Scan(mem, acc.componentType, acc.byteOffset + view.byteOffset + sourceByteOffset,
         AccessorByteStride(acc, view).value)
  }

  /** The inner loop: element `i`'s components folded into the bounds. */
  method FoldElement(min: array<Ext>, max: array<Ext>, components: array<int>, ghost s: Scan, ghost i: nat, n: nat)
    requires ValidScan(s) && min != max && n == min.Length == max.Length && n <= components.Length
    requires AllReadable(s, i + 1, n)
    requires forall j :: 0 <= j < n ==> components[j] == Value(s, i, j)
    requires forall j :: 0 <= j < n ==> min[j] == Lo(s, i, n, j) && max[j] == Hi(s, i, n, j)
    modifies min, max
    ensures forall j :: 0 <= j < n ==> min[j] == Lo(s, i + 1, n, j) && max[j] == Hi(s, i + 1, n, j)
  {
    for j := 0 to n
      invariant forall k :: 0 <= k < j ==> min[k] == Lo(s, i + 1, n, k) && max[k] == Hi(s, i + 1, n, k)
      invariant forall k :: j <= k < n ==> min[k] == Lo(s, i, n, k) && max[k] == Hi(s, i, n, k)
    {
      var value := components[j];
      min[j] := MinE(min[j], value);
      max[j] := MaxE(max[j], value);
    }
  }

  /** One iteration of the outer loop: `readComponents` at the element's
      offset, then the fold. */
  method ScanElement(min: array<Ext>, max: array<Ext>, components: array<int>, s: Scan, ghost i: nat,
                     byteOffset: nat, n: nat) returns (ok: bool)
    requires ValidScan(s) && byteOffset == s.start + i * s.stride
    requires min != max && n == min.Length == max.Length == components.Length
    requires AllReadable(s, i, n)
    requires forall j :: 0 <= j < n ==> min[j] == Lo(s, i, n, j) && max[j] == Hi(s, i, n, j)
    modifies min, max, components
    ensures ok <==> AllReadable(s, i + 1, n)
    ensures ok ==> forall j :: 0 <= j < n ==> min[j] == Lo(s, i + 1, n, j) && max[j] == Hi(s, i + 1, n, j)
  {
    var outcome := ReadComponents(s.mem, byteOffset, n, s.componentType, Size(s), components);
    assert forall j: nat :: Addr(s, i, j) == byteOffset + j * Size(s);
    if outcome != Filled {
      var j :| 0 <= j < n && ReadComponent(s.mem, s.componentType, byteOffset + j * Size(s)).None?;
      assert !Readable(s, i, j);
      return false;
    }
    assert AllReadable(s, i + 1, n);
    FoldElement(min, max, components, s, i, n);
    return true;
  }

  /** `findAccessorMinMax`: one bound per component, folded over `count`
      strided elements. */
  method FindAccessorMinMax(mem: seq<byte>, sourceByteOffset: nat, acc: AccessorInfo, view: ViewInfo)
    returns (r: Result<MinMax, MinMaxError>)
    ensures SizeInBytes(acc.componentType).None? ==> r == Err(InvalidComponentType)
    ensures acc.componentType == FLOAT || acc.componentType == DOUBLE ==> r == Err(FloatNotModelled)
    ensures IsIntegerType(acc.componentType) ==>
      var s := ScanOf(mem, sourceByteOffset, acc, view);
      var n := NumberOfComponents(acc.elemType);
      && (r.Ok? <==> AllReadable(s, acc.count, n))
      && (r.Err? ==> r.error == RangeError)
      && (acc.count == 0 ==>
            (r.Ok? && |r.value.min| == n && |r.value.max| == n &&
             forall j :: 0 <= j < n ==> r.value.min[j] == PosInf && r.value.max[j] == NegInf))
      && (r.Ok? ==>
            && |r.value.min| == n && |r.value.max| == n
            && forall j :: 0 <= j < n ==>
                 r.value.min[j] == Lo(s, acc.count, n, j) && r.value.max[j] == Hi(s, acc.count, n, j))
  {
    var numberOfComponents := NumberOfComponents(acc.elemType);
    var min := new Ext[numberOfComponents](_ => PosInf);
    var max := new Ext[numberOfComponents](_ => NegInf);
    var byteStride := AccessorByteStride(acc, view);
    var componentTypeByteLength := SizeInBytes(acc.componentType);
    if componentTypeByteLength.None? {
      return Err(InvalidComponentType);
    }
    if acc.componentType == FLOAT || acc.componentType == DOUBLE {
      return Err(FloatNotModelled);
    }
    var s := ScanOf(mem, sourceByteOffset, acc, view);
    var byteOffset := acc.byteOffset + view.byteOffset + sourceByteOffset;
    var components := new int[numberOfComponents];
    for i := 0 to acc.count
      invariant byteOffset == s.start + i * s.stride
      invariant AllReadable(s, i, numberOfComponents)
      invariant forall j :: 0 <= j < numberOfComponents ==>
        min[j] == Lo(s, i, numberOfComponents, j) && max[j] == Hi(s, i, numberOfComponents, j)
    {
      var ok := ScanElement(min, max, components, s, i, byteOffset, numberOfComponents);
      if !ok {
        return Err(RangeError);
      }
      assert byteStride.value == s.stride;
      assert (i + 1) * s.stride == i * s.stride + s.stride;
      byteOffset := byteOffset + byteStride.value;
    }
    return Ok(MinMax(min[..], max[..]));
  }
}
