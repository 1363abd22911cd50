/** The buffer-view passes of the 1.0 to 2.0 rewrite, after the collections
    are arrays: `requireByteLength`, which fills in missing byte lengths, and
    `moveByteStrideToBufferView`, which moves each accessor's `byteStride` to
    a buffer view of its own, compacts the buffer-view array and rewrites
    every reference to a buffer view.  Accessors, buffer views and buffers
    are typed records holding the properties these passes read or write. */
module ByteStride {
  import opened Wrappers

  /** `packed` is what `getAccessorByteStride` yields for the accessor when
      it has no stride of its own: the element size. */
  datatype Accessor = Accessor(bufferView: Option<nat>, byteOffset: nat, count: nat, byteStride: Option<nat>, packed: nat)

  datatype View = View(buffer: Option<nat>, byteOffset: nat, byteLength: Option<nat>, byteStride: Option<nat>, target: Option<nat>)

  /** `sourceLength` is the length of `extras._pipeline.source`, `None` when
      the buffer has none. */
  datatype Buffer = Buffer(byteLength: Option<nat>, sourceLength: Option<nat>)

  /** `computeAccessorByteStride`: a non-zero stride of the accessor's own,
      else the element size. */
  function AccessorStride(a: Accessor): (r: nat)
    ensures a.byteStride.Some? && a.byteStride.value != 0 ==> r == a.byteStride.value
    ensures a.byteStride.None? || a.byteStride.value == 0 ==> r == a.packed
  {
    if a.byteStride.Some? && a.byteStride.value != 0 then a.byteStride.value else a.packed
  }

  /** `accessor.byteOffset + accessor.count * stride`: one past the last byte
      the accessor can touch. */
  function End(a: Accessor): nat {
    a.byteOffset + a.count * AccessorStride(a)
  }

  // ---------------------------------------------------------------------------
  // requireByteLength

  /** A buffer without `byteLength` takes the length of its source; reading
      the source of a buffer that has none throws. */
  method RequireBufferLengths(bs: seq<Buffer>) returns (r: Result<seq<Buffer>, string>)
    ensures r.Ok? <==> forall i :: 0 <= i < |bs| ==> bs[i].byteLength.Some? || bs[i].sourceLength.Some?
    ensures r.Ok? ==> |r.value| == |bs|
    ensures r.Ok? ==> forall i :: 0 <= i < |bs| && bs[i].byteLength.Some? ==> r.value[i] == bs[i]
    ensures r.Ok? ==> forall i :: 0 <= i < |bs| && bs[i].byteLength.None? ==>
                        r.value[i] == bs[i].(byteLength := bs[i].sourceLength)
  {
    var out: seq<Buffer> := [];
    var i := 0;
    while i < |bs|
      invariant 0 <= i <= |bs| && |out| == i
      invariant forall j :: 0 <= j < i ==> bs[j].byteLength.Some? || bs[j].sourceLength.Some?
      invariant forall j :: 0 <= j < i && bs[j].byteLength.Some? ==> out[j] == bs[j]
      invariant forall j :: 0 <= j < i && bs[j].byteLength.None? ==> out[j] == bs[j].(byteLength := bs[j].sourceLength)
    {
      var b := bs[i];
      if b.byteLength.None? {
        if b.sourceLength.None? {
          return Err("source");
        }
        b := b.(byteLength := b.sourceLength);
      }
      out := out + [b];
      i := i + 1;
    }
    return Ok(out);
  }

  /** Every accessor names a buffer view that exists. */
  predicate ValidRefs(accs: seq<Accessor>, n: nat) {
    forall k :: 0 <= k < |accs| ==> accs[k].bufferView.Some? && accs[k].bufferView.value < n
  }

  /** `len` covers view `v` as the first `i` accessors and the view's own
      length `prior` (0 when absent) demand, and is the least length that does:
      it is one of those values. */
  predicate CoversUpTo(len: Option<nat>, prior: Option<nat>, accs: seq<Accessor>, v: nat, i: nat)
    requires i <= |accs|
  {
    && len.Some?
    && prior.GetOr(0) <= len.value
    && (forall k :: 0 <= k < i && accs[k].bufferView == Some(v) ==> End(accs[k]) <= len.value)
    && (len.value == prior.GetOr(0) || exists k :: 0 <= k < i && accs[k].bufferView == Some(v) && End(accs[k]) == len.value)
  }

  predicate ReferencedBefore(accs: seq<Accessor>, v: nat, i: nat)
    requires i <= |accs|
  {
    exists k :: 0 <= k < i && accs[k].bufferView == Some(v)
  }

  /** The accessor half of `requireByteLength`: each view's `byteLength`
      becomes the maximum of its old value (0 when absent) and the end of
      every accessor naming it, so it never decreases and covers every such
      accessor; views no accessor names are untouched, and nothing but
      `byteLength` changes.  An accessor naming a missing view throws. */
  method RequireViewLengths(accs: seq<Accessor>, views: seq<View>) returns (r: Result<seq<View>, string>)
    ensures r.Ok? <==> ValidRefs(accs, |views|)
    ensures r.Ok? ==> |r.value| == |views|
    ensures r.Ok? ==> forall v :: 0 <= v < |views| ==> r.value[v] == views[v].(byteLength := r.value[v].byteLength)
    ensures r.Ok? ==> forall v :: 0 <= v < |views| && !ReferencedBefore(accs, v, |accs|) ==> r.value[v] == views[v]
    ensures r.Ok? ==> forall v :: 0 <= v < |views| && ReferencedBefore(accs, v, |accs|) ==>
                        CoversUpTo(r.value[v].byteLength, views[v].byteLength, accs, v, |accs|)
  {
    var vs := views;
    var i := 0;
    while i < |accs|
      invariant 0 <= i <= |accs| && |vs| == |views|
      invariant forall k :: 0 <= k < i ==> accs[k].bufferView.Some? && accs[k].bufferView.value < |views|
      invariant forall v :: 0 <= v < |views| ==> vs[v] == views[v].(byteLength := vs[v].byteLength)
      invariant forall v :: 0 <= v < |views| && !ReferencedBefore(accs, v, i) ==> vs[v] == views[v]
      invariant forall v :: 0 <= v < |views| && ReferencedBefore(accs, v, i) ==>
                  CoversUpTo(vs[v].byteLength, views[v].byteLength, accs, v, i)
    {
      var a := accs[i];
      if a.bufferView.None? || a.bufferView.value >= |vs| {
        return Err("bufferView");
      }
      var v := a.bufferView.value;
      var len := vs[v].byteLength.GetOr(0);
      if len < End(a) {
        len := End(a);
      }
      vs := vs[v := vs[v].(byteLength := Some(len))];
      i := i + 1;
    }
    return Ok(vs);
  }

  // ---------------------------------------------------------------------------
  // moveByteStrideToBufferView: grouping and sorting

  /** Accessor `acc` as the split loop sees it: its offset, stride and byte
      length `count * stride`. */
  datatype Entry = Entry(acc: nat, offset: nat, stride: nat, length: nat)

  function EntryOf(accs: seq<Accessor>, k: nat): Entry
    requires k < |accs|
  {
    Entry(k, accs[k].byteOffset, AccessorStride(accs[k]), accs[k].count * AccessorStride(accs[k]))
  }

  /** `bufferViewMap[v]`: the accessors among the first `n` that name view
      `v`, in accessor order. */
  function Group(accs: seq<Accessor>, v: nat, n: nat): (r: seq<nat>)
    requires n <= |accs|
    ensures forall j :: 0 <= j < |r| ==> r[j] < n && accs[r[j]].bufferView == Some(v)
    ensures forall j, l :: 0 <= j < l < |r| ==> r[j] < r[l]
    ensures forall k :: 0 <= k < n && accs[k].bufferView == Some(v) ==> k in r
  {
    if n == 0 then []
    else Group(accs, v, n - 1) + (if accs[n - 1].bufferView == Some(v) then [n - 1] else [])
  }

  function Entries(accs: seq<Accessor>, ids: seq<nat>): (r: seq<Entry>)
    requires forall j :: 0 <= j < |ids| ==> ids[j] < |accs|
    ensures |r| == |ids|
    ensures forall j :: 0 <= j < |ids| ==> r[j] == EntryOf(accs, ids[j])
  {
    if ids == [] then [] else [EntryOf(accs, ids[0])] + Entries(accs, ids[1..])
  }

  predicate Sorted(es: seq<Entry>) {
    forall j, l :: 0 <= j < l < |es| ==> es[j].offset <= es[l].offset
  }

  /** Insertion after every entry with an offset no greater, so that equal
      offsets keep their order.  `Array.prototype.sort` is assumed to do
      the same; engines before V8 7.0 did not promise it above ten
      elements. */
  function Insert(e: Entry, s: seq<Entry>): (r: seq<Entry>)
    ensures multiset(r) == multiset(s) + multiset{e}
    ensures |r| == |s| + 1
  {
    if s == [] || e.offset < s[0].offset then [e] + s
    else
      assert s == [s[0]] + s[1..];
      [s[0]] + Insert(e, s[1..])
  }

  lemma {:induction false} InsertSorted(e: Entry, s: seq<Entry>)
    requires Sorted(s)
    ensures Sorted(Insert(e, s))
    ensures |s| > 0 ==> Insert(e, s)[0] == if e.offset < s[0].offset then e else s[0]
  {
    if s != [] && e.offset >= s[0].offset {
      var rest := Insert(e, s[1..]);
      InsertSorted(e, s[1..]);
      assert rest[0].offset >= s[0].offset by {
        if |s| > 1 { assert s[1..][0] == s[1]; }
      }
      assert Insert(e, s) == [s[0]] + rest;
    }
  }

  /** `accessors.sort((a, b) => a.byteOffset - b.byteOffset)`. */
  function SortByOffset(es: seq<Entry>): (r: seq<Entry>)
    ensures multiset(r) == multiset(es)
    ensures |r| == |es|
  {
    if es == [] then []
    else
      assert es == es[..|es| - 1] + [es[|es| - 1]];
      Insert(es[|es| - 1], SortByOffset(es[..|es| - 1]))
  }

  /** The sorted group is in ascending offset order. */
  lemma {:induction false} SortSorted(es: seq<Entry>)
    ensures Sorted(SortByOffset(es))
  {
    if es != [] {
      SortSorted(es[..|es| - 1]);
      InsertSorted(es[|es| - 1], SortByOffset(es[..|es| - 1]));
    }
  }

  // ---------------------------------------------------------------------------
  // moveByteStrideToBufferView: splitting one group

  /** `clone(bufferView)` with the run's stride, its offset moved by `delta`
      and its length set. */
  function Cloned(base: View, stride: nat, delta: nat, length: nat): (r: View)
    ensures r.buffer == base.buffer && r.target == base.target
    ensures r.byteStride == Some(stride) && r.byteLength == Some(length)
    ensures r.byteOffset == base.byteOffset + delta
  {
    base.(byteStride := Some(stride), byteOffset := base.byteOffset + delta, byteLength := Some(length))
  }

  /** An accessor redirected to view `view` at offset `byteOffset`. */
  datatype Move = Move(view: nat, byteOffset: nat)

  /** Move `m` sends entry `e` to one of the views `created` (numbered from
      `firstId`) whose stride is the entry's own, at the same absolute byte
      position as before. */
  predicate Lands(m: Move, e: Entry, base: View, firstId: nat, created: seq<View>) {
    && firstId <= m.view < firstId + |created|
    && created[m.view - firstId].byteStride == Some(e.stride)
    && created[m.view - firstId].byteOffset + m.byteOffset == base.byteOffset + e.offset
  }

  /** A view made by the split: a clone of `base` with a stride and a length. */
  predicate IsClone(w: View, base: View) {
    w.buffer == base.buffer && w.target == base.target && w.byteStride.Some? && w.byteLength.Some?
  }

  function NoMoves(n: nat): (r: seq<Option<Move>>)
    ensures |r| == n && forall j :: 0 <= j < n ==> r[j].None?
  {
    if n == 0 then [] else NoMoves(n - 1) + [None]
  }

  /** The inner loop: entries `c .. i-1` go to view `id`, their offsets made
      relative to `delta`. */
  method MoveRun(moves: seq<Option<Move>>, es: seq<Entry>, c: nat, i: nat, id: nat, delta: nat)
    returns (r: seq<Option<Move>>)
    requires c <= i <= |es| == |moves|
    requires forall j :: c <= j < i ==> delta <= es[j].offset
    ensures |r| == |moves|
    ensures forall j :: c <= j < i ==> r[j] == Some(Move(id, es[j].offset - delta))
    ensures forall j :: 0 <= j < |moves| && !(c <= j < i) ==> r[j] == moves[j]
  {
    r := moves;
    var j := c;
    while j < i
      invariant c <= j <= i && |r| == |moves|
      invariant forall q :: c <= q < j ==> r[q] == Some(Move(id, es[q].offset - delta))
      invariant forall q :: 0 <= q < |moves| && !(c <= q < j) ==> r[q] == moves[q]
    {
      r := r[j := Some(Move(id, es[j].offset - delta))];
      j := j + 1;
    }
  }

  /** The split loop of one view's group, as written.  A run of entries with
      one stride is closed when the stride changes or the last entry is
      reached; each closing makes a clone of `base` whose `byteLength` runs to
      the end of the closing entry, and moves the entries of the run before
      the closing one (`j < i`).  So every entry but the last lands on a view
      of its own stride at its old absolute position, and the last entry is
      never moved.  The current stride is not reset between groups: `stride0`
      is the one the previous group ended with, and a group whose first
      stride differs from it opens with an extra clone that nothing uses. */
  method SplitGroup(es: seq<Entry>, base: View, firstId: nat, stride0: Option<nat>)
    returns (created: seq<View>, moves: seq<Option<Move>>, stride: nat)
    requires |es| > 0 && Sorted(es)
    ensures |moves| == |es|
    ensures moves[|es| - 1].None?
    ensures forall k :: 0 <= k < |es| - 1 ==> moves[k].Some? && Lands(moves[k].value, es[k], base, firstId, created)
    ensures forall q :: 0 <= q < |created| ==> IsClone(created[q], base)
    ensures stride == es[|es| - 1].stride
  {
    created := [];
    moves := NoMoves(|es|);
    var cur := stride0;
    var curOffset: nat := 0;
    var c := 0;
    var i := 0;
    while i < |es|
      invariant 0 <= c <= i <= |es| && c < |es| && |moves| == |es|
      invariant i == 0 ==> cur == stride0 && c == 0 && curOffset == 0
      invariant i > 0 ==> cur == Some(es[c].stride)
      invariant i == |es| ==> c == |es| - 1
      invariant forall j :: c <= j < i ==> es[j].stride == es[c].stride
      invariant curOffset <= es[c].offset
      invariant forall j :: c <= j < |es| ==> moves[j].None?
      invariant forall j :: 0 <= j < c ==> moves[j].Some? && Lands(moves[j].value, es[j], base, firstId, created)
      invariant forall q :: 0 <= q < |created| ==> IsClone(created[q], base)
    {
      var e := es[i];
      var s := cur.GetOr(e.stride);
      if e.stride != s || i == |es| - 1 {
        assert es[c].offset <= e.offset;
        var id := firstId + |created|;
        created := created + [Cloned(base, s, curOffset, e.offset + e.length - curOffset)];
        moves := MoveRun(moves, es, c, i, id, curOffset);
        cur := Some(e.stride);
        curOffset := e.offset;
        c := i;
      } else {
        cur := Some(s);
      }
      i := i + 1;
    }
    stride := cur.value;
  }

  /** The view a move sends its entry to is long enough to hold it. */
  predicate Fits(m: Move, e: Entry, firstId: nat, created: seq<View>) {
    && firstId <= m.view < firstId + |created|
    && created[m.view - firstId].byteLength.Some?
    && m.byteOffset + e.length <= created[m.view - firstId].byteLength.value
  }

  /** What the intended split keeps true of the entries before `c`: each has
      moved to a fitting view of its stride, and each view was made for one
      of them. */
  predicate SplitSoFar(es: seq<Entry>, base: View, firstId: nat, created: seq<View>, moves: seq<Option<Move>>, c: nat)
    requires c <= |es| == |moves|
  {
    && (forall j :: 0 <= j < c ==>
          moves[j].Some? && Lands(moves[j].value, es[j], base, firstId, created) && Fits(moves[j].value, es[j], firstId, created))
    && (forall j :: c <= j < |es| ==> moves[j].None?)
    && (forall q :: 0 <= q < |created| ==> IsClone(created[q], base))
    && (forall id :: firstId <= id < firstId + |created| ==> Used(moves, c, id))
  }

  /** Some entry before `c` has moved to view `id`. */
  predicate Used(moves: seq<Option<Move>>, c: nat, id: nat)
    requires c <= |moves|
  {
    exists j :: 0 <= j < c && moves[j].Some? && moves[j].value.view == id
  }

  /** Closing the run `c .. i-1`: one clone with the run's stride, starting
      at the run's first entry and running to `runEnd`, and every entry of
      the run moved onto it. */
  method CloseRun(es: seq<Entry>, base: View, firstId: nat, created: seq<View>, moves: seq<Option<Move>>,
                  c: nat, i: nat, runEnd: nat)
    returns (created': seq<View>, moves': seq<Option<Move>>)
    requires c < i <= |es| == |moves| && Sorted(es)
    requires forall j :: c <= j < i ==> es[j].stride == es[c].stride && es[j].offset + es[j].length <= runEnd
    requires SplitSoFar(es, base, firstId, created, moves, c)
    ensures |moves'| == |moves|
    ensures SplitSoFar(es, base, firstId, created', moves', i)
  {
    var start := es[c].offset;
    assert start <= runEnd;
    var id := firstId + |created|;
    created' := created + [Cloned(base, es[c].stride, start, runEnd - start)];
    moves' := MoveRun(moves, es, c, i, id, start);
    forall w | firstId <= w < firstId + |created'|
      ensures Used(moves', i, w)
    {
      if w < id {
        assert Used(moves, c, w);
        var j :| 0 <= j < c && moves[j].Some? && moves[j].value.view == w;
        assert moves'[j] == moves[j];
      } else {
        assert moves'[c].value.view == w;
      }
    }
  }

  /** The split as evidently intended: the stride starts afresh in every
      group, a run is closed only when the stride changes and once more after
      the last entry, and each clone runs to the furthest end of its run's
      entries.  Every entry then lands on a view of its own stride, at its
      old absolute position, inside the view's length, and every clone is
      used. */
  method SplitGroupIntended(es: seq<Entry>, base: View, firstId: nat)
    returns (created: seq<View>, moves: seq<Option<Move>>)
    requires |es| > 0 && Sorted(es)
    ensures |moves| == |es|
    ensures SplitSoFar(es, base, firstId, created, moves, |es|)
  {
    created := [];
    moves := NoMoves(|es|);
    var c := 0;
    var runEnd: nat := es[0].offset + es[0].length;
    var i := 1;
    while i < |es|
      invariant 0 <= c < i <= |es| && |moves| == |es|
      invariant forall j :: c <= j < i ==> es[j].stride == es[c].stride && es[j].offset + es[j].length <= runEnd
      invariant SplitSoFar(es, base, firstId, created, moves, c)
    {
      var e := es[i];
      if e.stride != es[c].stride {
        created, moves := CloseRun(es, base, firstId, created, moves, c, i, runEnd);
        c := i;
        runEnd := e.offset + e.length;
      } else if runEnd < e.offset + e.length {
        runEnd := e.offset + e.length;
      }
      i := i + 1;
    }
    created, moves := CloseRun(es, base, firstId, created, moves, c, |es|, runEnd);
  }

  // ---------------------------------------------------------------------------
  // moveByteStrideToBufferView: all groups

  /** The sorted group of view `v`. */
  function SortedGroup(accs: seq<Accessor>, v: nat): seq<Entry> {
    SortByOffset(Entries(accs, Group(accs, v, |accs|)))
  }

  lemma {:induction false} MultisetTwice<T>(s: seq<T>, j: nat, l: nat)
    requires j < l < |s| && s[j] == s[l]
    ensures multiset(s)[s[j]] >= 2
  {
    assert s == s[..l] + s[l..];
    assert s[j] in s[..l];
    assert s[l..][0] == s[l];
  }

  lemma {:induction false} MultisetOnce(s: seq<Entry>, x: Entry)
    requires forall j, l :: 0 <= j < l < |s| ==> s[j].acc < s[l].acc
    ensures multiset(s)[x] <= 1
  {
    if s != [] {
      assert s == [s[0]] + s[1..];
      MultisetOnce(s[1..], x);
      if x == s[0] {
        assert x !in s[1..];
      }
    }
  }

  /** `es` holds one entry for each accessor naming `v`, and no other. */
  ghost predicate GroupOf(accs: seq<Accessor>, v: nat, es: seq<Entry>) {
    && (forall j :: 0 <= j < |es| ==>
          es[j].acc < |accs| && es[j] == EntryOf(accs, es[j].acc) && accs[es[j].acc].bufferView == Some(v))
    && (forall j, l :: 0 <= j < l < |es| ==> es[j].acc != es[l].acc)
    && (forall a :: 0 <= a < |accs| && accs[a].bufferView == Some(v) ==> exists j :: 0 <= j < |es| && es[j].acc == a)
  }

  lemma SortedGroupFacts(accs: seq<Accessor>, v: nat)
    ensures Sorted(SortedGroup(accs, v)) && GroupOf(accs, v, SortedGroup(accs, v))
  {
    var ids := Group(accs, v, |accs|);
    var ent := Entries(accs, ids);
    SortSorted(ent);
    SortedMembers(accs, v, ids, ent, SortedGroup(accs, v));
    EntriesAscending(accs, ids);
    SortedDistinct(ent, SortedGroup(accs, v));
    SortedComplete(accs, v, ids, ent, SortedGroup(accs, v));
  }

  lemma SortedMembers(accs: seq<Accessor>, v: nat, ids: seq<nat>, ent: seq<Entry>, es: seq<Entry>)
    requires forall j :: 0 <= j < |ids| ==> ids[j] < |accs| && accs[ids[j]].bufferView == Some(v)
    requires |ent| == |ids| && forall j :: 0 <= j < |ids| ==> ent[j] == EntryOf(accs, ids[j])
    requires multiset(es) == multiset(ent)
    ensures forall j :: 0 <= j < |es| ==>
              es[j].acc < |accs| && es[j] == EntryOf(accs, es[j].acc) && accs[es[j].acc].bufferView == Some(v)
  {
    forall j | 0 <= j < |es|
      ensures es[j].acc < |accs| && es[j] == EntryOf(accs, es[j].acc) && accs[es[j].acc].bufferView == Some(v)
    {
      assert es[j] in multiset(ent);
      var l :| 0 <= l < |ent| && ent[l] == es[j];
    }
  }

  lemma EntriesAscending(accs: seq<Accessor>, ids: seq<nat>)
    requires forall j :: 0 <= j < |ids| ==> ids[j] < |accs|
    requires forall j, l :: 0 <= j < l < |ids| ==> ids[j] < ids[l]
    ensures forall j, l :: 0 <= j < l < |ids| ==> Entries(accs, ids)[j].acc < Entries(accs, ids)[l].acc
  {
  }

  lemma SortedDistinct(ent: seq<Entry>, es: seq<Entry>)
    requires forall j, l :: 0 <= j < l < |ent| ==> ent[j].acc < ent[l].acc
    requires multiset(es) == multiset(ent)
    requires forall j, l :: 0 <= j < l < |es| && es[j].acc == es[l].acc ==> es[j] == es[l]
    ensures forall j, l :: 0 <= j < l < |es| ==> es[j].acc != es[l].acc
  {
    forall j, l | 0 <= j < l < |es|
      ensures es[j].acc != es[l].acc
    {
      if es[j].acc == es[l].acc {
        MultisetTwice(es, j, l);
        MultisetOnce(ent, es[j]);
      }
    }
  }

  lemma SortedComplete(accs: seq<Accessor>, v: nat, ids: seq<nat>, ent: seq<Entry>, es: seq<Entry>)
    requires forall k :: 0 <= k < |accs| && accs[k].bufferView == Some(v) ==> k in ids
    requires |ent| == |ids| && forall j :: 0 <= j < |ids| ==> ids[j] < |accs| && ent[j] == EntryOf(accs, ids[j])
    requires multiset(es) == multiset(ent)
    ensures forall a :: 0 <= a < |accs| && accs[a].bufferView == Some(v) ==> exists j :: 0 <= j < |es| && es[j].acc == a
  {
    forall a | 0 <= a < |accs| && accs[a].bufferView == Some(v)
      ensures exists j :: 0 <= j < |es| && es[j].acc == a
    {
      var l :| 0 <= l < |ids| && ids[l] == a;
      assert ent[l] in multiset(es);
    }
  }

  /** An accessor as the split leaves it: `byteStride` deleted, and moved
      when the split moved it. */
  function Moved(a: Accessor, m: Option<Move>): (r: Accessor)
    ensures r.byteStride.None? && r.count == a.count && r.packed == a.packed
    ensures m.None? ==> r == a.(byteStride := None)
    ensures m.Some? ==> r.bufferView == Some(m.value.view) && r.byteOffset == m.value.byteOffset
  {
    match m
    case None => a.(byteStride := None)
    case Some(mv) => a.(byteStride := None, bufferView := Some(mv.view), byteOffset := mv.byteOffset)
  }

  /** The writes to the group's accessors. */
  method ApplyMoves(accs: seq<Accessor>, es: seq<Entry>, moves: seq<Option<Move>>) returns (r: seq<Accessor>)
    requires |moves| == |es| && forall j :: 0 <= j < |es| ==> es[j].acc < |accs|
    requires forall j, l :: 0 <= j < l < |es| ==> es[j].acc != es[l].acc
    ensures |r| == |accs|
    ensures forall j :: 0 <= j < |es| ==> r[es[j].acc] == Moved(accs[es[j].acc], moves[j])
    ensures forall a :: 0 <= a < |accs| && (forall j :: 0 <= j < |es| ==> es[j].acc != a) ==> r[a] == accs[a]
  {
    r := accs;
    var j := 0;
    while j < |es|
      invariant 0 <= j <= |es| && |r| == |accs|
      invariant forall q :: 0 <= q < j ==> r[es[q].acc] == Moved(accs[es[q].acc], moves[q])
      invariant forall a :: 0 <= a < |accs| && (forall q :: 0 <= q < j ==> es[q].acc != a) ==> r[a] == accs[a]
    {
      r := r[es[j].acc := Moved(accs[es[j].acc], moves[j])];
      j := j + 1;
    }
  }

  /** Which version of the split, and of the shift map below, to run. */
  datatype Rule = AsWritten | Intended

  /** After the split, `a'` (once `a`) names a view made by the split (an
      index at least `n`) whose stride is `a`'s stride, at the same absolute
      byte position as before; nothing else about it changed but the deleted
      `byteStride`. */
  predicate Relocated(a: Accessor, a': Accessor, vs: seq<View>, n: nat) {
    && a.bufferView.Some? && a.bufferView.value < |vs|
    && a'.bufferView.Some? && n <= a'.bufferView.value < |vs|
    && a' == a.(byteStride := None, bufferView := a'.bufferView, byteOffset := a'.byteOffset)
    && vs[a'.bufferView.value].byteStride == Some(AccessorStride(a))
    && vs[a'.bufferView.value].byteOffset + a'.byteOffset == vs[a.bufferView.value].byteOffset + a.byteOffset
  }

  /** The view `a'` names is long enough for `a`'s elements. */
  predicate CoveredBy(a: Accessor, a': Accessor, vs: seq<View>) {
    && a'.bufferView.Some? && a'.bufferView.value < |vs|
    && vs[a'.bufferView.value].byteLength.Some?
    && a'.byteOffset + a.count * AccessorStride(a) <= vs[a'.bufferView.value].byteLength.value
  }

  /** As written an accessor is relocated or only loses its `byteStride`;
      as intended it is relocated into a view that covers it. */
  predicate Handled(a: Accessor, a': Accessor, vs: seq<View>, n: nat, rule: Rule) {
    match rule
    case AsWritten => Relocated(a, a', vs, n) || a' == a.(byteStride := None)
    case Intended => Relocated(a, a', vs, n) && CoveredBy(a, a', vs)
  }

  /** As written, one accessor of the group of `v` is left on `v` itself,
      having only lost its `byteStride`. */
  predicate Stranded(accs: seq<Accessor>, cur: seq<Accessor>, v: nat)
    requires |cur| == |accs|
  {
    exists a :: 0 <= a < |accs| && accs[a].bufferView == Some(v) && cur[a] == accs[a].(byteStride := None)
  }

  lemma HandledGrows(a: Accessor, a': Accessor, vs: seq<View>, vs': seq<View>, n: nat, rule: Rule)
    requires |vs| <= |vs'| && vs'[..|vs|] == vs
    requires Handled(a, a', vs, n, rule)
    ensures Handled(a, a', vs', n, rule)
  {
    if a'.bufferView.Some? && a'.bufferView.value < |vs| {
      assert vs'[a'.bufferView.value] == vs'[..|vs|][a'.bufferView.value];
    }
    if a.bufferView.Some? && a.bufferView.value < |vs| {
      assert vs'[a.bufferView.value] == vs'[..|vs|][a.bufferView.value];
    }
  }

  /** One move of the split, applied to the accessor it concerns. */
  lemma MoveHandled(a: Accessor, e: Entry, m: Option<Move>, vs: seq<View>, v: nat, created: seq<View>, rule: Rule)
    requires a.bufferView == Some(v) && v < |vs| && e == Entry(e.acc, a.byteOffset, AccessorStride(a), a.count * AccessorStride(a))
    requires rule == Intended ==> m.Some? && Fits(m.value, e, |vs|, created)
    requires m.Some? ==> Lands(m.value, e, vs[v], |vs|, created)
    ensures Handled(a, Moved(a, m), vs + created, |vs|, rule)
  {
    var vs' := vs + created;
    assert vs'[v] == vs[v];
    if m.Some? {
      assert vs'[m.value.view] == created[m.value.view - |vs|];
    }
  }

  /** One view's group: sorted, split and written back.  Every accessor
      naming `v` is handled, the views grow only at the end, and every other
      accessor is left as it was. */
  method ProcessGroup(accs: seq<Accessor>, cur: seq<Accessor>, vs: seq<View>, v: nat, stride0: Option<nat>, rule: Rule)
    returns (cur': seq<Accessor>, vs': seq<View>, stride: Option<nat>)
    requires v < |vs| && |cur| == |accs| && ReferencedBefore(accs, v, |accs|)
    requires forall a :: 0 <= a < |accs| && accs[a].bufferView == Some(v) ==> cur[a] == accs[a]
    ensures |cur'| == |accs| && |vs| <= |vs'| && vs'[..|vs|] == vs
    ensures forall a :: 0 <= a < |accs| && accs[a].bufferView == Some(v) ==>
              Handled(accs[a], cur'[a], vs', |vs|, rule)
    ensures forall a :: 0 <= a < |accs| && accs[a].bufferView != Some(v) ==> cur'[a] == cur[a]
    ensures rule == AsWritten ==> Stranded(accs, cur', v)
  {
    var es := SortedGroup(accs, v);
    SortedGroupFacts(accs, v);
    GroupNonEmpty(accs, v, es);
    var created, moves;
    created, moves, stride := SplitFor(es, vs[v], |vs|, stride0, rule);
    cur' := ApplyMoves(cur, es, moves);
    vs' := vs + created;
    GroupWritten(accs, cur, es, moves, vs, v, created, rule, cur');
  }

  /** A view some accessor names has a non-empty group. */
  lemma GroupNonEmpty(accs: seq<Accessor>, v: nat, es: seq<Entry>)
    requires GroupOf(accs, v, es) && ReferencedBefore(accs, v, |accs|)
    ensures |es| > 0
  {
    var k :| 0 <= k < |accs| && accs[k].bufferView == Some(v);
    var j :| 0 <= j < |es| && es[j].acc == k;
  }

  /** What `ProcessGroup` promises, from the facts about its sorted group,
      its split and the written-back moves. */
  lemma GroupWritten(accs: seq<Accessor>, cur: seq<Accessor>, es: seq<Entry>, moves: seq<Option<Move>>, vs: seq<View>,
                     v: nat, created: seq<View>, rule: Rule, cur': seq<Accessor>)
    requires v < |vs| && |cur| == |accs| && |cur'| == |accs| && |es| > 0
    requires forall a :: 0 <= a < |accs| && accs[a].bufferView == Some(v) ==> cur[a] == accs[a]
    requires GroupOf(accs, v, es)
    requires MovesOk(es, moves, vs[v], |vs|, created, rule)
    requires rule == AsWritten ==> moves[|es| - 1].None?
    requires forall j :: 0 <= j < |es| ==> cur'[es[j].acc] == Moved(cur[es[j].acc], moves[j])
    requires forall a :: 0 <= a < |accs| && (forall j :: 0 <= j < |es| ==> es[j].acc != a) ==> cur'[a] == cur[a]
    ensures (vs + created)[..|vs|] == vs
    ensures forall a :: 0 <= a < |accs| && accs[a].bufferView == Some(v) ==>
              Handled(accs[a], cur'[a], vs + created, |vs|, rule)
    ensures forall a :: 0 <= a < |accs| && accs[a].bufferView != Some(v) ==> cur'[a] == cur[a]
    ensures rule == AsWritten ==> Stranded(accs, cur', v)
  {
    assert (vs + created)[..|vs|] == vs;
    if rule == AsWritten {
      var last := es[|es| - 1].acc;
      assert cur'[last] == Moved(accs[last], moves[|es| - 1]);
    }
    forall j | 0 <= j < |es| ensures cur'[es[j].acc] == Moved(accs[es[j].acc], moves[j]) {
    }
    GroupHandled(accs, es, moves, vs, v, created, rule, cur');
    GroupOthers(accs, cur, es, v, cur');
  }

  /** The moves of a split group: under the intended rule every entry moves
      to a view it fits; every move lands on a created view of the entry's
      stride. */
  ghost predicate MovesOk(es: seq<Entry>, moves: seq<Option<Move>>, base: View, firstId: nat, created: seq<View>, rule: Rule) {
    && |moves| == |es|
    && (forall j :: 0 <= j < |es| && rule == Intended ==> moves[j].Some? && Fits(moves[j].value, es[j], firstId, created))
    && (forall j :: 0 <= j < |es| && moves[j].Some? ==> Lands(moves[j].value, es[j], base, firstId, created))
  }

  /** The split the rule selects; as written the last entry never moves and
      the stride carries over. */
  method SplitFor(es: seq<Entry>, base: View, firstId: nat, stride0: Option<nat>, rule: Rule)
    returns (created: seq<View>, moves: seq<Option<Move>>, stride: Option<nat>)
    requires |es| > 0 && Sorted(es)
    ensures MovesOk(es, moves, base, firstId, created, rule)
    ensures rule == AsWritten ==> moves[|es| - 1].None?
  {
    if rule == AsWritten {
      var s;
      created, moves, s := SplitGroup(es, base, firstId, stride0);
      stride := Some(s);
    } else {
      created, moves := SplitGroupIntended(es, base, firstId);
      stride := stride0;
    }
  }

  /** Every accessor of the group is handled by its move. */
  lemma GroupHandled(accs: seq<Accessor>, es: seq<Entry>, moves: seq<Option<Move>>, vs: seq<View>, v: nat,
                     created: seq<View>, rule: Rule, cur': seq<Accessor>)
    requires v < |vs| && |moves| == |es| && |cur'| == |accs|
    requires forall j :: 0 <= j < |es| ==>
               es[j].acc < |accs| && es[j] == EntryOf(accs, es[j].acc) && accs[es[j].acc].bufferView == Some(v)
    requires forall a :: 0 <= a < |accs| && accs[a].bufferView == Some(v) ==> exists j :: 0 <= j < |es| && es[j].acc == a
    requires MovesOk(es, moves, vs[v], |vs|, created, rule)
    requires forall j :: 0 <= j < |es| ==> cur'[es[j].acc] == Moved(accs[es[j].acc], moves[j])
    ensures forall a :: 0 <= a < |accs| && accs[a].bufferView == Some(v) ==>
              Handled(accs[a], cur'[a], vs + created, |vs|, rule)
  {
    forall a | 0 <= a < |accs| && accs[a].bufferView == Some(v)
      ensures Handled(accs[a], cur'[a], vs + created, |vs|, rule)
    {
      var j :| 0 <= j < |es| && es[j].acc == a;
      MoveHandled(accs[a], es[j], moves[j], vs, v, created, rule);
    }
  }

  /** Accessors outside the group are not in its entries, so keep their
      values. */
  lemma GroupOthers(accs: seq<Accessor>, cur: seq<Accessor>, es: seq<Entry>, v: nat, cur': seq<Accessor>)
    requires |cur| == |accs| && |cur'| == |accs|
    requires forall j :: 0 <= j < |es| ==> es[j].acc < |accs| && accs[es[j].acc].bufferView == Some(v)
    requires forall a :: 0 <= a < |accs| && (forall j :: 0 <= j < |es| ==> es[j].acc != a) ==> cur'[a] == cur[a]
    ensures forall a :: 0 <= a < |accs| && accs[a].bufferView != Some(v) ==> cur'[a] == cur[a]
  {
    forall a | 0 <= a < |accs| && accs[a].bufferView != Some(v)
      ensures cur'[a] == cur[a]
    {
      forall j | 0 <= j < |es| ensures es[j].acc != a {
      }
    }
  }

  /** One more than the largest view id an accessor names (0 when none
      does): the keys of `bufferViewMap` that are view ids lie below it. */
  function Bound(accs: seq<Accessor>): (r: nat)
    ensures forall k :: 0 <= k < |accs| && accs[k].bufferView.Some? ==> accs[k].bufferView.value < r
  {
    if accs == [] then 0
    else
      var b := Bound(accs[..|accs| - 1]);
      var last := accs[|accs| - 1];
      if last.bufferView.Some? && b <= last.bufferView.value then last.bufferView.value + 1 else b
  }

  lemma HandledWeaken(a: Accessor, a': Accessor, vs: seq<View>, vs': seq<View>, n: nat, m: nat, rule: Rule)
    requires |vs| <= |vs'| && vs'[..|vs|] == vs && m <= n
    requires Handled(a, a', vs, n, rule)
    ensures Handled(a, a', vs', m, rule)
  {
    HandledGrows(a, a', vs, vs', n, rule);
  }

  /** The split half of `moveByteStrideToBufferView`.  The groups are visited
      in ascending view id; the views gained by earlier groups are already in
      the array when a later id is looked up, and a group whose view is still
      missing, or the group of accessors without a `bufferView`, throws (its
      clone is `undefined`).  Every accessor loses its `byteStride` and is
      handled by `rule`; the existing views are kept and the new ones follow. */
  method SplitAll(accs: seq<Accessor>, views: seq<View>, rule: Rule) returns (r: Result<(seq<Accessor>, seq<View>), string>)
    ensures ValidRefs(accs, |views|) ==> r.Ok?
    ensures r.Ok? ==> forall a :: 0 <= a < |accs| ==> accs[a].bufferView.Some?
    ensures r.Ok? ==> |r.value.0| == |accs| && |views| <= |r.value.1| && r.value.1[..|views|] == views
    ensures r.Ok? ==> forall a :: 0 <= a < |accs| ==> Handled(accs[a], r.value.0[a], r.value.1, |views|, rule)
    ensures r.Ok? && rule == AsWritten ==> forall v :: ReferencedBefore(accs, v, |accs|) ==> Stranded(accs, r.value.0, v)
  {
    var cur := accs;
    var vs := views;
    var stride: Option<nat> := None;
    var bound := Bound(accs);
    var v := 0;
    while v < bound
      invariant 0 <= v <= bound && |cur| == |accs| && |views| <= |vs| && vs[..|views|] == views
      invariant forall a :: 0 <= a < |accs| && accs[a].bufferView.Some? && accs[a].bufferView.value < v ==>
                  Handled(accs[a], cur[a], vs, |views|, rule)
      invariant forall a :: 0 <= a < |accs| && (accs[a].bufferView.None? || accs[a].bufferView.value >= v) ==>
                  cur[a] == accs[a]
      invariant rule == AsWritten ==> forall w: nat :: w < v && ReferencedBefore(accs, w, |accs|) ==> Stranded(accs, cur, w)
    {
      if ReferencedBefore(accs, v, |accs|) {
        if v >= |vs| {
          return Err("bufferView");
        }
        var cur', vs', stride' := ProcessGroup(accs, cur, vs, v, stride, rule);
        forall a | 0 <= a < |accs| && accs[a].bufferView.Some? && accs[a].bufferView.value < v + 1
          ensures Handled(accs[a], cur'[a], vs', |views|, rule)
        {
          if accs[a].bufferView.value < v {
            HandledWeaken(accs[a], cur[a], vs, vs', |views|, |views|, rule);
          } else {
            HandledWeaken(accs[a], cur'[a], vs', vs', |vs|, |views|, rule);
          }
        }
        if rule == AsWritten {
          forall w: nat | w < v && ReferencedBefore(accs, w, |accs|)
            ensures Stranded(accs, cur', w)
          {
            var a :| 0 <= a < |accs| && accs[a].bufferView == Some(w) && cur[a] == accs[a].(byteStride := None);
            assert cur'[a] == cur[a];
          }
        }
        cur, vs, stride := cur', vs', stride';
      }
      v := v + 1;
    }
    if exists a | 0 <= a < |accs| :: accs[a].bufferView.None? {
      return Err("bufferView");
    }
    return Ok((cur, vs));
  }

  // ---------------------------------------------------------------------------
  // moveByteStrideToBufferView: compaction and the shift map

  /** How many of the ids below `i` are removed. */
  function CountRemoved(rm: set<nat>, i: nat): (r: nat)
    ensures r <= i
  {
    if i == 0 then 0 else CountRemoved(rm, i - 1) + (if i - 1 in rm then 1 else 0)
  }

  /** The views whose ids are not removed, in order. */
  function Kept(s: seq<View>, rm: set<nat>): (r: seq<View>)
    ensures |r| == |s| - CountRemoved(rm, |s|)
  {
    if s == [] then []
    else Kept(s[..|s| - 1], rm) + (if |s| - 1 in rm then [] else [s[|s| - 1]])
  }

  /** A surviving view `i` ends up at index `i - CountRemoved(rm, i)`. */
  lemma {:induction false} KeptAt(s: seq<View>, rm: set<nat>, i: nat)
    requires i < |s| && i !in rm
    ensures i - CountRemoved(rm, i) < |Kept(s, rm)|
    ensures Kept(s, rm)[i - CountRemoved(rm, i)] == s[i]
    decreases |s|
  {
    var init := s[..|s| - 1];
    if i < |s| - 1 {
      KeptAt(init, rm, i);
      assert init[i] == s[i];
      assert Kept(s, rm)[..|Kept(init, rm)|] == Kept(init, rm);
      assert Kept(s, rm)[i - CountRemoved(rm, i)] == Kept(s, rm)[..|Kept(init, rm)|][i - CountRemoved(rm, i)];
    }
  }

  lemma KeptStep(s: seq<View>, rm: set<nat>, i: nat)
    requires i < |s|
    ensures Kept(s[..i + 1], rm) == Kept(s[..i], rm) + (if i in rm then [] else [s[i]])
  {
    assert s[..i + 1][..i] == s[..i];
  }

  /** `bufferViewShiftMap` as a table indexed by the old view id (`None`:
      no entry).  As written, only a survivor with a removed view before it
      gets an entry; as intended, every survivor does, at the index it moves
      to. */
  function ShiftTable(rm: set<nat>, n: nat, rule: Rule): (r: seq<Option<nat>>)
    ensures |r| == n
  {
    if n == 0 then [] else ShiftTable(rm, n - 1, rule) + [ShiftEntry(rm, n - 1, rule)]
  }

  function ShiftEntry(rm: set<nat>, i: nat, rule: Rule): Option<nat> {
    if i in rm || (rule == AsWritten && CountRemoved(rm, i) == 0) then None else Some(i - CountRemoved(rm, i))
  }

  /** Entry `i` of the table is the entry made for id `i`. */
  lemma {:induction false} ShiftTableAt(rm: set<nat>, n: nat, rule: Rule, i: nat)
    requires i < n
    ensures ShiftTable(rm, n, rule)[i] == ShiftEntry(rm, i, rule)
  {
    if i < n - 1 {
      ShiftTableAt(rm, n - 1, rule, i);
    }
  }

  lemma CompactStep(rm: set<nat>, i: nat, rule: Rule)
    ensures ShiftTable(rm, i + 1, rule) == ShiftTable(rm, i, rule) + [ShiftEntry(rm, i, rule)]
    ensures CountRemoved(rm, i + 1) == CountRemoved(rm, i) + if i in rm then 1 else 0
  {
  }

  /** What the compaction loop keeps true after visiting the ids below `i`
      of the original views `s`. */
  ghost predicate CompactedUpTo(a: seq<View>, s: seq<View>, rm: set<nat>, rule: Rule, i: nat, removeCount: nat, shift: seq<Option<nat>>) {
    && i <= |s| == |a| && removeCount == CountRemoved(rm, i)
    && a[..i - removeCount] == Kept(s[..i], rm)
    && (forall p :: i - removeCount <= p < |a| ==> a[p] == s[p])
    && shift == ShiftTable(rm, i, rule)
  }

  /** One turn of the compaction loop. */
  method CompactOne(a: array<View>, ghost s: seq<View>, rm: set<nat>, rule: Rule, i: nat, removeCount: nat, shift: seq<Option<nat>>)
    returns (removeCount': nat, shift': seq<Option<nat>>)
    modifies a
    requires i < a.Length && CompactedUpTo(a[..], s, rm, rule, i, removeCount, shift)
    ensures CompactedUpTo(a[..], s, rm, rule, i + 1, removeCount', shift')
  {
    ghost var prefix := a[..i - removeCount];
    KeptStep(s, rm, i);
    CompactStep(rm, i, rule);
    assert a[i] == s[i];
    removeCount' := removeCount;
    if i in rm {
      removeCount' := removeCount + 1;
      shift' := shift + [None];
    } else {
      if removeCount > 0 {
        a[i - removeCount] := a[i];
        shift' := shift + [Some(i - removeCount)];
      } else if rule == Intended {
        shift' := shift + [Some(i)];
      } else {
        shift' := shift + [None];
      }
      assert a[..i + 1 - removeCount] == prefix + [s[i]];
    }
  }

  method Compact(a: array<View>, rm: set<nat>, rule: Rule) returns (newLen: nat, shift: seq<Option<nat>>)
    modifies a
    ensures newLen == a.Length - CountRemoved(rm, a.Length)
    ensures a[..newLen] == Kept(old(a[..]), rm)
    ensures a[newLen..] == old(a[newLen..])
    ensures shift == ShiftTable(rm, a.Length, rule)
  {
    ghost var s := a[..];
    var removeCount: nat := 0;
    shift := [];
    var i := 0;
    while i < a.Length
      invariant 0 <= i <= a.Length && CompactedUpTo(a[..], s, rm, rule, i, removeCount, shift)
    {
      removeCount, shift := CompactOne(a, s, rm, rule, i, removeCount, shift);
      i := i + 1;
    }
    assert s[..a.Length] == s;
    newLen := a.Length - removeCount;
  }

  /** `bufferViewShiftMap[id]` for a defined reference: `undefined` for an id
      without an entry. */
  function RemapRef(o: Option<nat>, shift: seq<Option<nat>>): (r: Option<nat>)
    ensures o.None? ==> r.None?
  {
    if o.Some? && o.value < |shift| then shift[o.value] else None
  }

  /** A reference to a removed view becomes `undefined`, whichever rule. */
  lemma RemovedDropped(rm: set<nat>, n: nat, rule: Rule, o: nat)
    requires o in rm
    ensures RemapRef(Some(o), ShiftTable(rm, n, rule)).None?
  {
    if o < n {
      ShiftTableAt(rm, n, rule, o);
    }
  }

  /** A reference to a surviving view that has an entry is sent to the index
      where compaction put that view; as intended every survivor has one. */
  lemma SurvivorKept(s: seq<View>, rm: set<nat>, rule: Rule, o: nat)
    requires o < |s| && o !in rm && (rule == Intended || CountRemoved(rm, o) > 0)
    ensures var r := RemapRef(Some(o), ShiftTable(rm, |s|, rule));
            r.Some? && r.value < |Kept(s, rm)| && Kept(s, rm)[r.value] == s[o]
  {
    ShiftTableAt(rm, |s|, rule, o);
    KeptAt(s, rm, o);
  }

  lemma {:induction false} NoneRemovedBelow(rm: set<nat>, o: nat)
    requires forall p: nat :: p < o ==> p !in rm
    ensures CountRemoved(rm, o) == 0
  {
    if o > 0 {
      NoneRemovedBelow(rm, o - 1);
    }
  }

  /** As written, a reference to a surviving view with no removed view
      before it becomes `undefined`, though the view itself stays where it
      was. */
  lemma EarlyDropped(s: seq<View>, rm: set<nat>, o: nat)
    requires o < |s| && forall p: nat :: p <= o ==> p !in rm
    ensures RemapRef(Some(o), ShiftTable(rm, |s|, AsWritten)).None?
    ensures o < |Kept(s, rm)| && Kept(s, rm)[o] == s[o]
  {
    NoneRemovedBelow(rm, o);
    ShiftTableAt(rm, |s|, AsWritten, o);
    KeptAt(s, rm, o);
  }

  /** An image on view 0 and an accessor on view 1: view 1 is removed, view
      0 stays at index 0, yet as written the image's reference is lost. */
  lemma ShiftCounterexample()
    ensures ShiftTable({1}, 2, AsWritten) == [None, None]
    ensures ShiftTable({1}, 2, Intended) == [Some(0), None]
  {
    assert CountRemoved({1}, 0) == 0;
    assert CountRemoved({1}, 1) == 0;
  }

  // ---------------------------------------------------------------------------
  // moveByteStrideToBufferView: the whole pass

  /** The view ids `bufferViewMap` holds: the views some accessor names. */
  function Grouped(accs: seq<Accessor>): (r: set<nat>)
    ensures forall v: nat :: v in r <==> ReferencedBefore(accs, v, |accs|)
  {
    set k | 0 <= k < |accs| && accs[k].bufferView.Some? :: accs[k].bufferView.value
  }

  /** `ForEach.accessor` rewriting `bufferView` through the shift map. */
  method RemapAccessors(accs: seq<Accessor>, shift: seq<Option<nat>>) returns (r: seq<Accessor>)
    ensures |r| == |accs|
    ensures forall a :: 0 <= a < |accs| ==> r[a] == accs[a].(bufferView := RemapRef(accs[a].bufferView, shift))
  {
    r := [];
    var a := 0;
    while a < |accs|
      invariant 0 <= a <= |accs| && |r| == a
      invariant forall b :: 0 <= b < a ==> r[b] == accs[b].(bufferView := RemapRef(accs[b].bufferView, shift))
    {
      r := r + [accs[a].(bufferView := RemapRef(accs[a].bufferView, shift))];
      a := a + 1;
    }
  }

  /** The shader, image and compressed-image `bufferView` references,
      rewritten the same way. */
  method RemapRefs(refs: seq<Option<nat>>, shift: seq<Option<nat>>) returns (r: seq<Option<nat>>)
    ensures |r| == |refs|
    ensures forall q :: 0 <= q < |refs| ==> r[q] == RemapRef(refs[q], shift)
  {
    r := [];
    var q := 0;
    while q < |refs|
      invariant 0 <= q <= |refs| && |r| == q
      invariant forall p :: 0 <= p < q ==> r[p] == RemapRef(refs[p], shift)
    {
      r := r + [RemapRef(refs[q], shift)];
      q := q + 1;
    }
  }

  /** After the whole pass, `a'` (once `a`, on original view
      `a.bufferView`) names a view of the final array whose stride is `a`'s,
      at the same absolute byte position, long enough for `a`'s elements;
      only `bufferView`, `byteOffset` and the deleted `byteStride` changed. */
  predicate Placed(a: Accessor, a': Accessor, views: seq<View>, views': seq<View>) {
    && a.bufferView.Some? && a.bufferView.value < |views|
    && a'.bufferView.Some? && a'.bufferView.value < |views'|
    && a' == a.(byteStride := None, bufferView := a'.bufferView, byteOffset := a'.byteOffset)
    && var w := views'[a'.bufferView.value];
       && w.byteStride == Some(AccessorStride(a))
       && w.byteOffset + a'.byteOffset == views[a.bufferView.value].byteOffset + a.byteOffset
       && w.byteLength.Some? && a'.byteOffset + a.count * AccessorStride(a) <= w.byteLength.value
  }

  /** As written, some accessor of the group of `v` ends with no
      `bufferView` at all. */
  predicate LostOne(accs: seq<Accessor>, accs': seq<Accessor>, v: nat)
    requires |accs'| == |accs|
  {
    exists a :: 0 <= a < |accs| && accs[a].bufferView == Some(v) && accs'[a].bufferView.None?
  }

  /** A relocated, covered accessor stays placed through the compaction:
      its new view is not removed when every removed id is an original
      view. */
  lemma PlacedAfter(a: Accessor, a1: Accessor, views: seq<View>, vs: seq<View>, rm: set<nat>)
    requires |views| <= |vs| && vs[..|views|] == views
    requires forall v :: v in rm ==> v < |views|
    requires Relocated(a, a1, vs, |views|) && CoveredBy(a, a1, vs) && a.bufferView.value < |views|
    ensures Placed(a, a1.(bufferView := RemapRef(a1.bufferView, ShiftTable(rm, |vs|, Intended))), views, Kept(vs, rm))
  {
    var w := a1.bufferView.value;
    SurvivorKept(vs, rm, Intended, w);
    assert vs[a.bufferView.value] == vs[..|views|][a.bufferView.value];
  }

  /** A reference to an original view no accessor names keeps its view. */
  lemma RefKept(views: seq<View>, vs: seq<View>, rm: set<nat>, o: nat)
    requires |views| <= |vs| && vs[..|views|] == views && o < |views| && o !in rm
    ensures var r := RemapRef(Some(o), ShiftTable(rm, |vs|, Intended));
            r.Some? && r.value < |Kept(vs, rm)| && Kept(vs, rm)[r.value] == views[o]
  {
    SurvivorKept(vs, rm, Intended, o);
    assert vs[o] == vs[..|views|][o];
  }

  /** `moveByteStrideToBufferView`: the split, the compaction of the
      buffer-view array and the rewriting of every reference to a view
      (`refs` are those of the shaders, images and compressed images). */
  method MoveByteStrideToBufferView(accs: seq<Accessor>, views: seq<View>, refs: seq<Option<nat>>, rule: Rule)
    returns (r: Result<(seq<Accessor>, seq<View>, seq<Option<nat>>), string>)
    ensures ValidRefs(accs, |views|) ==> r.Ok?
    ensures r.Ok? ==> |r.value.0| == |accs| && |r.value.2| == |refs|
    ensures r.Ok? ==> forall a :: 0 <= a < |accs| ==> r.value.0[a].byteStride.None?
    ensures r.Ok? && rule == AsWritten ==> forall v :: ReferencedBefore(accs, v, |accs|) ==> LostOne(accs, r.value.0, v)
    ensures r.Ok? && rule == Intended && ValidRefs(accs, |views|) ==>
              forall a :: 0 <= a < |accs| ==> Placed(accs[a], r.value.0[a], views, r.value.1)
    ensures r.Ok? ==> forall q :: 0 <= q < |refs| && refs[q].Some? && ReferencedBefore(accs, refs[q].value, |accs|) ==>
                        r.value.2[q].None?
    ensures r.Ok? && rule == Intended ==>
              forall q :: 0 <= q < |refs| && refs[q].Some? && refs[q].value < |views| && !ReferencedBefore(accs, refs[q].value, |accs|) ==>
                r.value.2[q].Some? && r.value.2[q].value < |r.value.1| && r.value.1[r.value.2[q].value] == views[refs[q].value]
    ensures r.Ok? && rule == AsWritten ==>
              forall q :: 0 <= q < |refs| && refs[q].Some? && refs[q].value < |views| &&
                          (forall p: nat :: p <= refs[q].value ==> !ReferencedBefore(accs, p, |accs|)) ==>
                r.value.2[q].None?
  {
    var split := SplitAll(accs, views, rule);
    if split.Err? {
      return Err(split.error);
    }
    var cur := split.value.0;
    var vs := split.value.1;
    var rm := Grouped(accs);
    var arr := new View[|vs|];
    forall i | 0 <= i < |vs| {
      arr[i] := vs[i];
    }
    assert arr[..] == vs;
    var newLen, shift := Compact(arr, rm, rule);
    var views' := arr[..newLen];
    var accs' := RemapAccessors(cur, shift);
    var refs' := RemapRefs(refs, shift);
    assert views' == Kept(vs, rm);
    assert shift == ShiftTable(rm, |vs|, rule);
    if rule == AsWritten {
      forall v: nat | ReferencedBefore(accs, v, |accs|)
        ensures LostOne(accs, accs', v)
      {
        var a :| 0 <= a < |accs| && accs[a].bufferView == Some(v) && cur[a] == accs[a].(byteStride := None);
        RemovedDropped(rm, |vs|, rule, v);
        assert accs'[a].bufferView.None?;
      }
      forall q | 0 <= q < |refs| && refs[q].Some? && refs[q].value < |views| &&
                 (forall p: nat :: p <= refs[q].value ==> !ReferencedBefore(accs, p, |accs|))
        ensures refs'[q].None?
      {
        EarlyDropped(vs, rm, refs[q].value);
      }
    } else {
      if ValidRefs(accs, |views|) {
        forall a | 0 <= a < |accs|
          ensures Placed(accs[a], accs'[a], views, views')
        {
          PlacedAfter(accs[a], cur[a], views, vs, rm);
        }
      }
      forall q | 0 <= q < |refs| && refs[q].Some? && refs[q].value < |views| && !ReferencedBefore(accs, refs[q].value, |accs|)
        ensures refs'[q].Some? && refs'[q].value < |views'| && views'[refs'[q].value] == views[refs[q].value]
      {
        RefKept(views, vs, rm, refs[q].value);
      }
    }
    forall q | 0 <= q < |refs| && refs[q].Some? && ReferencedBefore(accs, refs[q].value, |accs|)
      ensures refs'[q].None?
    {
      RemovedDropped(rm, |vs|, rule, refs[q].value);
    }
    return Ok((accs', views', refs'));
  }
}
