/** `writeResources`: where each image, shader and buffer of an asset is
    stored — a separate file, a data URI or a new buffer view — and the
    in-place edits that record the choice.  The file write itself, MIME
    lookup and base64 encoding are outside the model: the two encoders are
    parameters and the file write is returned as the path to write. */
module WriteResources {
  import opened Wrappers
  import opened Bytes
  import Json

  /** An image, shader or buffer as the writer sees it: the fields it edits,
      and the name and pipeline extras it reads. */
  class Resource {
    var bufferView: Option<nat>
    var uri: Option<string>
    var mimeType: Option<string>
    var byteLength: Option<nat>
    const name: Option<string>
    /** `extras._pipeline.source` */
    const source: seq<byte>
    /** `extras._pipeline.relativePath` */
    const relativePath: Option<string>

    constructor (name: Option<string>, source: seq<byte>, relativePath: Option<string>)
      ensures this.name == name && this.source == source && this.relativePath == relativePath
      ensures bufferView.None? && uri.None? && mimeType.None? && byteLength.None?
    {
      this.name := name;
      this.source := source;
      this.relativePath := relativePath;
      bufferView := None;
      uri := None;
      mimeType := None;
      byteLength := None;
    }

    /** The buffer `writeBufferView` allocates for a source. */
    constructor Buffer(source: seq<byte>)
      ensures this.source == source && byteLength == Some(|source|)
      ensures name.None? && relativePath.None? && bufferView.None? && uri.None? && mimeType.None?
    {
      name := None;
      this.source := source;
      relativePath := None;
      bufferView := None;
      uri := None;
      mimeType := None;
      byteLength := Some(|source|);
    }
  }

  /** A buffer view record `{buffer, byteOffset, byteLength}`. */
  datatype BufferView = BufferView(buffer: nat, byteOffset: nat, byteLength: nat)

  /** The two arrays resources are appended to. */
  class Asset {
    var bufferViews: seq<BufferView>
    var buffers: seq<Resource>

    constructor (bufferViews: seq<BufferView>, buffers: seq<Resource>)
      ensures this.bufferViews == bufferViews && this.buffers == buffers
    {
      this.bufferViews := bufferViews;
      this.buffers := buffers;
    }
  }

  /** Where `writeResource` puts a resource. */
  datatype Storage = SeparateFile | DataUri | InBufferView

  /** The priority of `writeResource`: a separate file wins over a data URI,
      which wins over a buffer view. */
  function StorageOf(separate: bool, dataUris: bool): (r: Storage)
    ensures r == SeparateFile <==> separate
    ensures r == DataUri <==> !separate && dataUris
    ensures r == InBufferView <==> !separate && !dataUris
  {
    if separate then SeparateFile else if dataUris then DataUri else InBufferView
  }

  /** A buffer is written with `dataUris` forced on, so it never goes into
      a buffer view. */
  lemma BufferNeverInBufferView(separateBuffers: bool)
    ensures StorageOf(separateBuffers, true) != InBufferView
  {
  }

  /** `relativePath.replace(/\\/g, '/')`. */
  function ForwardSlashes(s: string): (r: string)
    ensures |r| == |s|
    ensures forall i :: 0 <= i < |s| ==> r[i] == if s[i] == '\\' then '/' else s[i]
  {
    if s == [] then [] else [if s[0] == '\\' then '/' else s[0]] + ForwardSlashes(s[1..])
  }

  /** The URI of a separate file never contains a backslash, and a path
      without one is used as it is. */
  lemma {:induction false} ForwardSlashesClean(s: string)
    ensures '\\' !in ForwardSlashes(s)
    ensures '\\' !in s ==> ForwardSlashes(s) == s
  {
    if s != [] {
      ForwardSlashesClean(s[1..]);
    }
  }

  /** The path a separate file is written to, relative to the base path:
      the recorded relative path, or the name (else the index) followed by
      the extension. */
  function RelativePath(o: Resource, index: nat, extension: string): string {
    if o.relativePath.Some? then o.relativePath.value
    else (if o.name.Some? then o.name.value else Json.Decimal(index)) + extension
  }

  /** `'data:' + mimeType + ';base64,' + base64`. */
  function DataUriOf(mimeType: string, base64: string): (r: string)
    ensures |r| == 13 + |mimeType| + |base64|
    ensures r[..5] == "data:" && r[5..5 + |mimeType|] == mimeType
    ensures r[5 + |mimeType|..13 + |mimeType|] == ";base64," && r[13 + |mimeType|..] == base64
  {
    "data:" + mimeType + ";base64," + base64
  }

  /** The fields the writer edits, as a value. */
  datatype Edited = Edited(bufferView: Option<nat>, uri: Option<string>, mimeType: Option<string>)

  function EditedOf(o: Resource): Edited
    reads o
  {
    Edited(o.bufferView, o.uri, o.mimeType)
  }

  /** The edited fields `e` of `o` as `writeResource` leaves them for
      storage `s`. */
  predicate StoredAs(o: Resource, e: Edited, s: Storage, index: nat, extension: string,
                     mime: string -> string, base64: seq<byte> -> string)
  {
    match s
    case SeparateFile => e.bufferView.None? && e.uri == Some(ForwardSlashes(RelativePath(o, index, extension)))
    case DataUri => e.bufferView.None? && e.uri == Some(DataUriOf(mime(extension), base64(o.source)))
    case InBufferView => e.uri.None? && e.bufferView.Some?
  }

  /** The resource as `writeResource` leaves it for storage `s`. */
  predicate Stored(o: Resource, s: Storage, index: nat, extension: string,
                   mime: string -> string, base64: seq<byte> -> string)
    reads o
  {
    StoredAs(o, EditedOf(o), s, index, extension, mime, base64)
  }

  /** `writeDataUri`: the buffer view is dropped and the source embedded. */
  method WriteDataUri(o: Resource, extension: string, mime: string -> string, base64: seq<byte> -> string)
    modifies o
    ensures o.bufferView.None? && o.uri == Some(DataUriOf(mime(extension), base64(o.source)))
    ensures o.mimeType == old(o.mimeType) && o.byteLength == old(o.byteLength)
  {
    o.bufferView := None;
    o.uri := Some(DataUriOf(mime(extension), base64(o.source)));
  }

  /** `writeBufferView`: `uri` is dropped; a resource without a buffer view
      gets the next one, pointing at a new buffer that holds its source. */
  method WriteBufferView(asset: Asset, o: Resource)
    modifies asset, o
    ensures o.uri.None? && o.mimeType == old(o.mimeType) && o.byteLength == old(o.byteLength)
    ensures old(o.bufferView).Some? ==>
              o.bufferView == old(o.bufferView) && asset.bufferViews == old(asset.bufferViews) && asset.buffers == old(asset.buffers)
    ensures old(o.bufferView).None? ==>
              && o.bufferView == Some(|old(asset.bufferViews)|)
              && asset.bufferViews == old(asset.bufferViews) + [BufferView(|old(asset.buffers)|, 0, |o.source|)]
              && |asset.buffers| == |old(asset.buffers)| + 1
              && asset.buffers[..|old(asset.buffers)|] == old(asset.buffers)
              && fresh(asset.buffers[|old(asset.buffers)|])
              && asset.buffers[|old(asset.buffers)|].source == o.source
              && asset.buffers[|old(asset.buffers)|].byteLength == Some(|o.source|)
  {
    o.uri := None;
    if o.bufferView.Some? {
      return;
    }
    o.bufferView := Some(|asset.bufferViews|);
    asset.bufferViews := asset.bufferViews + [BufferView(|asset.buffers|, 0, |o.source|)];
    var b := new Resource.Buffer(o.source);
    asset.buffers := asset.buffers + [b];
  }

  /** `writeFile`: the buffer view is dropped and `uri` set to the relative
      path with forward slashes; the path is returned for the write. */
  method WriteFile(o: Resource, index: nat, extension: string) returns (path: string)
    modifies o
    ensures path == RelativePath(o, index, extension)
    ensures o.bufferView.None? && o.uri == Some(ForwardSlashes(path))
    ensures o.mimeType == old(o.mimeType) && o.byteLength == old(o.byteLength)
  {
    o.bufferView := None;
    path := if o.relativePath.Some? then o.relativePath.value
            else (if o.name.Some? then o.name.value else Json.Decimal(index)) + extension;
    o.uri := Some(ForwardSlashes(path));
  }

  /** `writeResource`: the storage the flags select.  The path of a
      separate file is returned. */
  method WriteResource(asset: Asset, o: Resource, index: nat, separate: bool, dataUris: bool, extension: string,
                       mime: string -> string, base64: seq<byte> -> string) returns (path: Option<string>)
    modifies asset, o
    ensures Stored(o, StorageOf(separate, dataUris), index, extension, mime, base64)
    ensures path.Some? <==> separate
    ensures separate ==> path == Some(RelativePath(o, index, extension))
    ensures o.mimeType == old(o.mimeType) && o.byteLength == old(o.byteLength)
    ensures AppendedTo(old(asset.bufferViews), old(asset.buffers), asset.bufferViews, asset.buffers)
    ensures StorageOf(separate, dataUris) != InBufferView ==>
              asset.bufferViews == old(asset.bufferViews) && asset.buffers == old(asset.buffers)
    ensures forall b :: b in asset.buffers && b !in old(asset.buffers) ==> fresh(b)
    ensures StorageOf(separate, dataUris) == InBufferView && old(o.bufferView).None? ==>
              ViewOver(asset.bufferViews, asset.buffers, o) && o.bufferView == Some(|old(asset.bufferViews)|)
  {
    if separate {
      var p := WriteFile(o, index, extension);
      return Some(p);
    } else if dataUris {
      WriteDataUri(o, extension, mime, base64);
      return None;
    }
    WriteBufferView(asset, o);
    return None;
  }

  /** The arrays only grow at the end. */
  predicate AppendedTo(views: seq<BufferView>, buffers: seq<Resource>, views': seq<BufferView>, buffers': seq<Resource>) {
    |views| <= |views'| && views'[..|views|] == views && |buffers| <= |buffers'| && buffers'[..|buffers|] == buffers
  }

  /** `writeImage`: the image stored, and its `mimeType` set from the
      extension only when it ends up in a buffer view. */
  method WriteImage(asset: Asset, image: Resource, index: nat, separate: bool, dataUris: bool, extension: string,
                    mime: string -> string, base64: seq<byte> -> string) returns (path: Option<string>)
    modifies asset, image
    ensures Stored(image, StorageOf(separate, dataUris), index, extension, mime, base64)
    ensures path.Some? <==> separate
    ensures separate ==> path == Some(RelativePath(image, index, extension))
    ensures image.bufferView.Some? ==> image.mimeType == Some(mime(extension))
    ensures image.bufferView.None? ==> image.mimeType == old(image.mimeType)
    ensures AppendedTo(old(asset.bufferViews), old(asset.buffers), asset.bufferViews, asset.buffers)
    ensures forall b :: b in asset.buffers && b !in old(asset.buffers) ==> fresh(b)
    ensures StorageOf(separate, dataUris) == InBufferView && old(image.bufferView).None? ==>
              ViewOver(asset.bufferViews, asset.buffers, image) && image.bufferView == Some(|old(asset.bufferViews)|)
  {
    path := WriteResource(asset, image, index, separate, dataUris, extension, mime, base64);
    if image.bufferView.Some? {
      image.mimeType := Some(mime(extension));
    }
  }

  /** The options `writeResources` reads, with their defaults applied. */
  datatype Options = Options(separateBuffers: bool, separateTextures: bool, separateShaders: bool,
                             dataUris: bool, bufferStorage: bool)

  /** `writeBuffer`: with a buffer storage the source is handed over and
      the buffer left alone; otherwise the buffer is stored as a separate
      file or a data URI. */
  method WriteBuffer(asset: Asset, buffer: Resource, index: nat, options: Options,
                     mime: string -> string, base64: seq<byte> -> string)
    returns (stored: Option<seq<byte>>, path: Option<string>)
    modifies asset, buffer
    ensures options.bufferStorage ==>
              stored == Some(buffer.source) && path.None? &&
              buffer.bufferView == old(buffer.bufferView) && buffer.uri == old(buffer.uri)
    ensures !options.bufferStorage ==>
              stored.None? && Stored(buffer, StorageOf(options.separateBuffers, true), index, ".bin", mime, base64)
    ensures path == if !options.bufferStorage && options.separateBuffers then Some(RelativePath(buffer, index, ".bin")) else None
    ensures asset.bufferViews == old(asset.bufferViews) && asset.buffers == old(asset.buffers)
  {
    if options.bufferStorage {
      return Some(buffer.source), None;
    }
    path := WriteResource(asset, buffer, index, options.separateBuffers, true, ".bin", mime, base64);
    stored := None;
  }

  /** One `writeImage` or `writeShader` call of `writeResources`: the
      object, the index it is written under, its extension, the two flags
      and whether it is an image. */
  datatype Job = Job(o: Resource, index: nat, ext: string, separate: bool, dataUris: bool, isImage: bool)

  /** The writes of `writeResources`, in the order they take effect.  A
      shader is written inside the shader pass itself, while an image's
      write waits on the promise of `writeJimpImage`, so it runs after all
      three passes: every shader first, then every image, then every
      compressed image under the index of the image that holds it.
      `compressed[i]` is paired with `compressedOf[i]`. */
  function Schedule(images: seq<Resource>, shaders: seq<Resource>, compressed: seq<Resource>, compressedOf: seq<nat>,
                    options: Options, extensionOf: seq<byte> -> string): (r: seq<Job>)
    requires |compressedOf| == |compressed|
    ensures |r| == |shaders| + |images| + |compressed|
    ensures forall i :: 0 <= i < |shaders| ==>
              r[i] == Job(shaders[i], i, ".glsl", options.separateShaders, options.dataUris, false)
    ensures forall i :: 0 <= i < |images| ==>
              r[|shaders| + i] == Job(images[i], i, extensionOf(images[i].source), options.separateTextures, options.dataUris, true)
    ensures forall i :: 0 <= i < |compressed| ==>
              r[|shaders| + |images| + i] ==
              Job(compressed[i], compressedOf[i], extensionOf(compressed[i].source), options.separateTextures, options.dataUris, true)
  {
    seq(|shaders|, i requires 0 <= i < |shaders| => Job(shaders[i], i, ".glsl", options.separateShaders, options.dataUris, false))
    + seq(|images|, i requires 0 <= i < |images| =>
          Job(images[i], i, extensionOf(images[i].source), options.separateTextures, options.dataUris, true))
    + seq(|compressed|, i requires 0 <= i < |compressed| =>
          Job(compressed[i], compressedOf[i], extensionOf(compressed[i].source), options.separateTextures, options.dataUris, true))
  }

  /** Every shader job comes before every image job, whatever the order of
      the passes that find them. */
  lemma ShadersFirst(images: seq<Resource>, shaders: seq<Resource>, compressed: seq<Resource>, compressedOf: seq<nat>,
                     options: Options, extensionOf: seq<byte> -> string, i: nat, j: nat)
    requires |compressedOf| == |compressed|
    requires var r := Schedule(images, shaders, compressed, compressedOf, options, extensionOf);
      i < |r| && j < |r| && !r[i].isImage && r[j].isImage
    ensures i < j
  {
  }

  /** The objects of the jobs. */
  function Objects(jobs: seq<Job>): set<Resource> {
    set j | j in jobs :: j.o
  }

  /** No object is written twice. */
  predicate Distinct(jobs: seq<Job>) {
    forall i, j :: 0 <= i < j < |jobs| ==> jobs[i].o != jobs[j].o
  }

  /** The job done, with `e` the edited fields of its object: stored as its
      flags select, and an image left in a buffer view typed by its
      extension. */
  predicate DoneAs(job: Job, e: Edited, mime: string -> string, base64: seq<byte> -> string) {
    && StoredAs(job.o, e, StorageOf(job.separate, job.dataUris), job.index, job.ext, mime, base64)
    && (job.isImage && e.bufferView.Some? ==> e.mimeType == Some(mime(job.ext)))
  }

  predicate Done(job: Job, mime: string -> string, base64: seq<byte> -> string)
    reads job.o
  {
    DoneAs(job, EditedOf(job.o), mime, base64)
  }

  /** Whether the job gives its object a new buffer view: storage in a
      buffer view, and none to start with. */
  predicate PlacesView(job: Job, bufferView: Option<nat>) {
    StorageOf(job.separate, job.dataUris) == InBufferView && bufferView.None?
  }

  /** The buffer view `bv` of `o` is a view `{buffer, byteOffset: 0,
      byteLength}` over its whole source, whose buffer holds that source. */
  predicate ViewAt(views: seq<BufferView>, buffers: seq<Resource>, o: Resource, bv: Option<nat>) {
    && bv.Some? && bv.value < |views|
    && var v := views[bv.value];
       v.byteOffset == 0 && v.byteLength == |o.source| && v.buffer < |buffers| && buffers[v.buffer].source == o.source
  }

  predicate ViewOver(views: seq<BufferView>, buffers: seq<Resource>, o: Resource)
    reads o
  {
    ViewAt(views, buffers, o, o.bufferView)
  }

  /** Appending to the arrays keeps every view a resource points at. */
  lemma ViewAtAppended(views: seq<BufferView>, buffers: seq<Resource>, views': seq<BufferView>, buffers': seq<Resource>,
                       o: Resource, bv: Option<nat>)
    requires AppendedTo(views, buffers, views', buffers')
    requires ViewAt(views, buffers, o, bv)
    ensures ViewAt(views', buffers', o, bv)
  {
    var v := views[bv.value];
    assert views'[bv.value] == views'[..|views|][bv.value];
    assert buffers'[v.buffer] == buffers'[..|buffers|][v.buffer];
  }

  /** The files the separate jobs write, relative to the base path. */
  function Paths(jobs: seq<Job>): (r: seq<string>)
    ensures |r| <= |jobs|
  {
    if jobs == [] then []
    else Paths(jobs[..|jobs| - 1])
         + (var j := jobs[|jobs| - 1]; if j.separate then [RelativePath(j.o, j.index, j.ext)] else [])
  }

  /** Only separate jobs write files, one each. */
  lemma {:induction false} PathsCount(jobs: seq<Job>)
    ensures (forall i :: 0 <= i < |jobs| ==> !jobs[i].separate) ==> Paths(jobs) == []
    ensures (forall i :: 0 <= i < |jobs| ==> jobs[i].separate) ==> |Paths(jobs)| == |jobs|
  {
    if jobs != [] {
      PathsCount(jobs[..|jobs| - 1]);
    }
  }

  /** One job: `writeImage` for an image, `writeResource` otherwise. */
  method WriteOne(asset: Asset, job: Job, mime: string -> string, base64: seq<byte> -> string) returns (path: Option<string>)
    modifies asset, job.o
    ensures Done(job, mime, base64)
    ensures path == if job.separate then Some(RelativePath(job.o, job.index, job.ext)) else None
    ensures AppendedTo(old(asset.bufferViews), old(asset.buffers), asset.bufferViews, asset.buffers)
    ensures forall b :: b in asset.buffers && b !in old(asset.buffers) ==> fresh(b)
    ensures PlacesView(job, old(job.o.bufferView)) ==>
              ViewOver(asset.bufferViews, asset.buffers, job.o) && job.o.bufferView == Some(|old(asset.bufferViews)|)
  {
    if job.isImage {
      path := WriteImage(asset, job.o, job.index, job.separate, job.dataUris, job.ext, mime, base64);
    } else {
      path := WriteResource(asset, job.o, job.index, job.separate, job.dataUris, job.ext, mime, base64);
    }
  }

  /** The buffer views recorded for the jobs in `placed` rise with the job
      index. */
  ghost predicate Ascending(es: seq<Edited>, placed: set<nat>) {
    forall k, l :: k in placed && l in placed && k < l < |es| ==>
      es[k].bufferView.Some? && es[l].bufferView.Some? && es[k].bufferView.value < es[l].bufferView.value
  }

  /** A view numbered at least `bound`, above every earlier one, keeps the
      order. */
  lemma AscendingStep(es: seq<Edited>, placed: set<nat>, e: Edited, bound: nat)
    requires Ascending(es, placed)
    requires forall k :: k in placed && k < |es| ==> es[k].bufferView.Some? && es[k].bufferView.value < bound
    requires |es| in placed ==> e.bufferView.Some? && bound <= e.bufferView.value
    ensures Ascending(es + [e], placed)
  {
    var es' := es + [e];
    forall k, l | k in placed && l in placed && k < l < |es'|
      ensures es'[k].bufferView.Some? && es'[l].bufferView.Some? && es'[k].bufferView.value < es'[l].bufferView.value
    {
      assert es'[k] == es[k];
      if l < |es| {
        assert es'[l] == es[l];
      }
    }
  }

  /** The buffer views of the jobs in `placed` rise with the job index. */
  ghost predicate ViewsRise(jobs: seq<Job>, placed: set<nat>)
    reads Objects(jobs)
  {
    forall k, l :: k in placed && l in placed && k < l < |jobs| ==>
      jobs[k].o.bufferView.Some? && jobs[l].o.bufferView.Some? &&
      jobs[k].o.bufferView.value < jobs[l].o.bufferView.value
  }

  /** The jobs that place a buffer view, given each object's buffer view
      before the writes. */
  ghost function Placing(jobs: seq<Job>, before: seq<Option<nat>>): set<nat>
    requires |before| == |jobs|
  {
    set k | 0 <= k < |jobs| && PlacesView(jobs[k], before[k])
  }

  /** The edited fields the jobs before `n` left, with the views of the
      jobs in `placed` over the arrays. */
  ghost predicate Written(jobs: seq<Job>, es: seq<Edited>, placed: set<nat>, views: seq<BufferView>, buffers: seq<Resource>,
                          mime: string -> string, base64: seq<byte> -> string)
    requires |es| <= |jobs|
  {
    forall k :: 0 <= k < |es| ==>
      DoneAs(jobs[k], es[k], mime, base64) && (k in placed ==> ViewAt(views, buffers, jobs[k].o, es[k].bufferView))
  }

  /** One more job written, over arrays that only grew. */
  lemma WrittenStep(jobs: seq<Job>, es: seq<Edited>, placed: set<nat>, views: seq<BufferView>, buffers: seq<Resource>,
                    views': seq<BufferView>, buffers': seq<Resource>, e: Edited, mime: string -> string, base64: seq<byte> -> string)
    requires |es| < |jobs|
    requires Written(jobs, es, placed, views, buffers, mime, base64)
    requires AppendedTo(views, buffers, views', buffers')
    requires DoneAs(jobs[|es|], e, mime, base64)
    requires |es| in placed ==> ViewAt(views', buffers', jobs[|es|].o, e.bufferView) && e.bufferView == Some(|views|)
    ensures Written(jobs, es + [e], placed, views', buffers', mime, base64)
    ensures forall k :: k in placed && k < |es| ==> es[k].bufferView.Some? && es[k].bufferView.value < |views|
  {
    var es' := es + [e];
    forall k | 0 <= k < |es'|
      ensures DoneAs(jobs[k], es'[k], mime, base64) && (k in placed ==> ViewAt(views', buffers', jobs[k].o, es'[k].bufferView))
    {
      if k < |es| {
        assert es'[k] == es[k];
        if k in placed {
          ViewAtAppended(views, buffers, views', buffers', jobs[k].o, es[k].bufferView);
        }
      }
    }
  }

  /** What the writes of the jobs before `i` have left: the edited fields
      `es` of their objects, the later objects as they were, and the views
      placed so far over the arrays and rising with the job index. */
  ghost predicate Progress(asset: Asset, jobs: seq<Job>, i: nat, es: seq<Edited>, before: seq<Option<nat>>,
                           mime: string -> string, base64: seq<byte> -> string)
    requires |before| == |jobs|
    reads asset, Objects(jobs)
  {
    && i <= |jobs| && |es| == i
    && (forall k :: 0 <= k < i ==> EditedOf(jobs[k].o) == es[k])
    && (forall k :: i <= k < |jobs| ==> jobs[k].o.bufferView == before[k])
    && Written(jobs, es, Placing(jobs, before), asset.bufferViews, asset.buffers, mime, base64)
    && Ascending(es, Placing(jobs, before))
  }

  /** The job at `i`, and what its write adds to the progress. */
  method WriteNext(asset: Asset, jobs: seq<Job>, i: nat, mime: string -> string, base64: seq<byte> -> string,
                   ghost before: seq<Option<nat>>, ghost es: seq<Edited>) returns (path: Option<string>, ghost es': seq<Edited>)
    requires Distinct(jobs) && |before| == |jobs| && i < |jobs|
    requires Progress(asset, jobs, i, es, before, mime, base64)
    modifies asset, jobs[i].o
    ensures Progress(asset, jobs, i + 1, es', before, mime, base64)
    ensures path == if jobs[i].separate then Some(RelativePath(jobs[i].o, jobs[i].index, jobs[i].ext)) else None
    ensures AppendedTo(old(asset.bufferViews), old(asset.buffers), asset.bufferViews, asset.buffers)
    ensures forall b :: b in asset.buffers && b !in old(asset.buffers) ==> fresh(b)
  {
    ghost var placed := Placing(jobs, before);
    ghost var views, buffers := asset.bufferViews, asset.buffers;
    path := WriteOne(asset, jobs[i], mime, base64);
    WrittenStep(jobs, es, placed, views, buffers, asset.bufferViews, asset.buffers, EditedOf(jobs[i].o), mime, base64);
    AscendingStep(es, placed, EditedOf(jobs[i].o), |views|);
    es' := es + [EditedOf(jobs[i].o)];
    assert forall k :: 0 <= k < |jobs| && k != i ==> jobs[k].o != jobs[i].o;
  }

  /** Each job in turn, as the writes take effect.  The jobs that place a
      new buffer view get views over their sources, numbered in job order. */
  method WriteJobs(asset: Asset, jobs: seq<Job>, mime: string -> string, base64: seq<byte> -> string,
                   ghost before: seq<Option<nat>>) returns (paths: seq<string>)
    requires Distinct(jobs)
    requires |before| == |jobs| && forall k :: 0 <= k < |jobs| ==> before[k] == jobs[k].o.bufferView
    modifies asset, Objects(jobs)
    ensures forall i :: 0 <= i < |jobs| ==> Done(jobs[i], mime, base64)
    ensures paths == Paths(jobs)
    ensures AppendedTo(old(asset.bufferViews), old(asset.buffers), asset.bufferViews, asset.buffers)
    ensures forall b :: b in asset.buffers && b !in old(asset.buffers) ==> fresh(b)
    ensures forall k :: k in Placing(jobs, before) ==> ViewOver(asset.bufferViews, asset.buffers, jobs[k].o)
    ensures ViewsRise(jobs, Placing(jobs, before))
  {
    ghost var es: seq<Edited> := [];
    paths := [];
    var i := 0;
    while i < |jobs|
      invariant 0 <= i <= |jobs|
      invariant Progress(asset, jobs, i, es, before, mime, base64)
      invariant paths == Paths(jobs[..i])
      invariant AppendedTo(old(asset.bufferViews), old(asset.buffers), asset.bufferViews, asset.buffers)
      invariant forall b :: b in asset.buffers && b !in old(asset.buffers) ==> fresh(b)
    {
      var p;
      p, es := WriteNext(asset, jobs, i, mime, base64, before, es);
      if p.Some? {
        paths := paths + [p.value];
      }
      assert jobs[..i + 1][..i] == jobs[..i];
      i := i + 1;
    }
    assert jobs[..i] == jobs;
    ProgressDone(asset, jobs, es, before, mime, base64);
  }

  /** Once every job is written, the progress is the postcondition. */
  lemma ProgressDone(asset: Asset, jobs: seq<Job>, es: seq<Edited>, before: seq<Option<nat>>,
                     mime: string -> string, base64: seq<byte> -> string)
    requires |before| == |jobs|
    requires Progress(asset, jobs, |jobs|, es, before, mime, base64)
    ensures forall i :: 0 <= i < |jobs| ==> Done(jobs[i], mime, base64)
    ensures forall k :: k in Placing(jobs, before) ==> ViewOver(asset.bufferViews, asset.buffers, jobs[k].o)
    ensures ViewsRise(jobs, Placing(jobs, before))
  {
    forall i | 0 <= i < |jobs| ensures Done(jobs[i], mime, base64) {
      assert EditedOf(jobs[i].o) == es[i];
    }
  }

  /** `writeResources` on the jobs of `Schedule`: the jobs done, then the
      first buffer written.  The
      result holds the files to write and, with a buffer storage, the
      source handed out.  A missing first buffer is the `TypeError` the
      source raises on `gltf.buffers[0].extras`. */
  method WriteAll(asset: Asset, jobs: seq<Job>, options: Options, mime: string -> string, base64: seq<byte> -> string,
                  ghost before: seq<Option<nat>>)
    returns (r: Result<(seq<string>, Option<seq<byte>>), string>)
    requires Distinct(jobs)
    requires |before| == |jobs| && forall k :: 0 <= k < |jobs| ==> before[k] == jobs[k].o.bufferView
    requires Objects(jobs) !! Elems(asset.buffers)
    modifies asset, Objects(jobs), Elems(asset.buffers)
    ensures forall i :: 0 <= i < |jobs| ==> Done(jobs[i], mime, base64)
    ensures AppendedTo(old(asset.bufferViews), old(asset.buffers), asset.bufferViews, asset.buffers)
    ensures r.Err? <==> asset.buffers == []
    ensures r.Ok? ==> r.value.0 == Paths(jobs) + (if !options.bufferStorage && options.separateBuffers then [RelativePath(asset.buffers[0], 0, ".bin")] else [])
    ensures r.Ok? && !options.bufferStorage ==>
              r.value.1.None? && Stored(asset.buffers[0], StorageOf(options.separateBuffers, true), 0, ".bin", mime, base64)
    ensures r.Ok? && options.bufferStorage ==> r.value.1 == Some(asset.buffers[0].source)
    ensures forall k :: k in Placing(jobs, before) ==> ViewOver(asset.bufferViews, asset.buffers, jobs[k].o)
    ensures ViewsRise(jobs, Placing(jobs, before))
  {
    var paths := WriteJobs(asset, jobs, mime, base64, before);
    if asset.buffers == [] {
      return Err("TypeError: Cannot read property 'extras' of undefined");
    }
    var first := asset.buffers[0];
    assert first in old(Elems(asset.buffers)) || fresh(first) by {
      if old(asset.buffers) != [] {
        assert first == old(asset.buffers)[0];
      }
    }
    assert first !in Objects(jobs);
    var stored, path := WriteBuffer(asset, first, 0, options, mime, base64);
    return Ok((paths + (if path.Some? then [path.value] else []), stored));
  }

  /** The objects of a sequence. */
  function Elems(objs: seq<Resource>): set<Resource> {
    set o | o in objs
  }
}
