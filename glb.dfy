/** The binary glTF container: the header checks and the two layouts read by
    lib/parseGlb.js, and the version-2 layout written by `getGlb` in
    lib/gltfToGlb.js.  The version-2 layout is the one of the "GLB File
    Format Specification" chapter of glTF 2.0 (a 12-byte header followed by
    chunks, each an 8-byte header and its payload); the version-1 layout is
    the "Binary glTF Layout" of the KHR_binary_glTF extension (a 20-byte
    header, the JSON content, then the binary body).

    The input is taken to start at byte 0 of its own `ArrayBuffer`, so the
    `Uint32Array` views the source creates are at the same offsets as in the
    byte sequence. JSON text decoding and `JSON.parse` are a parameter
    `parse`, which yields `None` where `JSON.parse` throws. */
module Glb {
  import opened Wrappers
  import opened Bytes
  import opened Json
  import opened PipelineExtras

  /** "glTF" read as a little-endian u32. */
  const MAGIC: nat := 0x46546C67
  const JSON_CHUNK: nat := 0x4E4F534A
  const BIN_CHUNK: nat := 0x004E4942

  /** The exceptions the decoder can raise. */
  datatype GlbError =
    | NotBinaryGltf       // "File is not valid binary glTF"
    | UnsupportedVersion  // "Binary glTF version is not 1 or 2"
    | NotJson             // "Binary glTF scene format is not JSON"
    | RangeError          // a Uint32Array header view outside the data or misaligned
    | SyntaxError         // JSON.parse on the chunk text
    | TypeError           // a property assignment on a value that is not an object

  /** What `parseGlb` returns: for version 1 the parsed JSON with the body
      attached (before the version upgrade that follows it), for version 2
      the parsed JSON chunk, undefined when the file has none. */
  datatype Content = V1(asset: Json) | V2(parsed: Option<Json>)

  /** The payload slice of a version-2 chunk.  The source passes the chunk
      length as the end argument of `subarray`; `Intended` is the slice of
      `chunkLength` bytes at `start` that the layout describes. */
  datatype SliceRule = AsWritten | Intended

  function Payload(glb: seq<byte>, start: nat, chunkLength: nat, rule: SliceRule): (r: seq<byte>)
    ensures rule == Intended && start + chunkLength <= |glb| ==> r == glb[start..start + chunkLength]
    ensures rule == AsWritten && chunkLength <= start ==> r == []
  {
    match rule
    case AsWritten => Subarray(glb, start, chunkLength)
    case Intended => Subarray(glb, start, start + chunkLength)
  }

  // ---------------------------------------------------------------------------
  // Header

  /** The magic check: `getMagic` reads at most the first four bytes. */
  predicate HasMagic(glb: seq<byte>) {
    |glb| >= 4 && U32(glb, 0) == MAGIC
  }

  /** `parseGlb`: the magic, then five u32 header words (which need 20 bytes),
      then the version dispatch. */
  function ParseGlbSpec(glb: seq<byte>, parse: seq<byte> -> Option<Json>, rule: SliceRule): (r: Result<Content, GlbError>)
    ensures !HasMagic(glb) ==> r == Err(NotBinaryGltf)
    ensures HasMagic(glb) && |glb| < 20 ==> r == Err(RangeError)
    ensures r.Ok? ==> 20 <= |glb| && (U32(glb, 4) == 1 <==> r.value.V1?) && (U32(glb, 4) == 2 <==> r.value.V2?)
    ensures HasMagic(glb) && 20 <= |glb| && U32(glb, 4) != 1 && U32(glb, 4) != 2 ==> r == Err(UnsupportedVersion)
  {
    if !HasMagic(glb) then Err(NotBinaryGltf)
    else if |glb| < 20 then Err(RangeError)
    else
      var version := U32(glb, 4);
      if version != 1 && version != 2 then Err(UnsupportedVersion)
      else if version == 1 then
        match ParseGlbVersion1(glb, parse, rule)
        case Ok(g) => Ok(V1(g))
        case Err(e) => Err(e)
      else
        match DecodeVersion2(glb, parse, rule)
        case Ok(g) => Ok(V2(g))
        case Err(e) => Err(e)
  }

  method ParseGlb(glb: seq<byte>, parse: seq<byte> -> Option<Json>, rule: SliceRule) returns (r: Result<Content, GlbError>)
    ensures r == ParseGlbSpec(glb, parse, rule)
  {
    if !HasMagic(glb) {
      return Err(NotBinaryGltf);
    }
    if |glb| < 20 {
      return Err(RangeError);
    }
    var version := U32(glb, 4);
    if version != 1 && version != 2 {
      return Err(UnsupportedVersion);
    }
    if version == 1 {
      var g := ParseGlbVersion1(glb, parse, rule);
      if g.Err? {
        return Err(g.error);
      }
      return Ok(V1(g.value));
    }
    var g := ParseGlbVersion2(glb, parse, rule);
    if g.Err? {
      return Err(g.error);
    }
    return Ok(V2(g.value));
  }

  // ---------------------------------------------------------------------------
  // Version 1

  /** The JSON text of a version-1 file.  The source passes `binaryStart`,
      the end of the content, where the text decoder takes a byte length, so
      as written the text runs `binaryStart` bytes from byte 20 and takes up
      to 20 bytes of the body with it; `Intended` is the content alone. */
  function ContentText(glb: seq<byte>, binaryStart: nat, rule: SliceRule): (r: seq<byte>)
    ensures rule == Intended && 20 <= binaryStart <= |glb| ==> r == glb[20..binaryStart]
    ensures rule == AsWritten && 20 + binaryStart <= |glb| ==> r == glb[20..20 + binaryStart]
  {
    match rule
    case AsWritten => Subarray(glb, 20, 20 + binaryStart)
    case Intended => Subarray(glb, 20, binaryStart)
  }

  /** The JSON text and the binary body of a version-1 file: content format
      0 is required, the content occupies `[20, 20 + contentLength)` and the
      body the rest of the file. */
  function SplitVersion1(glb: seq<byte>, rule: SliceRule): (r: Result<(seq<byte>, seq<byte>), GlbError>)
    requires 20 <= |glb|
    ensures r.Err? <==> U32(glb, 16) != 0
    ensures r.Err? ==> r.error == NotJson
    ensures r.Ok? && 20 + U32(glb, 12) <= |glb| ==> r.value.1 == glb[20 + U32(glb, 12)..]
    ensures r.Ok? && rule == Intended && 20 + U32(glb, 12) <= |glb| ==>
      r.value.0 + r.value.1 == glb[20..] && |r.value.0| == U32(glb, 12)
    ensures r.Ok? && rule == AsWritten && 40 + U32(glb, 12) <= |glb| ==>
      r.value.0 == glb[20..40 + U32(glb, 12)]
  {
    var contentLength := U32(glb, 12);
    var contentFormat := U32(glb, 16);
    if contentFormat != 0 then Err(NotJson)
    else
      var binaryStart := 20 + contentLength;
      assert binaryStart <= |glb| ==> glb[20..binaryStart] + glb[binaryStart..] == glb[20..];
      Ok((ContentText(glb, binaryStart, rule), Subarray(glb, binaryStart, |glb|)))
  }

  /** `{_pipeline: {source: bin}}`. */
  function PipelineSource(bin: seq<byte>): Json {
    JObj([Field("_pipeline", JObj([Field("source", JBytes(bin))]))])
  }

  /** `obj.extras._pipeline.source`, when it holds bytes. */
  function SourceOf(obj: Json): Option<seq<byte>> {
    var ex := Lookup(FieldsOf(obj), "extras");
    if ex.None? then None else
    var p := Lookup(FieldsOf(ex.value), "_pipeline");
    if p.None? then None else
    var s := Lookup(FieldsOf(p.value), "source");
    if s.Some? && s.value.JBytes? then Some(s.value.bytes) else None
  }

  /** The pipeline source of the buffer stored under `key` in an object-valued
      `buffers` (the version-1 form), if there is one. */
  function SourceOfNamedBuffer(gltf: Json, key: string): Option<seq<byte>> {
    var bs := Lookup(FieldsOf(gltf), "buffers");
    if bs.None? then None else
    var b := Lookup(FieldsOf(bs.value), key);
    if b.None? then None else SourceOf(b.value)
  }

  /** The version-1 buffer named `binary_glTF`, or else `KHR_binary_glTF`,
      gets `extras = {_pipeline: {source: bin}}`, provided `buffers` has keys.
      Assigning `extras` to a primitive throws under strict mode; reading
      `buffers` off `null` throws too. */
  function AttachBinaryVersion1(gltf: Json, bin: seq<byte>): (r: Result<Json, GlbError>)
    ensures gltf.JObj? && !Defined(Lookup(gltf.fields, "buffers")) ==> r == Ok(gltf)
    ensures r.Ok? && gltf.JObj? ==>
      r.value.JObj? && forall k :: k != "buffers" ==> Lookup(r.value.fields, k) == Lookup(gltf.fields, k)
  {
    match gltf
    case JNull => Err(TypeError)
    case JObj(fs) =>
      var b := Lookup(fs, "buffers");
      if !(Defined(b) && b.value.JObj? && |b.value.fields| > 0) then Ok(gltf)
      else
        var bfs := b.value.fields;
        var key := if Defined(Lookup(bfs, "binary_glTF")) then "binary_glTF" else "KHR_binary_glTF";
        var target := Lookup(bfs, key);
        if !Defined(target) then Ok(gltf)
        else if target.value.JObj? then
          var t' := Put(target.value.fields, "extras", PipelineSource(bin));
          Ok(JObj(Put(fs, "buffers", JObj(Put(bfs, key, JObj(t'))))))
        else if target.value.JArr? then Ok(gltf)
        else Err(TypeError)
    case _ => Ok(gltf)
  }

  /** The body lands in `extras._pipeline.source` of `binary_glTF` when that
      buffer is defined, else of `KHR_binary_glTF`; the other of the two and
      the target's properties other than `extras` are untouched. */
  lemma AttachVersion1Target(gltf: Json, bin: seq<byte>, key: string)
    requires gltf.JObj? && Defined(Lookup(gltf.fields, "buffers")) && Lookup(gltf.fields, "buffers").value.JObj?
    requires key == if Defined(Lookup(Lookup(gltf.fields, "buffers").value.fields, "binary_glTF"))
                    then "binary_glTF" else "KHR_binary_glTF"
    requires Defined(Lookup(Lookup(gltf.fields, "buffers").value.fields, key))
    requires Lookup(Lookup(gltf.fields, "buffers").value.fields, key).value.JObj?
    ensures var r := AttachBinaryVersion1(gltf, bin);
      var other := if key == "binary_glTF" then "KHR_binary_glTF" else "binary_glTF";
      && r.Ok?
      && SourceOfNamedBuffer(r.value, key) == Some(bin)
      && SourceOfNamedBuffer(r.value, other) == SourceOfNamedBuffer(gltf, other)
      && forall k :: k != "extras" ==>
           Lookup(FieldsOf(Lookup(FieldsOf(Lookup(r.value.fields, "buffers").value), key).value), k)
           == Lookup(Lookup(Lookup(gltf.fields, "buffers").value.fields, key).value.fields, k)
  {
    var fs := gltf.fields;
    var bfs := Lookup(fs, "buffers").value.fields;
    var t := Lookup(bfs, key).value.fields;
    var t' := Put(t, "extras", PipelineSource(bin));
    var bfs' := Put(bfs, key, JObj(t'));
    var fs' := Put(fs, "buffers", JObj(bfs'));
    assert AttachBinaryVersion1(gltf, bin) == Ok(JObj(fs')) by {
      assert |bfs| > 0;
    }
    var r := JObj(fs');
    assert Lookup(FieldsOf(r), "buffers") == Some(JObj(bfs'));
    assert Lookup(bfs', key) == Some(JObj(t'));
    SourceOfPut(t, bin);
    assert SourceOfNamedBuffer(r, key) == Some(bin);
    var other := if key == "binary_glTF" then "KHR_binary_glTF" else "binary_glTF";
    if key == "binary_glTF" {
      PutOther(bfs, "binary_glTF", JObj(t'), "KHR_binary_glTF");
    } else {
      PutOther(bfs, "KHR_binary_glTF", JObj(t'), "binary_glTF");
    }
    assert SourceOfNamedBuffer(r, other) == SourceOfNamedBuffer(gltf, other);
    forall k | k != "extras"
      ensures Lookup(FieldsOf(Lookup(FieldsOf(Lookup(r.fields, "buffers").value), key).value), k) == Lookup(t, k)
    {
      assert Lookup(t', k) == Lookup(t, k);
    }
  }

  lemma PutOther(fs: seq<Field>, k: string, v: Json, k': string)
    requires |k| > 0 && |k'| > 0 && k'[0] != k[0]
    ensures Lookup(Put(fs, k, v), k') == Lookup(fs, k')
  {
  }

  lemma SourceOfPut(t: seq<Field>, bin: seq<byte>)
    ensures SourceOf(JObj(Put(t, "extras", PipelineSource(bin)))) == Some(bin)
  {
  }

  /** `parseGlbVersion1` up to the attachment of the binary body. */
  function ParseGlbVersion1(glb: seq<byte>, parse: seq<byte> -> Option<Json>, rule: SliceRule): (r: Result<Json, GlbError>)
    requires 20 <= |glb|
    ensures U32(glb, 16) != 0 ==> r == Err(NotJson)
    ensures U32(glb, 16) == 0 && parse(SplitVersion1(glb, rule).value.0).None? ==> r == Err(SyntaxError)
    ensures U32(glb, 16) == 0 && parse(SplitVersion1(glb, rule).value.0).Some? ==>
      r == AttachBinaryVersion1(parse(SplitVersion1(glb, rule).value.0).value, SplitVersion1(glb, rule).value.1)
  {
    match SplitVersion1(glb, rule)
    case Err(e) => Err(e)
    case Ok((content, body)) =>
      match parse(content)
      case None => Err(SyntaxError)
      case Some(gltf) => AttachBinaryVersion1(gltf, body)
  }

  /** A version-1 file as the KHR_binary_glTF extension lays it out. */
  function Version1Layout(content: seq<byte>, body: seq<byte>): (r: seq<byte>)
    requires 20 + |content| + |body| < TWO_32
  {
    U32Bytes(MAGIC) + U32Bytes(1) + U32Bytes(20 + |content| + |body|)
      + U32Bytes(|content|) + U32Bytes(0) + content + body
  }

  /** The version-1 split recovers the content and the body of any file laid
      out as the extension describes. */
  lemma SplitVersion1OfLayout(content: seq<byte>, body: seq<byte>)
    requires 20 + |content| + |body| < TWO_32
    ensures var g := Version1Layout(content, body);
      && HasMagic(g) && 20 <= |g| && U32(g, 4) == 1
      && SplitVersion1(g, Intended) == Ok((content, body))
  {
    var g := Version1Layout(content, body);
    Version1Fields(content, body);
    assert Subarray(g, 20, 20 + |content|) == content;
    assert Subarray(g, 20 + |content|, |g|) == body;
  }

  /** As written, the text handed to `JSON.parse` for a file laid out as the
      extension describes is the content followed by the first (up to 20)
      bytes of the body, so it differs from the content whenever there is a
      body. */
  lemma SplitVersion1AsWritten(content: seq<byte>, body: seq<byte>)
    requires 20 + |content| + |body| < TWO_32
    ensures var g := Version1Layout(content, body);
      var n := if |body| < 20 then |body| else 20;
      && SplitVersion1(g, AsWritten) == Ok((content + body[..n], body))
      && (|body| > 0 ==> SplitVersion1(g, AsWritten).value.0 != content)
  {
    var g := Version1Layout(content, body);
    var n := if |body| < 20 then |body| else 20;
    Version1Fields(content, body);
    assert g[20..] == content + body;
    assert g[20..40 + |content| + n - 20] == (content + body)[..|content| + n];
    assert (content + body)[..|content| + n] == content + body[..n];
    assert ContentText(g, 20 + |content|, AsWritten) == content + body[..n];
    assert Subarray(g, 20 + |content|, |g|) == body;
  }

  lemma Version1Fields(content: seq<byte>, body: seq<byte>)
    requires 20 + |content| + |body| < TWO_32
    ensures var g := Version1Layout(content, body);
      && |g| == 20 + |content| + |body|
      && U32(g, 0) == MAGIC && U32(g, 4) == 1 && U32(g, 12) == |content| && U32(g, 16) == 0
      && g[20..20 + |content|] == content && g[20 + |content|..] == body
  {
    var g := Version1Layout(content, body);
    var h := [U32Bytes(MAGIC), U32Bytes(1), U32Bytes(20 + |content| + |body|), U32Bytes(|content|), U32Bytes(0)];
    var head := h[0] + h[1] + h[2] + h[3] + h[4];
    assert |head| == 20;
    assert g == head + content + body;
    forall i | 0 <= i < 5 ensures U32(g, 4 * i) == U32(h[i], 0) {
      assert g[4 * i..4 * i + 4] == h[i];
      U32Window(g, 4 * i, h[i]);
    }
    assert g[20..20 + |content|] == content;
    assert g[20 + |content|..] == body;
  }

  // ---------------------------------------------------------------------------
  // Version 2

  datatype Chunk = Chunk(chunkType: nat, payload: seq<byte>)

  /** The chunk whose header is at `offset` and the offset after it.  The
      header is a two-word `Uint32Array`, so it must lie inside the data and
      be 4-aligned. */
  function ChunkAt(glb: seq<byte>, offset: nat, rule: SliceRule): (r: Result<(Chunk, nat), GlbError>)
    ensures r.Err? <==> offset % 4 != 0 || |glb| < offset + 8
    ensures r.Ok? ==> r.value.1 == offset + 8 + U32(glb, offset) && r.value.0.chunkType == U32(glb, offset + 4)
  {
    if offset % 4 != 0 || |glb| < offset + 8 then Err(RangeError)
    else
      var chunkLength := U32(glb, offset);
      var chunkType := U32(glb, offset + 4);
      Ok((Chunk(chunkType, Payload(glb, offset + 8, chunkLength, rule)), offset + 8 + chunkLength))
  }

  /** The chunk table walked from `offset` while the offset is below the
      declared `length`. */
  function Chunks(glb: seq<byte>, length: nat, offset: nat, rule: SliceRule): Result<seq<Chunk>, GlbError>
    decreases length - offset
  {
    if length <= offset then Ok([])
    else
      match ChunkAt(glb, offset, rule)
      case Err(e) => Err(e)
      case Ok((c, next)) =>
        match Chunks(glb, length, next, rule)
        case Err(e) => Err(e)
        case Ok(cs) => Ok([c] + cs)
  }

  /** The loop state: the last JSON chunk seen, with pipeline extras added,
      and the last BIN chunk seen. */
  datatype Decoded = Decoded(gltf: Option<Json>, bin: Option<seq<byte>>)

  /** One chunk: JSON is parsed and given pipeline extras, BIN is kept, any
      other type is skipped.  A later chunk of a type replaces an earlier one. */
  function Step(d: Decoded, c: Chunk, parse: seq<byte> -> Option<Json>): (r: Result<Decoded, GlbError>)
    ensures c.chunkType != JSON_CHUNK && c.chunkType != BIN_CHUNK ==> r == Ok(d)
    ensures c.chunkType == BIN_CHUNK ==> r == Ok(d.(bin := Some(c.payload)))
    ensures c.chunkType == JSON_CHUNK ==>
      (r.Ok? <==> parse(c.payload).Some? && AddOk(parse(c.payload).value))
    ensures c.chunkType == JSON_CHUNK && r.Ok? ==>
      r.value.bin == d.bin && r.value.gltf == Some(Add(parse(c.payload).value))
  {
    if c.chunkType == JSON_CHUNK then
      match parse(c.payload)
      case None => Err(SyntaxError)
      case Some(j) => if AddOk(j) then Ok(d.(gltf := Some(Add(j)))) else Err(TypeError)
    else if c.chunkType == BIN_CHUNK then Ok(d.(bin := Some(c.payload)))
    else Ok(d)
  }

  /** The chunk loop of `parseGlbVersion2`, one chunk at a time: an error
      while handling a chunk ends the walk before later headers are read. */
  function Walk(glb: seq<byte>, length: nat, offset: nat, rule: SliceRule,
                parse: seq<byte> -> Option<Json>, d: Decoded): Result<Decoded, GlbError>
    decreases length - offset
  {
    if length <= offset then Ok(d)
    else
      match ChunkAt(glb, offset, rule)
      case Err(e) => Err(e)
      case Ok((c, next)) =>
        match Step(d, c, parse)
        case Err(e) => Err(e)
        case Ok(d') => Walk(glb, length, next, rule, parse, d')
  }

  function FoldChunks(cs: seq<Chunk>, parse: seq<byte> -> Option<Json>, d: Decoded): Result<Decoded, GlbError>
    decreases |cs|
  {
    if cs == [] then Ok(d)
    else
      match Step(d, cs[0], parse)
      case Err(e) => Err(e)
      case Ok(d') => FoldChunks(cs[1..], parse, d')
  }

  /** When the chunk table can be walked, decoding is handling its chunks in
      order. */
  lemma {:induction false} WalkFollowsChunks(glb: seq<byte>, length: nat, offset: nat, rule: SliceRule,
                                             parse: seq<byte> -> Option<Json>, d: Decoded, cs: seq<Chunk>)
    requires Chunks(glb, length, offset, rule) == Ok(cs)
    ensures Walk(glb, length, offset, rule, parse, d) == FoldChunks(cs, parse, d)
    decreases length - offset
  {
    if offset < length {
      var (c, next) := ChunkAt(glb, offset, rule).value;
      var rest := Chunks(glb, length, next, rule).value;
      assert cs == [c] + rest;
      assert cs[1..] == rest;
      match Step(d, c, parse)
      case Err(e) =>
      case Ok(d') => WalkFollowsChunks(glb, length, next, rule, parse, d', rest);
    }
  }

  /** The source of the first buffer of an array-valued `buffers` (the
      version-2 form), if there is one. */
  function SourceOfFirstBuffer(gltf: Json): Option<seq<byte>> {
    var bs := Lookup(FieldsOf(gltf), "buffers");
    if bs.None? || !bs.value.JArr? || |bs.value.elems| == 0 then None else SourceOf(bs.value.elems[0])
  }

  /** `defined(buffers) && buffers.length > 0` on an object root. */
  predicate HasBuffers(gltf: Json) {
    gltf.JObj? &&
    var bs := Lookup(gltf.fields, "buffers");
    bs.Some? && bs.value.JArr? && |bs.value.elems| > 0
  }

  /** `buffers[0].extras._pipeline.source = bin` when both chunks were seen
      and `buffers` is a non-empty array; `buffers` of any other kind is
      treated as empty.  The assignment throws when a step of the path is
      not an object.  An array or typed array `extras` or `_pipeline` takes
      the assignment as a named property that JSON does not hold (the add
      pass has already given such an `extras` its `_pipeline`), so the tree
      is unchanged. */
  function AttachBinaryVersion2(d: Decoded): (r: Result<Option<Json>, GlbError>)
    ensures r.Ok? ==> (r.value.Some? <==> d.gltf.Some?)
    ensures d.gltf.None? || d.bin.None? ==> r == Ok(d.gltf)
    ensures d.gltf.Some? && !d.gltf.value.JObj? ==> r == Ok(d.gltf)
    ensures d.gltf.Some? && !HasBuffers(d.gltf.value) ==> r == Ok(d.gltf)
    ensures (d.gltf.Some? && d.bin.Some? && HasBuffers(d.gltf.value)
             && !Lookup(d.gltf.value.fields, "buffers").value.elems[0].JObj?) ==> r == Err(TypeError)
    ensures (d.gltf.Some? && d.bin.Some? && HasBuffers(d.gltf.value)
             && Lookup(d.gltf.value.fields, "buffers").value.elems[0].JObj?
             && HiddenExtras(Lookup(d.gltf.value.fields, "buffers").value.elems[0].fields)) ==> r == Ok(d.gltf)
  {
    if d.gltf.None? || d.bin.None? || !d.gltf.value.JObj? then Ok(d.gltf)
    else
      var fs := d.gltf.value.fields;
      var bs := Lookup(fs, "buffers");
      if !(bs.Some? && bs.value.JArr? && |bs.value.elems| > 0) then Ok(d.gltf)
      else
        var es := bs.value.elems;
        var b := es[0];
        if !b.JObj? then Err(TypeError)
        else
          var ex := Lookup(b.fields, "extras");
          if HiddenExtras(b.fields) then Ok(d.gltf)
          else if !(ex.Some? && ex.value.JObj?) then Err(TypeError)
          else
            var p := Lookup(ex.value.fields, "_pipeline");
            if p.Some? && (p.value.JArr? || p.value.JBytes?) then Ok(d.gltf)
            else if !(p.Some? && p.value.JObj?) then Err(TypeError)
            else
              var p' := Put(p.value.fields, "source", JBytes(d.bin.value));
              var ex' := Put(ex.value.fields, "_pipeline", JObj(p'));
              var b' := Put(b.fields, "extras", JObj(ex'));
              var r := JObj(Put(fs, "buffers", JArr([JObj(b')] + es[1..])));
              Ok(Some(r))
  }

  /** When the path `buffers[0].extras._pipeline` consists of objects, the
      binary chunk becomes its `source`; the other buffers and the other
      top-level properties are untouched. */
  lemma AttachVersion2Source(d: Decoded)
    requires d.gltf.Some? && d.bin.Some? && d.gltf.value.JObj?
    requires var bs := Lookup(d.gltf.value.fields, "buffers");
      bs.Some? && bs.value.JArr? && |bs.value.elems| > 0 && bs.value.elems[0].JObj?
      && var ex := Lookup(bs.value.elems[0].fields, "extras");
         ex.Some? && ex.value.JObj? && Lookup(ex.value.fields, "_pipeline").Some?
         && Lookup(ex.value.fields, "_pipeline").value.JObj?
    ensures var r := AttachBinaryVersion2(d);
      && r.Ok? && r.value.Some? && r.value.value.JObj?
      && SourceOfFirstBuffer(r.value.value) == d.bin
      && (forall k :: k != "buffers" ==> Lookup(r.value.value.fields, k) == Lookup(d.gltf.value.fields, k))
      && var es := Lookup(d.gltf.value.fields, "buffers").value.elems;
         var es' := Lookup(r.value.value.fields, "buffers").value.elems;
         |es'| == |es| && es'[1..] == es[1..]
  {
    var fs := d.gltf.value.fields;
    var es := Lookup(fs, "buffers").value.elems;
    var b := es[0];
    var ex := Lookup(b.fields, "extras").value.fields;
    var p := Lookup(ex, "_pipeline").value.fields;
    var p' := Put(p, "source", JBytes(d.bin.value));
    var ex' := Put(ex, "_pipeline", JObj(p'));
    var b' := Put(b.fields, "extras", JObj(ex'));
    var es' := [JObj(b')] + es[1..];
    var fs' := Put(fs, "buffers", JArr(es'));
    assert AttachBinaryVersion2(d) == Ok(Some(JObj(fs')));
    assert Lookup(fs', "buffers") == Some(JArr(es'));
    assert es'[0] == JObj(b') && es'[1..] == es[1..];
    assert Lookup(b', "extras") == Some(JObj(ex'));
    assert Lookup(ex', "_pipeline") == Some(JObj(p'));
    assert Lookup(p', "source") == Some(JBytes(d.bin.value));
  }

  function DecodeVersion2(glb: seq<byte>, parse: seq<byte> -> Option<Json>, rule: SliceRule): Result<Option<Json>, GlbError>
    requires 20 <= |glb|
  {
    match Walk(glb, U32(glb, 8), 12, rule, parse, Decoded(None, None))
    case Err(e) => Err(e)
    case Ok(d) => AttachBinaryVersion2(d)
  }

  /** The body of one loop iteration: read the chunk header at `byteOffset`,
      slice the payload and advance; then handle the chunk by its type. */
  method ReadChunk(glb: seq<byte>, byteOffset: nat, rule: SliceRule) returns (r: Result<(Chunk, nat), GlbError>)
    ensures r == ChunkAt(glb, byteOffset, rule)
  {
    if byteOffset % 4 != 0 || |glb| < byteOffset + 8 {
      return Err(RangeError);
    }
    var chunkLength := U32(glb, byteOffset);
    var chunkType := U32(glb, byteOffset + 4);
    var next := byteOffset + 8;
    var chunkBuffer := Payload(glb, next, chunkLength, rule);
    next := next + chunkLength;
    return Ok((Chunk(chunkType, chunkBuffer), next));
  }

  method HandleChunk(d: Decoded, c: Chunk, parse: seq<byte> -> Option<Json>) returns (r: Result<Decoded, GlbError>)
    ensures r == Step(d, c, parse)
  {
    if c.chunkType == JSON_CHUNK {
      var parsed := parse(c.payload);
      if parsed.None? {
        return Err(SyntaxError);
      }
      if !AddOk(parsed.value) {
        return Err(TypeError);
      }
      return Ok(d.(gltf := Some(Add(parsed.value))));
    } else if c.chunkType == BIN_CHUNK {
      return Ok(d.(bin := Some(c.payload)));
    }
    return Ok(d);
  }

  /** `parseGlbVersion2`: the chunk loop from offset 12 while the offset is
      below the declared length, then the attachment of the binary chunk. */
  method ParseGlbVersion2(glb: seq<byte>, parse: seq<byte> -> Option<Json>, rule: SliceRule)
    returns (r: Result<Option<Json>, GlbError>)
    requires 20 <= |glb|
    ensures r == DecodeVersion2(glb, parse, rule)
  {
    var length := U32(glb, 8);
    var byteOffset: nat := 12;
    var d := Decoded(None, None);
    while byteOffset < length
      invariant Walk(glb, length, 12, rule, parse, Decoded(None, None))
             == Walk(glb, length, byteOffset, rule, parse, d)
      decreases length - byteOffset
    {
      var chunk := ReadChunk(glb, byteOffset, rule);
      if chunk.Err? {
        return Err(chunk.error);
      }
      var (c, next) := chunk.value;
      var handled := HandleChunk(d, c, parse);
      if handled.Err? {
        return Err(handled.error);
      }
      byteOffset, d := next, handled.value;
    }
    r := AttachBinaryVersion2(d);
  }

  // ---------------------------------------------------------------------------
  // Writing (getGlb)

  /** 12-byte header, 8-byte JSON chunk header, JSON, 8-byte BIN chunk
      header, BIN. */
  function GlbLength(json: seq<byte>, bin: seq<byte>): nat {
    12 + 8 + |json| + 8 + |bin|
  }

  /** The bytes `getGlb` produces.  The BIN chunk is written even when empty. */
  function GlbLayout(json: seq<byte>, bin: seq<byte>): (r: seq<byte>)
    requires GlbLength(json, bin) < TWO_32
    ensures |r| == GlbLength(json, bin)
  {
    U32Bytes(MAGIC) + U32Bytes(2) + U32Bytes(GlbLength(json, bin))
      + U32Bytes(|json|) + U32Bytes(JSON_CHUNK) + json
      + U32Bytes(|bin|) + U32Bytes(BIN_CHUNK) + bin
  }

  /** Every field of the written layout sits where the format puts it. */
  lemma LayoutFields(json: seq<byte>, bin: seq<byte>)
    requires GlbLength(json, bin) < TWO_32
    ensures var g := GlbLayout(json, bin);
      && U32(g, 0) == MAGIC && U32(g, 4) == 2 && U32(g, 8) == |g|
      && U32(g, 12) == |json| && U32(g, 16) == JSON_CHUNK
      && g[20..20 + |json|] == json
      && U32(g, 20 + |json|) == |bin| && U32(g, 24 + |json|) == BIN_CHUNK
      && g[28 + |json|..] == bin
  {
    LayoutHeader(json, bin);
    LayoutBinHeader(json, bin);
    LayoutPayloads(json, bin);
  }

  lemma LayoutHeader(json: seq<byte>, bin: seq<byte>)
    requires GlbLength(json, bin) < TWO_32
    ensures var g := GlbLayout(json, bin);
      && U32(g, 0) == MAGIC && U32(g, 4) == 2 && U32(g, 8) == |g|
      && U32(g, 12) == |json| && U32(g, 16) == JSON_CHUNK
  {
    var g := GlbLayout(json, bin);
    var h := [U32Bytes(MAGIC), U32Bytes(2), U32Bytes(GlbLength(json, bin)), U32Bytes(|json|), U32Bytes(JSON_CHUNK)];
    var head := h[0] + h[1] + h[2] + h[3] + h[4];
    assert g[..20] == head;
    forall i | 0 <= i < 5 ensures U32(g, 4 * i) == U32(h[i], 0) {
      assert g[4 * i..4 * i + 4] == head[4 * i..4 * i + 4] == h[i];
      U32Window(g, 4 * i, h[i]);
    }
  }

  lemma LayoutBinHeader(json: seq<byte>, bin: seq<byte>)
    requires GlbLength(json, bin) < TWO_32
    ensures var g := GlbLayout(json, bin);
      U32(g, 20 + |json|) == |bin| && U32(g, 24 + |json|) == BIN_CHUNK
  {
    var g := GlbLayout(json, bin);
    var c := [U32Bytes(|bin|), U32Bytes(BIN_CHUNK)];
    var o := 20 + |json|;
    assert g[o..o + 8] == c[0] + c[1];
    assert g[o..o + 4] == c[0];
    U32Window(g, o, c[0]);
    assert g[o + 4..o + 8] == c[1];
    U32Window(g, o + 4, c[1]);
  }

  lemma LayoutPayloads(json: seq<byte>, bin: seq<byte>)
    requires GlbLength(json, bin) < TWO_32
    ensures var g := GlbLayout(json, bin);
      g[20..20 + |json|] == json && g[28 + |json|..] == bin
  {
    var g := GlbLayout(json, bin);
    var head := U32Bytes(MAGIC) + U32Bytes(2) + U32Bytes(GlbLength(json, bin)) + U32Bytes(|json|) + U32Bytes(JSON_CHUNK);
    var mid := U32Bytes(|bin|) + U32Bytes(BIN_CHUNK);
    assert g == head + json + mid + bin;
    assert g[20..20 + |json|] == json;
    assert g[28 + |json|..] == bin;
  }

  /** Walking the written bytes with the decoder's offset arithmetic visits
      exactly two chunk headers, at 12 and at `20 + |json|`, and stops at the
      total length; only the payload slices depend on the slice rule. */
  lemma LayoutChunks(json: seq<byte>, bin: seq<byte>, rule: SliceRule)
    requires GlbLength(json, bin) < TWO_32
    requires |json| % 4 == 0
    ensures var g := GlbLayout(json, bin);
      Chunks(g, |g|, 12, rule)
        == Ok([Chunk(JSON_CHUNK, Payload(g, 20, |json|, rule)), Chunk(BIN_CHUNK, Payload(g, 28 + |json|, |bin|, rule))])
  {
    var g := GlbLayout(json, bin);
    LayoutFields(json, bin);
    TwoChunks(g, |json|, |bin|, rule);
  }

  /** Any bytes whose chunk headers say "JSON chunk of `a` bytes at 12, BIN
      chunk of `b` bytes after it, nothing after that" walk as two chunks. */
  lemma TwoChunks(g: seq<byte>, a: nat, b: nat, rule: SliceRule)
    requires |g| == 28 + a + b && a % 4 == 0
    requires U32(g, 12) == a && U32(g, 16) == JSON_CHUNK
    requires U32(g, 20 + a) == b && U32(g, 24 + a) == BIN_CHUNK
    ensures Chunks(g, |g|, 12, rule)
              == Ok([Chunk(JSON_CHUNK, Payload(g, 20, a, rule)), Chunk(BIN_CHUNK, Payload(g, 28 + a, b, rule))])
  {
    var n := |g|;
    var c1 := Chunk(JSON_CHUNK, Payload(g, 20, a, rule));
    var c2 := Chunk(BIN_CHUNK, Payload(g, 28 + a, b, rule));
    assert (20 + a) % 4 == 0;
    ChunkAtHeader(g, 20 + a, 24 + a, 28 + a, rule);
    ChunkAtHeader(g, 12, 16, 20, rule);
    ChunksStep(g, n, 20 + a, rule, c2, n, []);
    assert [c2] + [] == [c2];
    ChunksStep(g, n, 12, rule, c1, 20 + a, [c2]);
    assert [c1] + [c2] == [c1, c2];
  }

  /** A 4-aligned chunk header inside the data reads as its two words: the
      length at `offset` (`lengthAt`), the type after it (`typeAt`), and the
      payload from `payloadAt` on. */
  lemma ChunkAtHeader(g: seq<byte>, offset: nat, typeAt: nat, payloadAt: nat, rule: SliceRule)
    requires offset % 4 == 0 && typeAt == offset + 4 && payloadAt == offset + 8 && payloadAt <= |g|
    ensures ChunkAt(g, offset, rule)
              == Ok((Chunk(U32(g, typeAt), Payload(g, payloadAt, U32(g, offset), rule)), payloadAt + U32(g, offset)))
  {
  }

  /** One step of the chunk walk. */
  lemma ChunksStep(g: seq<byte>, length: nat, offset: nat, rule: SliceRule, c: Chunk, next: nat, rest: seq<Chunk>)
    requires offset < length
    requires ChunkAt(g, offset, rule) == Ok((c, next))
    requires Chunks(g, length, next, rule) == Ok(rest)
    ensures Chunks(g, length, offset, rule) == Ok([c] + rest)
  {
  }

  /** `buffers` is a non-empty array whose first buffer is an object that
      carries no pipeline extras yet. */
  predicate FirstBufferUntagged(gltf: Json) {
    HasBuffers(gltf) &&
    var b := Lookup(gltf.fields, "buffers").value.elems[0];
    b.JObj? && !Tagged(b.fields)
  }

  /** With the intended slices, decoding the written bytes hands the JSON
      chunk to `parse` and keeps the BIN chunk: a round trip.  When the
      first buffer of the document is an object without pipeline extras,
      the decoded document holds the BIN chunk as that buffer's
      `extras._pipeline.source`. */
  lemma LayoutRoundTrip(json: seq<byte>, bin: seq<byte>, parse: seq<byte> -> Option<Json>)
    requires GlbLength(json, bin) < TWO_32
    requires |json| % 4 == 0
    requires parse(json).Some? && AddOk(parse(json).value)
    ensures var g := GlbLayout(json, bin);
      && HasMagic(g) && 20 <= |g| && U32(g, 4) == 2
      && Walk(g, U32(g, 8), 12, Intended, parse, Decoded(None, None))
           == Ok(Decoded(Some(Add(parse(json).value)), Some(bin)))
      && (FirstBufferUntagged(parse(json).value) ==>
            var r := DecodeVersion2(g, parse, Intended);
            r.Ok? && r.value.Some? && SourceOfFirstBuffer(r.value.value) == Some(bin))
  {
    LayoutWalk(json, bin, parse);
    var j := parse(json).value;
    if FirstBufferUntagged(j) {
      var fs := j.fields;
      LookupAdd(fs, "buffers");
      var bs := Lookup(fs, "buffers").value;
      var a := Add(j);
      assert Lookup(a.fields, "buffers") == Some(Add(bs));
      assert Add(bs).elems[0] == Add(bs.elems[0]);
      AttachVersion2Source(Decoded(Some(a), Some(bin)));
    }
  }

  /** The chunk walk of the intended round trip. */
  lemma LayoutWalk(json: seq<byte>, bin: seq<byte>, parse: seq<byte> -> Option<Json>)
    requires GlbLength(json, bin) < TWO_32
    requires |json| % 4 == 0
    requires parse(json).Some? && AddOk(parse(json).value)
    ensures var g := GlbLayout(json, bin);
      && HasMagic(g) && 20 <= |g| && U32(g, 4) == 2
      && Walk(g, U32(g, 8), 12, Intended, parse, Decoded(None, None))
           == Ok(Decoded(Some(Add(parse(json).value)), Some(bin)))
  {
    var g := GlbLayout(json, bin);
    LayoutFields(json, bin);
    LayoutChunks(json, bin, Intended);
    var cs := [Chunk(JSON_CHUNK, json), Chunk(BIN_CHUNK, bin)];
    assert Payload(g, 20, |json|, Intended) == json;
    assert Payload(g, 28 + |json|, |bin|, Intended) == bin;
    WalkFollowsChunks(g, U32(g, 8), 12, Intended, parse, Decoded(None, None), cs);
    var d1 := Decoded(Some(Add(parse(json).value)), None);
    assert Step(Decoded(None, None), cs[0], parse) == Ok(d1);
    assert cs[1..] == [cs[1]];
    assert FoldChunks(cs, parse, Decoded(None, None)) == FoldChunks([cs[1]], parse, d1);
    assert [cs[1]][1..] == [];
  }

  /** As written, the decoder never hands the written JSON chunk to `parse`,
      nor keeps a non-empty BIN chunk: the end argument `chunkLength` of
      `subarray` lies before the payload or inside it. */
  lemma LayoutLosesPayloadsAsWritten(json: seq<byte>, bin: seq<byte>)
    requires GlbLength(json, bin) < TWO_32
    requires |json| % 4 == 0
    ensures var g := GlbLayout(json, bin);
      && Chunks(g, U32(g, 8), 12, AsWritten)
           == Ok([Chunk(JSON_CHUNK, Payload(g, 20, |json|, AsWritten)), Chunk(BIN_CHUNK, Payload(g, 28 + |json|, |bin|, AsWritten))])
      && (|json| > 0 ==> Payload(g, 20, |json|, AsWritten) != json)
      && (|bin| > 0 ==> Payload(g, 28 + |json|, |bin|, AsWritten) != bin)
      && (|json| <= 20 ==> Payload(g, 20, |json|, AsWritten) == [])
  {
    var g := GlbLayout(json, bin);
    LayoutChunks(json, bin, AsWritten);
    LayoutHeader(json, bin);
    if |json| > 20 {
      assert |Payload(g, 20, |json|, AsWritten)| == |json| - 20;
    }
    if |bin| > 28 + |json| {
      assert |Payload(g, 28 + |json|, |bin|, AsWritten)| == |bin| - 28 - |json|;
    }
  }

  /** The smallest padded JSON chunk, `{}` and two spaces, with no binary
      data: the as-written decoder hands `parse` empty text. */
  lemma EmptyObjectGlbAsWritten()
    ensures var g := GlbLayout([0x7B, 0x7D, 0x20, 0x20], []);
      && |g| == 32
      && Chunks(g, U32(g, 8), 12, AsWritten) == Ok([Chunk(JSON_CHUNK, []), Chunk(BIN_CHUNK, [])])
      && Chunks(g, U32(g, 8), 12, Intended) == Ok([Chunk(JSON_CHUNK, [0x7B, 0x7D, 0x20, 0x20]), Chunk(BIN_CHUNK, [])])
  {
    var json: seq<byte> := [0x7B, 0x7D, 0x20, 0x20];
    var g := GlbLayout(json, []);
    LayoutChunks(json, [], AsWritten);
    LayoutChunks(json, [], Intended);
    LayoutFields(json, []);
  }

  // The writer writes into a freshly allocated array at a running offset.

  /** `Buffer.copy` / `writeUInt32LE` into `a` at `off`. */
  method WriteBytes(a: array<byte>, off: nat, src: seq<byte>)
    requires off + |src| <= a.Length
    modifies a
    ensures a[..off] == old(a[..off])
    ensures a[off..off + |src|] == src
  {
    var i := 0;
    while i < |src|
      invariant 0 <= i <= |src|
      invariant a[..off] == old(a[..off])
      invariant a[off..off + i] == src[..i]
    {
      a[off + i] := src[i];
      i := i + 1;
      assert a[off..off + i] == a[off..off + i - 1] + [a[off + i - 1]];
    }
    assert src[..|src|] == src;
  }

  /** One write at the running offset, extending the written prefix. */
  method Emit(a: array<byte>, off: nat, src: seq<byte>, ghost written: seq<byte>) returns (next: nat)
    requires off + |src| <= a.Length && |written| == off && a[..off] == written
    modifies a
    ensures next == off + |src|
    ensures a[..next] == written + src
  {
    WriteBytes(a, off, src);
    assert a[..off + |src|] == a[..off] + a[off..off + |src|];
    next := off + |src|;
  }

  /** A chunk: its length and type words, then its payload. */
  method WriteChunk(a: array<byte>, off: nat, chunkType: nat, payload: seq<byte>, ghost written: seq<byte>)
    returns (next: nat)
    requires chunkType < TWO_32 && |payload| < TWO_32
    requires off + 8 + |payload| <= a.Length && |written| == off && a[..off] == written
    modifies a
    ensures next == off + 8 + |payload|
    ensures a[..next] == written + U32Bytes(|payload|) + U32Bytes(chunkType) + payload
  {
    next := Emit(a, off, U32Bytes(|payload|), written);
    next := Emit(a, next, U32Bytes(chunkType), written + U32Bytes(|payload|));
    next := Emit(a, next, payload, written + U32Bytes(|payload|) + U32Bytes(chunkType));
  }

  /** `getGlb`: allocates the total length and writes the 12-byte header
      (magic, version 2, total length), the JSON chunk and the BIN chunk at a
      running offset. */
  method GetGlb(json: seq<byte>, bin: seq<byte>) returns (glb: array<byte>)
    requires GlbLength(json, bin) < TWO_32
    ensures fresh(glb)
    ensures glb[..] == GlbLayout(json, bin)
  {
    var glbLength := 12 + 8 + |json| + 8 + |bin|;
    glb := new byte[glbLength](_ => 0);
    var byteOffset := Emit(glb, 0, U32Bytes(MAGIC), []);
    byteOffset := Emit(glb, byteOffset, U32Bytes(2), U32Bytes(MAGIC));
    ghost var header := U32Bytes(MAGIC) + U32Bytes(2) + U32Bytes(glbLength);
    byteOffset := Emit(glb, byteOffset, U32Bytes(glbLength), U32Bytes(MAGIC) + U32Bytes(2));
    byteOffset := WriteChunk(glb, byteOffset, JSON_CHUNK, json, header);
    ghost var withJson := header + U32Bytes(|json|) + U32Bytes(JSON_CHUNK) + json;
    byteOffset := WriteChunk(glb, byteOffset, BIN_CHUNK, bin, withJson);
    assert glb[..] == glb[..byteOffset];
  }
}
