// The binary STL writer: an 80-byte zero header, the face count as four
// little-endian bytes, then per face its normal, the x, y, z of each of its
// vertices and two zero bytes. Floats are written as opaque 4-byte blobs.
module StlBin {
  import opened Wrappers
  import opened Faces
  import opened Mesh
  import opened Convexify
  import opened Endian
  import opened Arith

  /** The four bytes a 32-bit float occupies in the file; their content is not modelled. */
  type Float32 = s: seq<Byte> | |s| == 4 witness [0, 0, 0, 0]

  /** WriteError: the message of what was thrown, and the file name. */
  datatype WriteError = WriteError(cause: FaceError, filename: string)

  /** The bytes written so far and, when writing stopped, the error. */
  datatype Output = Output(bytes: seq<Byte>, error: Option<FaceError>)

  /** Face::normal() on a face of at most three vertices (the only faces a triangulated Model holds). */
  function FaceNormal(f: FaceValue, mv: seq<FVec4>, g: Geometry): (r: Result<FVec3, FaceError>)
    requires |f.vertices| <= 3
    ensures f.normal.Some? ==> r == Success(f.normal.value)
    ensures f.normal.None? && r.Success? ==> |f.vertices| == 3 && Indexes(f.vertices, |mv|)
  {
    if f.normal.Some? then Success(f.normal.value)
    else if |f.vertices| < 3 then Failure(ModelError(TooFewVertices))
    else if f.owner.None? then Failure(ModelError(Expired))
    else if f.vertices[0] >= |mv| then Failure(OutOfRange(f.vertices[0], |mv|))
    else if f.vertices[1] >= |mv| then Failure(OutOfRange(f.vertices[1], |mv|))
    else if f.vertices[2] >= |mv| then Failure(OutOfRange(f.vertices[2], |mv|))
    else Success(Slice3(g.cross(mv[f.vertices[0]], mv[f.vertices[1]], mv[f.vertices[2]])))
  }

  /** The outcome of Face::normal(), cached or computed, is FaceNormal. */
  lemma CachedIsFaceNormal(f: FaceValue, mv: seq<FVec4>, g: Geometry, r: Result<FVec3, FaceError>)
    requires |f.vertices| <= 3
    requires f.normal.Some? ==> r == Success(f.normal.value)
    requires f.normal.None? ==> ComputedNormal(f, mv, g, r)
    ensures r == FaceNormal(f, mv, g)
  {
    if f.normal.None? && |f.vertices| == 3 && f.owner.Some? && r.Failure? {
      var k: nat :| FirstOutOfRange(f.vertices, |mv|, k) && r.error == OutOfRange(f.vertices[k], |mv|);
    }
  }

  /** f.normal() on a face of at most three vertices. */
  method SmallFaceNormal(f: FaceValue, mv: seq<FVec4>, g: Geometry) returns (n: Result<FVec3, FaceError>)
    requires IsSmall(f)
    ensures n == FaceNormal(f, mv, g)
  {
    var updated;
    n, updated := CachedNormal(f, mv, g);
    CachedIsFaceNormal(f, mv, g, n);
  }

  /** Every entry of vs is an index into a list of n elements. */
  predicate Indexes(vs: seq<nat>, n: nat)
  {
    forall j :: 0 <= j < |vs| ==> vs[j] < n
  }

  /** x, y and z as three floats. */
  function Vec3Bytes(x: real, y: real, z: real, enc: real -> Float32): (r: seq<Byte>)
    ensures |r| == 12
  {
    enc(x) + enc(y) + enc(z)
  }

  /** The vertices of a face, each as its x, y, z (w is dropped). */
  function CornerBytes(vs: seq<nat>, mv: seq<FVec4>, enc: real -> Float32): (r: seq<Byte>)
    requires Indexes(vs, |mv|)
    ensures |r| == 12 * |vs|
  {
    if |vs| == 0 then []
    else
      var v := mv[vs[|vs| - 1]];
      CornerBytes(vs[..|vs| - 1], mv, enc) + Vec3Bytes(v.x, v.y, v.z, enc)
  }

  /** Vertex j of a face is written at offset 12 * j of its corner bytes. */
  lemma {:induction false} CornerAt(vs: seq<nat>, mv: seq<FVec4>, enc: real -> Float32, j: nat)
    requires Indexes(vs, |mv|) && j < |vs|
    ensures CornerBytes(vs, mv, enc)[12 * j..12 * j + 12] == Vec3Bytes(mv[vs[j]].x, mv[vs[j]].y, mv[vs[j]].z, enc)
  {
    var init := vs[..|vs| - 1];
    if j < |init| {
      CornerAt(init, mv, enc, j);
      assert init[j] == vs[j];
      var head := CornerBytes(init, mv, enc);
      assert CornerBytes(vs, mv, enc)[12 * j..12 * j + 12] == head[12 * j..12 * j + 12];
    }
  }

  /**
   * The vertex loop of one record. Each vertex is read through the
   * bounds-checked `at()` of the Model's vertex list, so the first index
   * out of range throws after the vertices before it have been written.
   */
  function CornersRead(vs: seq<nat>, mv: seq<FVec4>, enc: real -> Float32): (r: Output)
    ensures r.error == CornersError(vs, |mv|)
    ensures r.error.None? <==> Indexes(vs, |mv|)
    ensures r.error.None? ==> Indexes(vs, |mv|) && r.bytes == CornerBytes(vs, mv, enc)
  {
    if |vs| == 0 then Output([], None)
    else
      var init := vs[..|vs| - 1];
      var before := CornersRead(init, mv, enc);
      var v := vs[|vs| - 1];
      if before.error.Some? then before
      else if v >= |mv| then Output(before.bytes, Some(OutOfRange(v, |mv|)))
      else
        Output(before.bytes + Vec3Bytes(mv[v].x, mv[v].y, mv[v].z, enc), None)
  }

  /** The error of the vertex loop: OutOfRange for the first index not below n. */
  function CornersError(vs: seq<nat>, n: nat): Option<FaceError>
  {
    if |vs| == 0 then None
    else
      var before := CornersError(vs[..|vs| - 1], n);
      if before.Some? then before
      else if vs[|vs| - 1] >= n then Some(OutOfRange(vs[|vs| - 1], n))
      else None
  }

  /**
   * The vertex loop stops at the first index out of range, with every
   * vertex before it written.
   */
  lemma {:induction false} CornersReadStops(vs: seq<nat>, mv: seq<FVec4>, enc: real -> Float32, k: nat)
    requires FirstOutOfRange(vs, |mv|, k)
    ensures Indexes(vs[..k], |mv|)
    ensures CornersRead(vs, mv, enc) == Output(CornerBytes(vs[..k], mv, enc), Some(OutOfRange(vs[k], |mv|)))
  {
    var init := vs[..|vs| - 1];
    if k < |init| {
      assert FirstOutOfRange(init, |mv|, k);
      CornersReadStops(init, mv, enc, k);
      assert init[..k] == vs[..k];
    } else {
      assert init == vs[..k];
    }
  }

  /** One face record: normal, vertices, and the two-byte attribute count 0. */
  function Record(n: FVec3, vs: seq<nat>, mv: seq<FVec4>, enc: real -> Float32): (r: seq<Byte>)
    requires Indexes(vs, |mv|)
    ensures |r| == 14 + 12 * |vs|
  {
    Vec3Bytes(n.x, n.y, n.z, enc) + CornerBytes(vs, mv, enc) + [0, 0]
  }

  /**
   * A face record holds the normal in bytes 0..12, vertex j in bytes
   * 12 + 12 * j..24 + 12 * j, and ends with two zero bytes.
   */
  lemma RecordLayout(n: FVec3, vs: seq<nat>, mv: seq<FVec4>, enc: real -> Float32)
    requires Indexes(vs, |mv|)
    ensures var r := Record(n, vs, mv, enc);
      && r[..12] == enc(n.x) + enc(n.y) + enc(n.z)
      && (forall j :: 0 <= j < |vs| ==>
            r[12 + 12 * j..24 + 12 * j] == enc(mv[vs[j]].x) + enc(mv[vs[j]].y) + enc(mv[vs[j]].z))
      && r[12 + 12 * |vs|..] == [0, 0]
  {
    var r := Record(n, vs, mv, enc);
    var c := CornerBytes(vs, mv, enc);
    forall j | 0 <= j < |vs|
      ensures r[12 + 12 * j..24 + 12 * j] == enc(mv[vs[j]].x) + enc(mv[vs[j]].y) + enc(mv[vs[j]].z)
    {
      CornerAt(vs, mv, enc, j);
      assert r[12 + 12 * j..24 + 12 * j] == c[12 * j..12 * j + 12];
    }
  }

  /** The 80 zero bytes and the face count as four little-endian bytes. */
  function Header(count: nat): (r: seq<Byte>)
    ensures |r| == 84
  {
    seq(80, _ => 0) + Encode(Little, count, 4)
  }

  /**
   * What one face adds to the file: nothing when its normal() throws;
   * otherwise the normal, then the vertices up to the first one out of
   * range, and the two zero bytes only when every vertex was read. Only a
   * cached normal can come with an index out of range: compute_normal
   * checks every index itself.
   */
  function FaceRecord(f: FaceValue, mv: seq<FVec4>, g: Geometry, enc: real -> Float32): (out: Output)
    requires IsSmall(f)
    ensures out.error == RecordError(f, mv, g)
  {
    match FaceNormal(f, mv, g)
    case Failure(e) => Output([], Some(e))
    case Success(n) =>
      var c := CornersRead(f.vertices, mv, enc);
      Output(Vec3Bytes(n.x, n.y, n.z, enc) + c.bytes + (if c.error.None? then [0, 0] else []), c.error)
  }

  /** What one face throws: its normal()'s error, else the vertex loop's. */
  function RecordError(f: FaceValue, mv: seq<FVec4>, g: Geometry): Option<FaceError>
    requires IsSmall(f)
  {
    match FaceNormal(f, mv, g)
    case Failure(e) => Some(e)
    case Success(_) => CornersError(f.vertices, |mv|)
  }

  /**
   * A face's record is complete exactly when its normal() succeeds and
   * every vertex is in range; a failing normal() writes nothing; and only
   * a cached normal can come with a vertex out of range.
   */
  lemma FaceRecordCases(f: FaceValue, mv: seq<FVec4>, g: Geometry, enc: real -> Float32)
    requires IsSmall(f)
    ensures var out := FaceRecord(f, mv, g, enc);
      && (FaceNormal(f, mv, g).Failure? ==> out == Output([], Some(FaceNormal(f, mv, g).error)))
      && (out.error.None? <==> FaceNormal(f, mv, g).Success? && Indexes(f.vertices, |mv|))
      && (out.error.None? ==>
            Indexes(f.vertices, |mv|) && out.bytes == Record(FaceNormal(f, mv, g).value, f.vertices, mv, enc))
      && (FaceNormal(f, mv, g).Success? && !Indexes(f.vertices, |mv|) ==> f.normal.Some?)
  {
  }

  /**
   * A face whose cached normal names a vertex out of range: its record is
   * cut after the normal and the vertices before the first bad index, and
   * the error is that index's OutOfRange.
   */
  lemma FaceRecordOutOfRange(f: FaceValue, mv: seq<FVec4>, g: Geometry, enc: real -> Float32, k: nat)
    requires IsSmall(f) && f.normal.Some? && FirstOutOfRange(f.vertices, |mv|, k)
    ensures Indexes(f.vertices[..k], |mv|)
    ensures FaceRecord(f, mv, g, enc) ==
      Output(Vec3Bytes(f.normal.value.x, f.normal.value.y, f.normal.value.z, enc) + CornerBytes(f.vertices[..k], mv, enc),
             Some(OutOfRange(f.vertices[k], |mv|)))
  {
    CornersReadStops(f.vertices, mv, enc, k);
  }

  /** The error that stops the face loop: the first face's that throws. */
  ghost function RecordsErr(fs: seq<FaceValue>, mv: seq<FVec4>, g: Geometry): Option<FaceError>
    requires AllSmall(fs)
  {
    if |fs| == 0 then None
    else
      assert AllSmall(fs[..|fs| - 1]) by {
        assert forall k :: 0 <= k < |fs| - 1 ==> fs[..|fs| - 1][k] == fs[k];
      }
      var before := RecordsErr(fs[..|fs| - 1], mv, g);
      if before.Some? then before else RecordError(fs[|fs| - 1], mv, g)
  }

  /** The bytes of the face loop: every record up to and including the one that throws. */
  ghost function RecordsBytes(fs: seq<FaceValue>, mv: seq<FVec4>, g: Geometry, enc: real -> Float32): seq<Byte>
    requires AllSmall(fs)
  {
    if |fs| == 0 then []
    else
      assert AllSmall(fs[..|fs| - 1]) by {
        assert forall k :: 0 <= k < |fs| - 1 ==> fs[..|fs| - 1][k] == fs[k];
      }
      var init := fs[..|fs| - 1];
      if RecordsErr(init, mv, g).Some? then RecordsBytes(init, mv, g, enc)
      else RecordsBytes(init, mv, g, enc) + FaceRecord(fs[|fs| - 1], mv, g, enc).bytes
  }

  /** The face records written in order, stopping at the first face that throws. */
  ghost function Records(fs: seq<FaceValue>, mv: seq<FVec4>, g: Geometry, enc: real -> Float32): (out: Output)
    requires AllSmall(fs)
  {
    Output(RecordsBytes(fs, mv, g, enc), RecordsErr(fs, mv, g))
  }

  /** Writing face k after faces 0..k-1 went through. */
  lemma RecordsStep(fs: seq<FaceValue>, mv: seq<FVec4>, g: Geometry, enc: real -> Float32, k: nat)
    requires AllSmall(fs) && k < |fs|
    ensures AllSmall(fs[..k]) && AllSmall(fs[..k + 1])
    ensures RecordsErr(fs[..k], mv, g).Some? ==>
      RecordsErr(fs[..k + 1], mv, g) == RecordsErr(fs[..k], mv, g)
      && RecordsBytes(fs[..k + 1], mv, g, enc) == RecordsBytes(fs[..k], mv, g, enc)
    ensures RecordsErr(fs[..k], mv, g).None? ==>
      RecordsErr(fs[..k + 1], mv, g) == RecordError(fs[k], mv, g)
      && RecordsBytes(fs[..k + 1], mv, g, enc) == RecordsBytes(fs[..k], mv, g, enc) + FaceRecord(fs[k], mv, g, enc).bytes
  {
    SmallPrefix(fs, k);
    SmallPrefix(fs, k + 1);
    assert fs[..k + 1][..k] == fs[..k];
    assert fs[..k + 1][k] == fs[k];
  }

  /** The file after writing face k, as WriteRecord leaves it. */
  lemma StepFile(fs: seq<FaceValue>, mv: seq<FVec4>, g: Geometry, enc: real -> Float32, k: nat,
                 prefix: seq<Byte>, file0: seq<Byte>, file1: seq<Byte>)
    requires AllSmall(fs) && k < |fs| && AllSmall(fs[..k])
    requires Records(fs[..k], mv, g, enc).error.None? && file0 == prefix + Records(fs[..k], mv, g, enc).bytes
    requires file1 == file0 + FaceRecord(fs[k], mv, g, enc).bytes
    ensures AllSmall(fs[..k + 1])
    ensures Records(fs[..k + 1], mv, g, enc).error == FaceRecord(fs[k], mv, g, enc).error
    ensures file1 == prefix + Records(fs[..k + 1], mv, g, enc).bytes
  {
    RecordsStep(fs, mv, g, enc, k);
    var before := RecordsBytes(fs[..k], mv, g, enc);
    var out := FaceRecord(fs[k], mv, g, enc);
    assert RecordsErr(fs[..k + 1], mv, g) == out.error;
    assert RecordsBytes(fs[..k + 1], mv, g, enc) == before + out.bytes;
    AppendAssoc(prefix, before, out.bytes);
  }

  lemma AppendAssoc(a: seq<Byte>, b: seq<Byte>, c: seq<Byte>)
    ensures (a + b) + c == a + (b + c)
  {
  }

  /** Once a face has thrown, nothing more is written. */
  lemma {:induction false} RecordsStopped(fs: seq<FaceValue>, mv: seq<FVec4>, g: Geometry, enc: real -> Float32, k: nat)
    requires AllSmall(fs) && k <= |fs| && AllSmall(fs[..k])
    requires Records(fs[..k], mv, g, enc).error.Some?
    ensures Records(fs, mv, g, enc) == Records(fs[..k], mv, g, enc)
    decreases |fs| - k
  {
    if k < |fs| {
      RecordsStep(fs, mv, g, enc, k);
      RecordsStopped(fs, mv, g, enc, k + 1);
    } else {
      assert fs[..k] == fs;
    }
  }

  lemma SmallPrefix(fs: seq<FaceValue>, k: nat)
    requires AllSmall(fs) && k <= |fs|
    ensures AllSmall(fs[..k])
  {
    assert forall j :: 0 <= j < k ==> fs[..k][j] == fs[j];
  }

  /**
   * Writing stops exactly at the first face that throws, from its normal()
   * or from a vertex index out of range, and the error is that face's.
   */
  lemma RecordsError(fs: seq<FaceValue>, mv: seq<FVec4>, g: Geometry, enc: real -> Float32)
    requires AllSmall(fs)
    ensures Records(fs, mv, g, enc).error.None? <==>
      forall k :: 0 <= k < |fs| ==> RecordError(fs[k], mv, g).None?
    ensures Records(fs, mv, g, enc).error.Some? ==>
      exists k :: 0 <= k < |fs| && RecordError(fs[k], mv, g).Some?
        && Records(fs, mv, g, enc).error == RecordError(fs[k], mv, g)
        && (forall j :: 0 <= j < k ==> RecordError(fs[j], mv, g).None?)
  {
    var es := Errors(fs, mv, g);
    RecordsErrIsFirst(fs, mv, g);
    FirstSomeIsFirst(es);
  }

  /** The error of each face, in order. */
  ghost function Errors(fs: seq<FaceValue>, mv: seq<FVec4>, g: Geometry): (es: seq<Option<FaceError>>)
    requires AllSmall(fs)
    ensures |es| == |fs| && forall k :: 0 <= k < |fs| ==> es[k] == RecordError(fs[k], mv, g)
  {
    seq(|fs|, k requires 0 <= k < |fs| => RecordError(fs[k], mv, g))
  }

  /** The first error of a list, if any. */
  function FirstSome(es: seq<Option<FaceError>>): Option<FaceError>
  {
    if |es| == 0 then None
    else if FirstSome(es[..|es| - 1]).Some? then FirstSome(es[..|es| - 1])
    else es[|es| - 1]
  }

  /** FirstSome is None exactly when every entry is, and otherwise the first entry that is not. */
  lemma {:induction false} FirstSomeIsFirst(es: seq<Option<FaceError>>)
    ensures FirstSome(es).None? <==> forall k :: 0 <= k < |es| ==> es[k].None?
    ensures FirstSome(es).Some? ==>
      exists k :: 0 <= k < |es| && es[k].Some? && FirstSome(es) == es[k]
        && forall j :: 0 <= j < k ==> es[j].None?
  {
    if |es| > 0 {
      var init := es[..|es| - 1];
      FirstSomeIsFirst(init);
      assert forall k :: 0 <= k < |init| ==> init[k] == es[k];
    }
  }

  /** The face loop's error is the first face error. */
  lemma {:induction false} RecordsErrIsFirst(fs: seq<FaceValue>, mv: seq<FVec4>, g: Geometry)
    requires AllSmall(fs)
    ensures RecordsErr(fs, mv, g) == FirstSome(Errors(fs, mv, g))
  {
    if |fs| > 0 {
      var init := fs[..|fs| - 1];
      SmallPrefix(fs, |fs| - 1);
      RecordsErrIsFirst(init, mv, g);
      var es := Errors(fs, mv, g);
      assert es[..|es| - 1] == Errors(init, mv, g);
    }
  }

  /** When every face is a triangle and nothing throws, each record is 50 bytes. */
  lemma {:induction false} RecordsOfTriangles(fs: seq<FaceValue>, mv: seq<FVec4>, g: Geometry, enc: real -> Float32)
    requires AllSmall(fs) && forall k :: 0 <= k < |fs| ==> |fs[k].vertices| == 3
    requires Records(fs, mv, g, enc).error.None?
    ensures |Records(fs, mv, g, enc).bytes| == 50 * |fs|
    ensures forall k :: 0 <= k < |fs| ==>
      FaceNormal(fs[k], mv, g).Success? && Indexes(fs[k].vertices, |mv|)
      && Records(fs, mv, g, enc).bytes[50 * k..50 * k + 50]
         == Record(FaceNormal(fs[k], mv, g).value, fs[k].vertices, mv, enc)
  {
    if |fs| > 0 {
      var init := fs[..|fs| - 1];
      SmallPrefix(fs, |fs| - 1);
      var before := Records(init, mv, g, enc);
      RecordsOfTriangles(init, mv, g, enc);
      var out := Records(fs, mv, g, enc);
      var last := fs[|fs| - 1];
      FaceRecordCases(last, mv, g, enc);
      assert out.bytes == before.bytes + FaceRecord(last, mv, g, enc).bytes;
      forall k | 0 <= k < |fs|
        ensures FaceNormal(fs[k], mv, g).Success? && Indexes(fs[k].vertices, |mv|)
        ensures out.bytes[50 * k..50 * k + 50] == Record(FaceNormal(fs[k], mv, g).value, fs[k].vertices, mv, enc)
      {
        if k < |fs| - 1 {
          assert init[k] == fs[k];
          assert out.bytes[50 * k..50 * k + 50] == before.bytes[50 * k..50 * k + 50];
        }
      }
    }
  }

  /**
   * The file of a Model whose faces are all triangles: 84 + 50 * F bytes,
   * the header, the count modulo 2^32 as a little-endian number, and the
   * record of face k at offset 84 + 50 * k.
   */
  lemma StlLayout(fs: seq<FaceValue>, mv: seq<FVec4>, g: Geometry, enc: real -> Float32)
    requires AllSmall(fs) && forall k :: 0 <= k < |fs| ==> |fs[k].vertices| == 3
    requires Records(fs, mv, g, enc).error.None?
    ensures var file := Header(|fs|) + Records(fs, mv, g, enc).bytes;
      |file| == 84 + 50 * |fs|
      && (forall i :: 0 <= i < 80 ==> file[i] == 0)
      && LittleValue(file[80..84]) == |fs| % Pow256(4)
      && forall k :: 0 <= k < |fs| ==>
           FaceNormal(fs[k], mv, g).Success? && Indexes(fs[k].vertices, |mv|)
           && file[84 + 50 * k..84 + 50 * k + 50]
              == Record(FaceNormal(fs[k], mv, g).value, fs[k].vertices, mv, enc)
  {
    var head := Header(|fs|);
    var body := Records(fs, mv, g, enc).bytes;
    var file := head + body;
    HeaderLayout(|fs|);
    RecordsOfTriangles(fs, mv, g, enc);
    assert file[80..84] == head[80..84];
    forall k | 0 <= k < |fs|
      ensures file[84 + 50 * k..84 + 50 * k + 50] == body[50 * k..50 * k + 50]
    {
    }
  }

  /** The header is 80 zeros, then the count modulo 2^32 as a little-endian number. */
  lemma HeaderLayout(count: nat)
    ensures forall i :: 0 <= i < 80 ==> Header(count)[i] == 0
    ensures LittleValue(Header(count)[80..84]) == count % Pow256(4)
  {
    assert Header(count)[80..84] == Encode(Little, count, 4);
    EncodeRoundTrip(count, 4);
  }

  /** Model::create(other)'s faces: the same faces, now owned by the copy. */
  function Reowned(fs: seq<FaceValue>, owner: Option<object>): (r: seq<FaceValue>)
    ensures |r| == |fs| && forall k :: 0 <= k < |fs| ==> r[k] == fs[k].(owner := owner)
  {
    seq(|fs|, k requires 0 <= k < |fs| => fs[k].(owner := owner))
  }

  /** The writer: the file it appends to, and whether it is open. */
  class StlBinWriter {
    const filename: string
    const isOpen: bool
    var file: seq<Byte>

    constructor (filename: string, isOpen: bool)
      ensures this.filename == filename && this.isOpen == isOpen && file == []
    {
      this.filename, this.isOpen, file := filename, isOpen, [];
    }

    /**
     * STLBinWriter::operator(): triangulates a copy of the Model (the
     * original is not modified: nothing of it is in the modifies clause),
     * then writes the header, the count and the records. An error from
     * triangulation or from a face's normal() becomes a WriteError with
     * the file name, with whatever was written before it left in the file.
     * A closed file is left alone.
     */
    method Write(orig: Model, rule: SideRule, side: SideTest, g: Geometry, enc: real -> Float32)
      returns (r: Outcome<WriteError>, ghost copy: Model, ghost convex: seq<FaceValue>)
      requires orig.Valid()
      modifies this`file
      ensures fresh(copy) && copy.Valid() && copy.vertices == orig.vertices
      ensures !isOpen ==> r == Pass && file == old(file) && copy.faces == Reowned(orig.faces, Some(copy as object))
      ensures isOpen && orig.isTriangulated ==> copy.faces == Reowned(orig.faces, Some(copy as object))
      ensures isOpen && !orig.isTriangulated && copy.isTriangulated ==>
        ConvexPieces(convex, Reowned(orig.faces, Some(copy as object))) && ZigZagPieces(copy.faces, convex)
      ensures isOpen && !copy.isTriangulated ==> file == old(file) && r.Fail? && r.error.filename == filename
      ensures isOpen && !copy.isTriangulated && r.Fail? ==> r.error.cause == ModelError(FaceTooLarge) || !orig.isValidated
      ensures isOpen && copy.isTriangulated ==> AllSmall(copy.faces)
      ensures isOpen && copy.isTriangulated ==>
        var out := Records(copy.faces, copy.vertices, g, enc);
        file == old(file) + Header(|copy.faces|) + out.bytes
        && r == if out.error.Some? then Fail(WriteError(out.error.value, filename)) else Pass
    {
      if !isOpen {
        var model := new Model.Copy(orig);
        return Pass, model, model.faces;
      }
      var model, t;
      model, t, convex := TriangulatedCopy(orig, rule, side);
      copy := model;
      if t.Fail? {
        return Fail(WriteError(t.error, filename)), copy, convex;
      }
      TriangulatedSmall(model);
      r := WriteFaces(model.faces, model.vertices, g, enc);
    }

    /** The 80 zero bytes, then the count as four little-endian bytes. */
    method WriteHeader(count: nat)
      modifies this`file
      ensures file == old(file) + Header(count)
    {
      var zeros := seq(80, _ => 0);
      file := file + zeros;
      var trinum := new Byte[4];
      Uint2Bytes(Little, count % Pow256(8), 8, trinum, 4);
      SameLowBytes(count, 8, 4);
      file := file + trinum[..];
    }

    /** Face k of fs after faces 0..k-1 went through. */
    method WriteFace(fs: seq<FaceValue>, mv: seq<FVec4>, g: Geometry, enc: real -> Float32, k: nat,
                     ghost prefix: seq<Byte>)
      returns (stop: Option<FaceError>)
      requires AllSmall(fs) && k < |fs| && AllSmall(fs[..k])
      requires Records(fs[..k], mv, g, enc).error.None?
      requires file == prefix + Records(fs[..k], mv, g, enc).bytes
      modifies this`file
      ensures AllSmall(fs[..k + 1])
      ensures Records(fs[..k + 1], mv, g, enc).error == stop
      ensures file == prefix + Records(fs[..k + 1], mv, g, enc).bytes
    {
      ghost var file0 := file;
      stop := WriteRecord(fs[k], mv, g, enc);
      StepFile(fs, mv, g, enc, k, prefix, file0, file);
    }

    /**
     * One face: its normal(), then its vertices, each read with a bounds
     * check, then the two zero bytes. What has been written stays in the
     * file when something throws.
     */
    method WriteRecord(f: FaceValue, mv: seq<FVec4>, g: Geometry, enc: real -> Float32)
      returns (stop: Option<FaceError>)
      requires IsSmall(f)
      modifies this`file
      ensures file == old(file) + FaceRecord(f, mv, g, enc).bytes
      ensures stop == FaceRecord(f, mv, g, enc).error
    {
      var n := SmallFaceNormal(f, mv, g);
      if n.Failure? {
        return Some(n.error);
      }
      file := file + Vec3Bytes(n.value.x, n.value.y, n.value.z, enc);
      stop := WriteCorners(f.vertices, mv, enc);
      if stop.None? {
        file := file + [0, 0];
      }
    }

    /** The vertex loop of one record. */
    method WriteCorners(vs: seq<nat>, mv: seq<FVec4>, enc: real -> Float32) returns (stop: Option<FaceError>)
      modifies this`file
      ensures file == old(file) + CornersRead(vs, mv, enc).bytes
      ensures stop == CornersRead(vs, mv, enc).error
    {
      var k := 0;
      while k < |vs|
        invariant k <= |vs| && Indexes(vs[..k], |mv|)
        invariant file == old(file) + CornerBytes(vs[..k], mv, enc)
      {
        var v := vs[k];
        if v >= |mv| {
          CornersReadStops(vs, mv, enc, k);
          return Some(OutOfRange(v, |mv|));
        }
        assert vs[..k + 1][..k] == vs[..k];
        file := file + Vec3Bytes(mv[v].x, mv[v].y, mv[v].z, enc);
        k := k + 1;
      }
      assert vs[..k] == vs;
      stop := None;
    }

    /** The header and the records of a triangulated Model's faces. */
    method WriteFaces(fs: seq<FaceValue>, mv: seq<FVec4>, g: Geometry, enc: real -> Float32)
      returns (r: Outcome<WriteError>)
      requires AllSmall(fs)
      modifies this`file
      ensures var out := Records(fs, mv, g, enc);
        file == old(file) + Header(|fs|) + out.bytes
        && r == if out.error.Some? then Fail(WriteError(out.error.value, filename)) else Pass
    {
      WriteHeader(|fs|);
      var k := 0;
      while k < |fs|
        invariant k <= |fs| && AllSmall(fs[..k])
        invariant Records(fs[..k], mv, g, enc).error.None?
        invariant file == old(file) + Header(|fs|) + Records(fs[..k], mv, g, enc).bytes
      {
        var stop := WriteFace(fs, mv, g, enc, k, old(file) + Header(|fs|));
        if stop.Some? {
          RecordsStopped(fs, mv, g, enc, k + 1);
          return Fail(WriteError(stop.value, filename));
        }
        k := k + 1;
      }
      assert fs[..k] == fs;
      r := Pass;
    }
  }

  /**
   * Model::create(orig), then triangulate() on the copy unless it is
   * already triangulated.
   */
  method TriangulatedCopy(orig: Model, rule: SideRule, side: SideTest)
    returns (model: Model, t: Outcome<FaceError>, ghost convex: seq<FaceValue>)
    requires orig.Valid()
    ensures fresh(model) && model.Valid() && model.vertices == orig.vertices
    ensures t.Pass? <==> model.isTriangulated
    ensures orig.isTriangulated ==> t == Pass && model.faces == Reowned(orig.faces, Some(model as object))
    ensures !orig.isTriangulated && t.Pass? ==>
      ConvexPieces(convex, Reowned(orig.faces, Some(model as object))) && ZigZagPieces(model.faces, convex)
    ensures t.Fail? ==> t.error == ModelError(FaceTooLarge) || !orig.isValidated
  {
    model := new Model.Copy(orig);
    ghost var reowned := Reowned(orig.faces, Some(model as object));
    assert model.faces == reowned;
    convex := model.faces;
    t := Pass;
    if !model.isTriangulated {
      t, convex := model.Triangulate(rule, side);
    }
  }

  /** A triangulated Model holds faces of at most three vertices. */
  lemma TriangulatedSmall(m: Model)
    requires m.Valid() && m.isTriangulated
    ensures AllSmall(m.faces)
  {
  }

  /** The count is a size_t: its low bytes are the same before and after reducing it to the type's width. */
  lemma SameLowBytes(n: nat, width: nat, nbytes: nat)
    requires nbytes <= width
    ensures Encode(Little, n % Pow256(width), nbytes) == Encode(Little, n, nbytes)
  {
    var m := n % Pow256(width);
    PowSplit(nbytes, width - nbytes);
    ModMod(n, Pow256(nbytes), Pow256(width - nbytes));
    EncodeLittleIsDigits(m, nbytes);
    EncodeLittleIsDigits(n, nbytes);
    LittleValueOfDigits(m, nbytes);
    LittleValueOfDigits(n, nbytes);
    DigitsOfLittleValue(LittleDigits(m, nbytes));
    DigitsOfLittleValue(LittleDigits(n, nbytes));
  }

  /** Pow256(a + b) == Pow256(a) * Pow256(b). */
  lemma {:induction false} PowSplit(a: nat, b: nat)
    ensures Pow256(a + b) == Pow256(a) * Pow256(b)
    decreases b
  {
    if b > 0 {
      PowSplit(a, b - 1);
      var A, B := Pow256(a), Pow256(b - 1);
      assert Pow256(a + b) == 256 * (A * B);
      MulAssoc(256, A, B);
      MulAssoc(A, 256, B);
      assert Pow256(b) == 256 * B;
    }
  }

  /** Reducing modulo a * b, then modulo a, is reducing modulo a. */
  lemma ModMod(n: nat, a: nat, b: nat)
    requires a > 0 && b > 0
    ensures (n % (a * b)) % a == n % a
  {
    MulPos(a, b);
    DivMod(n, a * b);
    var q, r := n / (a * b), n % (a * b);
    DivMod(r, a);
    var s, t := r / a, r % a;
    Regroup(q, a, b, s, t);
    DivUnique(n, a, q * b + s, t);
  }
}
