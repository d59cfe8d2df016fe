/** A point set together with an ordered list of triangles over it, with validation and a binary codec. */
module TriangleSets {
  import opened Errors
  import opened Bytes
  import opened DataTypes
  import opened PointSets

  /** Every vertex index of the triangle names one of `n` points. */
  predicate InRange(t: Triangle, n: int) {
    0 <= t.a < n && 0 <= t.b < n && 0 <= t.c < n
  }

  /** Some stored triangle equals `t`, in any vertex order. */
  predicate Contains(ts: seq<Triangle>, t: Triangle) {
    exists k :: 0 <= k < |ts| && SameTriangle(ts[k], t)
  }

  /** No two stored triangles are equal, in any vertex order. */
  predicate NoRepeatedTriangle(ts: seq<Triangle>) {
    forall i, j :: 0 <= i < j < |ts| ==> !SameTriangle(ts[i], ts[j])
  }

  /** What the constructor and the mutators check: indices in range, distinct vertices, no repeated triangle. */
  predicate WellFormed(n: int, ts: seq<Triangle>) {
    (forall i :: 0 <= i < |ts| ==> InRange(ts[i], n) && Distinct(ts[i])) && NoRepeatedTriangle(ts)
  }

  /** The position of the first stored triangle equal to `t`. */
  function FindSame(ts: seq<Triangle>, t: Triangle): (k: nat)
    requires Contains(ts, t)
    ensures k < |ts| && SameTriangle(ts[k], t)
    ensures forall j :: 0 <= j < k ==> !SameTriangle(ts[j], t)
  {
    if SameTriangle(ts[0], t) then 0
    else
      assert Contains(ts[1..], t) by {
        var k :| 0 <= k < |ts| && SameTriangle(ts[k], t);
        assert ts[1..][k - 1] == ts[k];
      }
      1 + FindSame(ts[1..], t)
  }

  /** The abstract value of a Triangles object. */
  datatype Contents = Contents(points: seq<Point>, triangles: seq<Triangle>)

  /**
   * `Triangles.__eq__` on values: the point sets are equal and the triangle lists agree position by
   * position, each pair compared as Triangle equality does (ignoring vertex order).
   */
  predicate SameContents(x: Contents, y: Contents) {
    x.points == y.points &&
    |x.triangles| == |y.triangles| &&
    forall i :: 0 <= i < |x.triangles| ==> SameTriangle(x.triangles[i], y.triangles[i])
  }

  /** Equality of Triangles values is reflexive, symmetric and transitive, and is sensitive to order. */
  lemma SameContentsEquivalence(x: Contents, y: Contents, z: Contents)
    ensures SameContents(x, x)
    ensures SameContents(x, y) ==> SameContents(y, x)
    ensures SameContents(x, y) && SameContents(y, z) ==> SameContents(x, z)
  {
  }

  /** Order and multiplicity matter: one triangle is not equal to that triangle followed by a rotation of it. */
  lemma SameContentsCountsTriangles(pts: seq<Point>)
    ensures !SameContents(Contents(pts, [Triangle(0, 1, 2)]),
                          Contents(pts, [Triangle(0, 1, 2), Triangle(1, 2, 0)]))
  {
  }

  // ---------------------------------------------------------------------------------------------
  // Binary codec: the point-set block, a u32 triangle count M, then three u32 indices per triangle.
  // ---------------------------------------------------------------------------------------------

  /** Every index fits the u32 field. */
  predicate IndicesFitU32(ts: seq<Triangle>) {
    forall i :: 0 <= i < |ts| ==> InRange(ts[i], TwoTo32)
  }

  function EncodeTriangle(t: Triangle): (b: seq<Byte>)
    requires InRange(t, TwoTo32)
    ensures |b| == 12
  {
    PackU32(t.a) + PackU32(t.b) + PackU32(t.c)
  }

  /** The triangle block: twelve bytes per triangle, vertices in construction order. */
  function EncodeTriangleList(ts: seq<Triangle>): (b: seq<Byte>)
    requires IndicesFitU32(ts)
    ensures |b| == 12 * |ts|
  {
    if ts == [] then [] else EncodeTriangle(ts[0]) + EncodeTriangleList(ts[1..])
  }

  function DecodeTriangle(b: seq<Byte>): Triangle
    requires |b| == 12
  {
    Triangle(UnpackU32(b[..4]), UnpackU32(b[4..8]), UnpackU32(b[8..]))
  }

  /** Reads a triangle block back, twelve bytes at a time. */
  function DecodeTriangleList(b: seq<Byte>): (ts: seq<Triangle>)
    requires |b| % 12 == 0
    ensures 12 * |ts| == |b|
  {
    if b == [] then [] else [DecodeTriangle(b[..12])] + DecodeTriangleList(b[12..])
  }

  /** Triangle k of a decoded block comes from bytes 12k .. 12k+12. */
  lemma {:induction false} DecodeTriangleListAt(b: seq<Byte>, k: nat)
    requires |b| % 12 == 0 && k < |b| / 12
    ensures 12 * k + 12 <= |b|
    ensures DecodeTriangleList(b)[k] == DecodeTriangle(b[12 * k .. 12 * k + 12])
  {
    var ts := DecodeTriangleList(b);
    assert ts == [DecodeTriangle(b[..12])] + DecodeTriangleList(b[12..]);
    if k > 0 {
      var rest := b[12..];
      DecodeTriangleListAt(rest, k - 1);
      assert ts[k] == DecodeTriangleList(rest)[k - 1];
      var j := 12 * (k - 1);
      assert 12 + j == 12 * k;
      assert rest[j .. j + 12] == b[12 * k .. 12 * k + 12];
    }
  }

  /** `Triangles.to_bytes`: a count or index that does not fit the u32 field raises StructError. */
  function EncodeTriangles(v: Contents): (r: Result<seq<Byte>>)
    ensures r.Ok? <==> |v.points| < TwoTo32 && |v.triangles| < TwoTo32 && IndicesFitU32(v.triangles)
    ensures r.Err? ==> r.error == StructError
    ensures r.Ok? ==> |r.value| == 8 + 8 * |v.points| + 12 * |v.triangles|
  {
    match EncodePointSet(v.points)
    case Err(e) => Err(e)
    case Ok(pb) =>
      if |v.triangles| >= TwoTo32 || !IndicesFitU32(v.triangles) then Err(StructError)
      else Ok(pb + PackU32(|v.triangles|) + EncodeTriangleList(v.triangles))
  }

  /**
   * `Triangles.from_bytes`: the point-set block is decoded by its own rule, then the triangle count
   * and block; a short or mis-sized stream, a bad point block, or a triangle list the constructor
   * would refuse (index out of range, repeated vertex, repeated triangle) is a ValueError.
   */
  function DecodeTriangles(data: seq<Byte>): (r: Result<Contents>)
    ensures |data| < 4 ==> r == Err(ValueError)
    ensures r.Err? ==> r.error == ValueError
    ensures r.Ok? ==> NoDuplicates(r.value.points) && WellFormed(|r.value.points|, r.value.triangles)
    ensures r.Ok? ==> |data| == 8 + 8 * |r.value.points| + 12 * |r.value.triangles|
  {
    if |data| < 4 then Err(ValueError)
    else
      var pointsEnd := 4 + 8 * U32At(data, 0);
      if |data| < pointsEnd + 4 then Err(ValueError)
      else
        match DecodePointSet(data[..pointsEnd])
        case Err(e) => Err(e)
        case Ok(pts) =>
          var m := U32At(data, pointsEnd);
          if |data| != pointsEnd + 4 + 12 * m then Err(ValueError)
          else
            var ts := DecodeTriangleList(data[pointsEnd + 4..]);
            if WellFormed(|pts|, ts) then Ok(Contents(pts, ts)) else Err(ValueError)
  }

  lemma {:induction false} DecodeEncodeTriangleList(ts: seq<Triangle>)
    requires IndicesFitU32(ts)
    ensures DecodeTriangleList(EncodeTriangleList(ts)) == ts
  {
    if ts != [] {
      var b := EncodeTriangleList(ts);
      var t := ts[0];
      assert b[..12] == EncodeTriangle(t);
      assert b[12..] == EncodeTriangleList(ts[1..]);
      var e := EncodeTriangle(t);
      assert e[..4] == PackU32(t.a) && e[4..8] == PackU32(t.b) && e[8..] == PackU32(t.c);
      DecodeEncodeTriangleList(ts[1..]);
      assert [ts[0]] + ts[1..] == ts;
    }
  }

  lemma {:induction false} EncodeDecodeTriangleList(b: seq<Byte>)
    requires |b| % 12 == 0
    ensures IndicesFitU32(DecodeTriangleList(b))
    ensures EncodeTriangleList(DecodeTriangleList(b)) == b
  {
    if b != [] {
      var ts := DecodeTriangleList(b);
      EncodeDecodeTriangleList(b[12..]);
      assert ts[1..] == DecodeTriangleList(b[12..]);
      var c := b[..12];
      PackUnpack(c[..4]);
      PackUnpack(c[4..8]);
      PackUnpack(c[8..]);
      assert c == c[..4] + c[4..8] + c[8..];
      assert EncodeTriangle(ts[0]) == c;
      assert b == c + b[12..];
    }
  }

  /** The point-set block of an encoding is the point set's own encoding. */
  lemma EncodingLayout(v: Contents)
    requires EncodeTriangles(v).Ok?
    ensures var data := EncodeTriangles(v).value;
            var pointsEnd := 4 + 8 * |v.points|;
            U32At(data, 0) == |v.points| &&
            EncodePointSet(v.points) == Ok(data[..pointsEnd]) &&
            U32At(data, pointsEnd) == |v.triangles| &&
            data[pointsEnd + 4..] == EncodeTriangleList(v.triangles)
  {
    var data := EncodeTriangles(v).value;
    var pb := EncodePointSet(v.points).value;
    assert data == pb + PackU32(|v.triangles|) + EncodeTriangleList(v.triangles);
    assert data[..4] == pb[..4];
    assert data[..|pb|] == pb;
    assert data[|pb|..|pb| + 4] == PackU32(|v.triangles|);
  }

  /** Round trip: a well-formed value that fits the wire format decodes back to itself. */
  lemma TrianglesRoundTrip(v: Contents)
    requires NoDuplicates(v.points) && WellFormed(|v.points|, v.triangles)
    requires |v.points| < TwoTo32 && |v.triangles| < TwoTo32
    ensures EncodeTriangles(v).Ok? && DecodeTriangles(EncodeTriangles(v).value) == Ok(v)
  {
    assert IndicesFitU32(v.triangles);
    var data := EncodingFacts(v);
    DecodeEncodeTriangleList(v.triangles);
    DecodeKnownLayout(data, v.points, |v.triangles|);
  }

  /** The encoding is canonical: whatever decodes re-encodes to the very same bytes. */
  lemma TrianglesCanonical(data: seq<Byte>)
    requires DecodeTriangles(data).Ok?
    ensures EncodeTriangles(DecodeTriangles(data).value) == Ok(data)
  {
    var v := DecodeTriangles(data).value;
    var pointsEnd := DecodedLayout(data);
    PointSetCanonical(data[..pointsEnd]);
    ReassembleStream(data, pointsEnd, v.points, v.triangles);
  }

  /** A stream cut into a point block, a count and a triangle block re-encodes from what those decode to. */
  lemma ReassembleStream(data: seq<Byte>, pointsEnd: nat, pts: seq<Point>, ts: seq<Triangle>)
    requires pointsEnd + 4 <= |data| && (|data| - pointsEnd - 4) % 12 == 0
    requires EncodePointSet(pts) == Ok(data[..pointsEnd])
    requires U32At(data, pointsEnd) == |ts| && ts == DecodeTriangleList(data[pointsEnd + 4..])
    ensures EncodeTriangles(Contents(pts, ts)) == Ok(data)
  {
    var pb, cb, tb := data[..pointsEnd], data[pointsEnd..pointsEnd + 4], data[pointsEnd + 4..];
    EncodeDecodeTriangleList(tb);
    assert EncodeTriangleList(ts) == tb;
    PackUnpack(cb);
    assert PackU32(|ts|) == cb;
    EncodeAssembled(Contents(pts, ts), pb);
    CutInThree(data, pointsEnd, pointsEnd + 4);
  }

  lemma CutInThree(s: seq<Byte>, i: nat, j: nat)
    requires i <= j <= |s|
    ensures s == s[..i] + s[i..j] + s[j..]
  {
  }

  /** Where the blocks of a decodable stream sit, and what each decodes to. */
  lemma DecodedLayout(data: seq<Byte>) returns (pointsEnd: nat)
    requires DecodeTriangles(data).Ok?
    ensures pointsEnd + 4 <= |data| && pointsEnd == 4 + 8 * U32At(data, 0)
    ensures var v := DecodeTriangles(data).value;
            DecodePointSet(data[..pointsEnd]) == Ok(v.points) &&
            (|data| - pointsEnd - 4) % 12 == 0 &&
            v.triangles == DecodeTriangleList(data[pointsEnd + 4..]) &&
            U32At(data, pointsEnd) == |v.triangles|
  {
    pointsEnd := 4 + 8 * U32At(data, 0);
    var m: nat := U32At(data, pointsEnd);
    assert |data| == pointsEnd + 4 + 12 * m;
    MultipleOfTwelve(m);
  }

  /** Encoding a value whose point block and triangle block fit is their concatenation with the count. */
  lemma EncodeAssembled(v: Contents, pb: seq<Byte>)
    requires EncodePointSet(v.points) == Ok(pb)
    requires |v.triangles| < TwoTo32 && IndicesFitU32(v.triangles)
    ensures EncodeTriangles(v) == Ok(pb + PackU32(|v.triangles|) + EncodeTriangleList(v.triangles))
  {
  }

  /** Decoding a stream whose point block and triangle count are known reduces to the constructor checks. */
  lemma DecodeKnownLayout(data: seq<Byte>, pts: seq<Point>, m: nat)
    requires |data| >= 4
    requires var pointsEnd := 4 + 8 * U32At(data, 0);
             |data| == pointsEnd + 4 + 12 * m &&
             DecodePointSet(data[..pointsEnd]) == Ok(pts) &&
             U32At(data, pointsEnd) == m
    ensures var ts := DecodeTriangleList(data[8 + 8 * U32At(data, 0)..]);
            DecodeTriangles(data) == if WellFormed(|pts|, ts) then Ok(Contents(pts, ts)) else Err(ValueError)
  {
  }

  lemma MultipleOfTwelve(m: nat)
    ensures (12 * m) % 12 == 0 && (12 * m) / 12 == m
  {
  }

  /** A triangle list whose last triangle names a missing point is not well formed. */
  lemma LastOutOfRange(n: nat, ts: seq<Triangle>)
    requires |ts| > 0 && ts[|ts| - 1].c >= n
    ensures !WellFormed(n, ts)
  {
    assert !InRange(ts[|ts| - 1], n);
  }

  /** A triangle block whose last byte is 0xFF ends with a triangle whose third index is at least 0xFF000000. */
  lemma LastIndexOfCorruptedBlock(block: seq<Byte>)
    requires |block| % 12 == 0 && |block| > 0 && block[|block| - 1] == 0xFF
    ensures var ts := DecodeTriangleList(block);
            |ts| > 0 && ts[|ts| - 1].c >= 0xFF00_0000
  {
    var m := |block| / 12;
    DecodeTriangleListAt(block, m - 1);
    var tail := block[12 * (m - 1) .. 12 * m];
    assert tail[8..][3] == 0xFF;
  }

  /** The stream with its last byte overwritten by b. */
  function WithLastByte(data: seq<Byte>, b: Byte): (r: seq<Byte>)
    requires |data| > 0
    ensures |r| == |data| && r[|r| - 1] == b
    ensures forall i :: 0 <= i < |data| - 1 ==> r[i] == data[i]
  {
    data[..|data| - 1] + [b]
  }

  /** Replacing the last byte keeps the length, the leading count and the point block, and the triangle count. */
  lemma ReplaceLastByte(data: seq<Byte>, pointsEnd: nat)
    requires 4 <= pointsEnd && pointsEnd + 4 < |data|
    ensures var bad := WithLastByte(data, 0xFF);
            |bad| == |data| &&
            U32At(bad, 0) == U32At(data, 0) &&
            bad[..pointsEnd] == data[..pointsEnd] &&
            U32At(bad, pointsEnd) == U32At(data, pointsEnd) &&
            var block := bad[pointsEnd + 4..];
            |block| > 0 && block[|block| - 1] == 0xFF
  {
    var bad := WithLastByte(data, 0xFF);
    assert bad[..4] == data[..4];
    assert bad[..pointsEnd] == data[..pointsEnd];
    assert bad[pointsEnd..pointsEnd + 4] == data[pointsEnd..pointsEnd + 4];
  }

  /** A stream with a valid point block and triangle count, whose last byte is set to 0xFF, is refused. */
  lemma CorruptedStreamRejected(data: seq<Byte>, pts: seq<Point>, m: nat)
    requires |pts| <= 0xFF00_0000 && m > 0
    requires |data| == 8 + 8 * |pts| + 12 * m
    requires U32At(data, 0) == |pts| && U32At(data, 4 + 8 * |pts|) == m
    requires DecodePointSet(data[..4 + 8 * |pts|]) == Ok(pts)
    ensures DecodeTriangles(WithLastByte(data, 0xFF)) == Err(ValueError)
  {
    var pointsEnd := 4 + 8 * |pts|;
    ReplaceLastByte(data, pointsEnd);
    var bad := WithLastByte(data, 0xFF);
    DecodeKnownLayout(bad, pts, m);
    var block := bad[pointsEnd + 4..];
    assert |block| == 12 * m;
    MultipleOfTwelve(m);
    LastIndexOfCorruptedBlock(block);
    LastOutOfRange(|pts|, DecodeTriangleList(block));
  }

  /**
   * Overwriting the last byte of an encoding with 0xFF is detected: that byte is the high byte of
   * the last triangle's third index, which then names a point that does not exist. This holds for
   * every encodable value with at least one triangle, valid or not.
   */
  lemma CorruptedLastByteRejected(v: Contents)
    requires NoDuplicates(v.points) && IndicesFitU32(v.triangles)
    requires |v.points| <= 0xFF00_0000 && 0 < |v.triangles| < TwoTo32
    ensures EncodeTriangles(v).Ok?
    ensures var data := EncodeTriangles(v).value;
            |data| > 0 && DecodeTriangles(WithLastByte(data, 0xFF)) == Err(ValueError)
  {
    var data := EncodingFacts(v);
    CorruptedStreamRejected(data, v.points, |v.triangles|);
  }

  /** The facts about an encoding that the corrupted-byte argument needs. */
  lemma EncodingFacts(v: Contents) returns (data: seq<Byte>)
    requires NoDuplicates(v.points) && IndicesFitU32(v.triangles)
    requires |v.points| < TwoTo32 && |v.triangles| < TwoTo32
    ensures EncodeTriangles(v) == Ok(data)
    ensures var pointsEnd := 4 + 8 * |v.points|;
            |data| == 8 + 8 * |v.points| + 12 * |v.triangles| &&
            U32At(data, 0) == |v.points| && U32At(data, pointsEnd) == |v.triangles| &&
            DecodePointSet(data[..pointsEnd]) == Ok(v.points) &&
            data[pointsEnd + 4..] == EncodeTriangleList(v.triangles)
  {
    data := EncodeTriangles(v).value;
    EncodingLayout(v);
    PointSetRoundTrip(v.points);
  }

  /** The shortest input in the tests, three bytes, is rejected. */
  lemma TooShortRejected()
    ensures DecodeTriangles([0x00, 0x01, 0x02]) == Err(ValueError)
    ensures DecodePointSet([0x00, 0x01, 0x02]) == Err(ValueError)
  {
  }

  /**
   * Deleting a slot from a valid triangle list leaves a valid list in which no triangle equals
   * the deleted one.
   */
  lemma DeleteSlot(n: int, ts: seq<Triangle>, k: int)
    requires WellFormed(n, ts) && 0 <= k < |ts|
    ensures WellFormed(n, ts[..k] + ts[k + 1..])
    ensures forall t :: SameTriangle(ts[k], t) ==> !Contains(ts[..k] + ts[k + 1..], t)
  {
    var rest := ts[..k] + ts[k + 1..];
    assert forall j :: 0 <= j < |rest| ==> rest[j] == if j < k then ts[j] else ts[j + 1];
    forall t | SameTriangle(ts[k], t)
      ensures !Contains(rest, t)
    {
      forall j | 0 <= j < |rest|
        ensures !SameTriangle(rest[j], t)
      {
        if j < k {
          assert !SameTriangle(ts[j], ts[k]);
        } else {
          assert !SameTriangle(ts[k], ts[j + 1]);
        }
      }
    }
  }

  // ---------------------------------------------------------------------------------------------
  // The mutable container
  // ---------------------------------------------------------------------------------------------

  /** The argument of `remove_triangle`: a slot index or a triangle value. */
  datatype TriangleRef = AtIndex(index: int) | EqualTo(triangle: Triangle)

  class Triangles {
    /** The vertex pool (the `points` property). */
    const points: PointSet
    /** The triangles, in insertion order. */
    var triangles: seq<Triangle>

    ghost predicate Valid()
      reads this, points
    {
      points.Valid() && WellFormed(|points.points|, triangles)
    }

    /** The abstract value: the points and the triangle list. */
    ghost function Value(): Contents
      reads this, points
    {
      Contents(points.points, triangles)
    }

    /** Wraps an existing point set and a triangle list that already satisfy the checks. */
    constructor Wrap(ps: PointSet, ts: seq<Triangle>)
      requires ps.Valid() && WellFormed(|ps.points|, ts)
      ensures Valid() && points == ps && triangles == ts
    {
      points := ps;
      triangles := ts;
    }

    /**
     * `Triangles(points, triangles)`: a repeated point, a vertex index out of range, a triangle with
     * a repeated vertex or a repeated triangle raises ValueError.
     */
    static method Create(pts: seq<Point>, ts: seq<Triangle>) returns (r: Result<Triangles>)
      ensures NoDuplicates(pts) && WellFormed(|pts|, ts) ==>
                r.Ok? && fresh(r.value) && fresh(r.value.points) && r.value.Valid() &&
                r.value.Value() == Contents(pts, ts)
      ensures !(NoDuplicates(pts) && WellFormed(|pts|, ts)) ==> r == Err(ValueError)
    {
      var ps := PointSet.FromPoints(pts);
      if ps.Err? {
        return Err(ValueError);
      }
      if !WellFormed(|pts|, ts) {
        return Err(ValueError);
      }
      var t := new Triangles.Wrap(ps.value, ts);
      return Ok(t);
    }

    /** `nb_triangles`: the valid slots are exactly 0 .. n-1. */
    function NbTriangles(): (n: nat)
      reads this
      ensures forall i: int :: GetTriangle(i).Ok? <==> 0 <= i < n
    {
      |triangles|
    }

    /** `__len__`: the same number as `nb_triangles`. */
    function Length(): (n: nat)
      reads this
      ensures n == NbTriangles()
    {
      NbTriangles()
    }

    /** `get_triangle`: the triangle in slot `index`, or IndexError outside [0, length). */
    function GetTriangle(index: int): (r: Result<Triangle>)
      reads this
      ensures r.Ok? <==> 0 <= index < |triangles|
      ensures r.Ok? ==> r.value == triangles[index]
      ensures r.Err? ==> r.error == IndexError
    {
      if 0 <= index < |triangles| then Ok(triangles[index]) else Err(IndexError)
    }

    /** `__iter__`: the triangles in slot order, one per valid slot. */
    function Iterate(): (s: seq<Triangle>)
      reads this
      ensures |s| == NbTriangles()
      ensures forall i :: 0 <= i < |s| ==> GetTriangle(i) == Ok(s[i])
    {
      triangles
    }

    /**
     * `add_triangle`: a vertex index out of range raises IndexError, a repeated vertex or a triangle
     * already present (in any order) raises ValueError; otherwise the triangle is appended and its
     * slot returned.
     */
    method AddTriangle(t: Triangle) returns (r: Result<nat>)
      requires Valid()
      modifies this
      ensures Valid()
      ensures !InRange(t, |points.points|) ==> r == Err(IndexError)
      ensures InRange(t, |points.points|) && !Distinct(t) ==> r == Err(ValueError)
      ensures InRange(t, |points.points|) && Distinct(t) && Contains(old(triangles), t) ==> r == Err(ValueError)
      ensures r.Err? ==> triangles == old(triangles)
      ensures r.Ok? <==> InRange(t, |points.points|) && Distinct(t) && !Contains(old(triangles), t)
      ensures r.Ok? ==> r.value == |old(triangles)| && triangles == old(triangles) + [t]
    {
      if !InRange(t, |points.points|) {
        return Err(IndexError);
      }
      if !Distinct(t) {
        return Err(ValueError);
      }
      if Contains(triangles, t) {
        return Err(ValueError);
      }
      r := Ok(|triangles|);
      triangles := triangles + [t];
      assert forall i :: 0 <= i < |triangles| - 1 ==> !SameTriangle(triangles[i], t);
    }

    /**
     * `remove_triangle`: by slot, an index outside [0, length) raises IndexError; by value, a
     * triangle not present (in any order) raises ValueError. The matching slot is deleted and later
     * triangles move down by one.
     */
    method RemoveTriangle(which: TriangleRef) returns (r: Outcome)
      requires Valid()
      modifies this
      ensures Valid()
      ensures which.AtIndex? && !(0 <= which.index < |old(triangles)|) ==>
                r == Fail(IndexError) && triangles == old(triangles)
      ensures which.EqualTo? && !Contains(old(triangles), which.triangle) ==>
                r == Fail(ValueError) && triangles == old(triangles)
      ensures which.AtIndex? && 0 <= which.index < |old(triangles)| ==>
                r == Pass && triangles == old(triangles)[..which.index] + old(triangles)[which.index + 1..]
      ensures which.EqualTo? && Contains(old(triangles), which.triangle) ==>
                r == Pass && !Contains(triangles, which.triangle) &&
                var k := FindSame(old(triangles), which.triangle);
                triangles == old(triangles)[..k] + old(triangles)[k + 1..]
    {
      var k: int;
      match which {
        case AtIndex(i) =>
          if !(0 <= i < |triangles|) {
            return Fail(IndexError);
          }
          k := i;
        case EqualTo(t) =>
          if !Contains(triangles, t) {
            return Fail(ValueError);
          }
          k := FindSame(triangles, t);
      }
      DeleteSlot(|points.points|, triangles, k);
      triangles := triangles[..k] + triangles[k + 1..];
      r := Pass;
    }

    /**
     * `set_triangle`: a slot outside [0, length) raises IndexError; a vertex index out of range, a
     * repeated vertex, or a triangle equal to one in another slot raises ValueError; otherwise only
     * that slot changes.
     */
    method SetTriangle(index: int, t: Triangle) returns (r: Outcome)
      requires Valid()
      modifies this
      ensures Valid()
      ensures r.Fail? ==> triangles == old(triangles)
      ensures !(0 <= index < |old(triangles)|) ==> r == Fail(IndexError)
      ensures 0 <= index < |old(triangles)| && !(InRange(t, |points.points|) && Distinct(t)) ==>
                r == Fail(ValueError)
      ensures 0 <= index < |old(triangles)| &&
              (exists j :: 0 <= j < |old(triangles)| && j != index && SameTriangle(old(triangles)[j], t)) ==>
                r == Fail(ValueError)
      ensures r.Pass? ==> triangles == old(triangles)[index := t]
      ensures r.Pass? ==> GetTriangle(index) == Ok(t) &&
                          forall j :: j != index ==> GetTriangle(j) == old(GetTriangle(j))
      ensures 0 <= index < |old(triangles)| && InRange(t, |points.points|) && Distinct(t) &&
              (forall j :: 0 <= j < |old(triangles)| && j != index ==> !SameTriangle(old(triangles)[j], t)) ==>
                r == Pass
    {
      if !(0 <= index < |triangles|) {
        return Fail(IndexError);
      }
      if !(InRange(t, |points.points|) && Distinct(t)) {
        return Fail(ValueError);
      }
      if exists j :: 0 <= j < |triangles| && j != index && SameTriangle(triangles[j], t) {
        return Fail(ValueError);
      }
      triangles := triangles[index := t];
      r := Pass;
    }

    /**
     * `__eq__`: equal to another Triangles object exactly when the point sets are equal and the
     * triangles agree slot by slot (each compared ignoring vertex order); TypeError otherwise.
     */
    method Equals(other: Operand<Triangles>) returns (r: Result<bool>)
      ensures other.Foreign? ==> r == Err(TypeError)
      ensures other.Instance? ==>
                r.Ok? && (r.value <==> points.points == other.value.points.points &&
                                       |triangles| == |other.value.triangles| &&
                                       forall i :: 0 <= i < |triangles| ==>
                                         Indices(triangles[i]) == Indices(other.value.triangles[i]))
    {
      if other.Foreign? {
        return Err(TypeError);
      }
      var o := other.value;
      r := Ok(SameContents(Contents(points.points, triangles), Contents(o.points.points, o.triangles)));
    }

    /** `to_bytes`: the encoding of the points and triangles. */
    function ToBytes(): (r: Result<seq<Byte>>)
      reads this, points
      requires Valid()
      ensures r.Ok? ==> DecodeTriangles(r.value) == Ok(Contents(points.points, triangles))
      ensures |points.points| < TwoTo32 && |triangles| < TwoTo32 ==> r.Ok?
    {
      var v := Contents(points.points, triangles);
      if |points.points| < TwoTo32 && |triangles| < TwoTo32 then
        TrianglesRoundTrip(v);
        EncodeTriangles(v)
      else EncodeTriangles(v)
    }

    /** `from_bytes`: a new object holding the decoded value, or the decoder's ValueError. */
    static method FromBytes(data: seq<Byte>) returns (r: Result<Triangles>)
      ensures DecodeTriangles(data).Err? ==> r == Err(ValueError)
      ensures DecodeTriangles(data).Ok? ==>
                r.Ok? && fresh(r.value) && fresh(r.value.points) && r.value.Valid() &&
                r.value.Value() == DecodeTriangles(data).value
    {
      var decoded := DecodeTriangles(data);
      if decoded.Err? {
        return Err(decoded.error);
      }
      var v := decoded.value;
      var ps := new PointSet();
      ps.points := v.points;
      var t := new Triangles.Wrap(ps, v.triangles);
      return Ok(t);
    }
  }
}
