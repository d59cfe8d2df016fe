/** An ordered, duplicate-free collection of points with index access and a binary codec. */
module PointSets {
  import opened Errors
  import opened Bytes
  import opened Float32
  import opened DataTypes

  /** No point occurs twice. */
  predicate NoDuplicates(s: seq<Point>) {
    forall i, j :: 0 <= i < j < |s| ==> s[i] != s[j]
  }

  /** The position of a point that occurs in the sequence (its first occurrence). */
  function IndexOf(s: seq<Point>, p: Point): (k: nat)
    requires p in s
    ensures k < |s| && s[k] == p && p !in s[..k]
  {
    if s[0] == p then 0 else 1 + IndexOf(s[1..], p)
  }

  // ---------------------------------------------------------------------------------------------
  // Binary codec: a u32 count N, then the x and y bit patterns of each point, 4 + 8N bytes in all.
  // ---------------------------------------------------------------------------------------------

  /** The coordinate block: eight bytes per point, x before y, in index order. */
  function EncodeCoords(s: seq<Point>): (b: seq<Byte>)
    ensures |b| == 8 * |s|
  {
    if s == [] then [] else PackU32(s[0].x) + PackU32(s[0].y) + EncodeCoords(s[1..])
  }

  /** A non-empty block of eight-byte records holds a first record and a block of records after it. */
  lemma NextRecord(len: int)
    requires len % 8 == 0 && len > 0
    ensures len >= 8 && (len - 8) % 8 == 0
  {
  }

  /** Reads a coordinate block back; a pattern that is not a finite coordinate is a ValueError. */
  function DecodeCoords(b: seq<Byte>): (r: Result<seq<Point>>)
    requires |b| % 8 == 0
    ensures r.Ok? ==> 8 * |r.value| == |b|
    ensures r.Err? ==> r.error == ValueError
  {
    if b == [] then Ok([])
    else
      NextRecord(|b|);
      var x, y := UnpackU32(b[..4]), UnpackU32(b[4..8]);
      if !IsCoordBits(x) || !IsCoordBits(y) then Err(ValueError)
      else
        match DecodeCoords(b[8..])
        case Err(e) => Err(e)
        case Ok(rest) => Ok([Point(x, y)] + rest)
  }

  /** `PointSet.to_bytes`: the count does not fit the u32 field from 2^32 points on. */
  function EncodePointSet(s: seq<Point>): (r: Result<seq<Byte>>)
    ensures r.Ok? <==> |s| < TwoTo32
    ensures r.Err? ==> r.error == StructError
    ensures r.Ok? ==> |r.value| == 4 + 8 * |s| && U32At(r.value, 0) == |s|
  {
    if |s| >= TwoTo32 then Err(StructError)
    else
      var b := PackU32(|s|) + EncodeCoords(s);
      assert b[0..4] == PackU32(|s|);
      Ok(b)
  }

  /**
   * `PointSet.from_bytes`: fewer than 4 bytes, a length other than 4 + 8N for the declared count N,
   * a non-finite coordinate or a repeated point is a ValueError.
   */
  function DecodePointSet(data: seq<Byte>): (r: Result<seq<Point>>)
    ensures |data| < 4 ==> r == Err(ValueError)
    ensures |data| >= 4 && |data| != 4 + 8 * U32At(data, 0) ==> r == Err(ValueError)
    ensures r.Err? ==> r.error == ValueError
    ensures r.Ok? ==> |data| == 4 + 8 * |r.value| && U32At(data, 0) == |r.value| && NoDuplicates(r.value)
  {
    if |data| < 4 then Err(ValueError)
    else
      var n := U32At(data, 0);
      if |data| != 4 + 8 * n then Err(ValueError)
      else
        match DecodeCoords(data[4..])
        case Err(e) => Err(e)
        case Ok(s) => if NoDuplicates(s) then Ok(s) else Err(ValueError)
  }

  lemma {:induction false} DecodeEncodeCoords(s: seq<Point>)
    ensures DecodeCoords(EncodeCoords(s)) == Ok(s)
  {
    if s != [] {
      var b := EncodeCoords(s);
      assert b[..4] == PackU32(s[0].x);
      assert b[4..8] == PackU32(s[0].y);
      assert b[8..] == EncodeCoords(s[1..]);
      assert UnpackU32(b[..4]) == s[0].x && UnpackU32(b[4..8]) == s[0].y;
      DecodeEncodeCoords(s[1..]);
      assert [s[0]] + s[1..] == s;
    }
  }

  lemma {:induction false} EncodeDecodeCoords(b: seq<Byte>)
    requires |b| % 8 == 0 && DecodeCoords(b).Ok?
    ensures EncodeCoords(DecodeCoords(b).value) == b
  {
    if b != [] {
      var s := DecodeCoords(b).value;
      EncodeDecodeCoords(b[8..]);
      PackUnpack(b[..4]);
      PackUnpack(b[4..8]);
      assert s[1..] == DecodeCoords(b[8..]).value;
      assert b == b[..4] + b[4..8] + b[8..];
    }
  }

  /** Round trip: decoding the encoding of a valid point set gives back the same points in the same order. */
  lemma PointSetRoundTrip(s: seq<Point>)
    requires NoDuplicates(s) && |s| < TwoTo32
    ensures EncodePointSet(s).Ok? && DecodePointSet(EncodePointSet(s).value) == Ok(s)
  {
    var b := EncodePointSet(s).value;
    assert b[4..] == EncodeCoords(s);
    DecodeEncodeCoords(s);
  }

  /** The encoding is canonical: whatever decodes successfully re-encodes to the very same bytes. */
  lemma PointSetCanonical(data: seq<Byte>)
    requires DecodePointSet(data).Ok?
    ensures EncodePointSet(DecodePointSet(data).value) == Ok(data)
  {
    var s := DecodePointSet(data).value;
    DecodedPointLayout(data);
    ReassemblePointSet(data, s);
  }

  /** A decodable stream is a count followed by a block of records that decodes to the points. */
  lemma DecodedPointLayout(data: seq<Byte>)
    requires DecodePointSet(data).Ok?
    ensures |data| >= 4 && (|data| - 4) % 8 == 0
    ensures DecodeCoords(data[4..]) == Ok(DecodePointSet(data).value)
  {
    var n: nat := U32At(data, 0);
    assert |data| - 4 == 8 * n;
    MultipleOfEight(n);
    match DecodeCoords(data[4..])
    case Err(_) =>
    case Ok(_) =>
  }

  lemma MultipleOfEight(n: nat)
    ensures (8 * n) % 8 == 0
  {
  }

  /** A count followed by a record block re-encodes from the points the block decodes to. */
  lemma ReassemblePointSet(data: seq<Byte>, s: seq<Point>)
    requires |data| >= 4 && (|data| - 4) % 8 == 0
    requires DecodeCoords(data[4..]) == Ok(s) && U32At(data, 0) == |s|
    ensures EncodePointSet(s) == Ok(data)
  {
    EncodeDecodeCoords(data[4..]);
    PackUnpack(data[0..4]);
    assert data == data[..4] + data[4..];
  }

  // ---------------------------------------------------------------------------------------------
  // The mutable container
  // ---------------------------------------------------------------------------------------------

  class PointSet {
    /** The stored points; a point's index is its position. */
    var points: seq<Point>

    ghost predicate Valid()
      reads this
    {
      NoDuplicates(points)
    }

    /** `PointSet()`: an empty set. */
    constructor ()
      ensures Valid() && points == []
    {
      points := [];
    }

    /** `PointSet(points)`: adds the points one by one; a repeated point raises ValueError. */
    static method FromPoints(ps: seq<Point>) returns (r: Result<PointSet>)
      ensures NoDuplicates(ps) ==> r.Ok? && fresh(r.value) && r.value.Valid() && r.value.points == ps
      ensures !NoDuplicates(ps) ==> r == Err(ValueError)
    {
      var result := new PointSet();
      var i := 0;
      while i < |ps|
        invariant 0 <= i <= |ps|
        invariant fresh(result) && result.Valid() && result.points == ps[..i]
        invariant NoDuplicates(ps[..i])
      {
        var added := result.AddPoint(ps[i]);
        if added.Err? {
          assert ps[i] in ps[..i];
          var k := IndexOf(ps[..i], ps[i]);
          assert ps[k] == ps[i];
          return Err(ValueError);
        }
        assert ps[..i + 1] == ps[..i] + [ps[i]];
        i := i + 1;
      }
      assert ps[..i] == ps;
      r := Ok(result);
    }

    /** `nb_points`: the valid indices are exactly 0 .. n-1. */
    function NbPoints(): (n: nat)
      reads this
      ensures forall i: int :: GetPoint(i).Ok? <==> 0 <= i < n
    {
      |points|
    }

    /** `__len__`: the same number as `nb_points`. */
    function Length(): (n: nat)
      reads this
      ensures n == NbPoints()
    {
      NbPoints()
    }

    /** `get_point`: the point at `index`, or IndexError outside [0, length). */
    function GetPoint(index: int): (r: Result<Point>)
      reads this
      ensures r.Ok? <==> 0 <= index < |points|
      ensures r.Ok? ==> r.value == points[index]
      ensures r.Err? ==> r.error == IndexError
    {
      if 0 <= index < |points| then Ok(points[index]) else Err(IndexError)
    }

    /** `__iter__`: the points in index order, one per valid index. */
    function Iterate(): (s: seq<Point>)
      reads this
      ensures |s| == NbPoints()
      ensures forall i :: 0 <= i < |s| ==> GetPoint(i) == Ok(s[i])
    {
      points
    }

    /** `add_point`: appends a new point and returns its index; a point already present raises ValueError. */
    method AddPoint(p: Point) returns (r: Result<nat>)
      requires Valid()
      modifies this
      ensures Valid()
      ensures p in old(points) ==> r == Err(ValueError) && points == old(points)
      ensures p !in old(points) ==> r == Ok(|old(points)|) && points == old(points) + [p]
      ensures r.Ok? ==> GetPoint(r.value) == Ok(p)
    {
      if p in points {
        return Err(ValueError);
      }
      r := Ok(|points|);
      points := points + [p];
    }

    /** `remove_point`: deletes the point and shifts later points down; an absent point raises ValueError. */
    method RemovePoint(p: Point) returns (r: Outcome)
      requires Valid()
      modifies this
      ensures Valid()
      ensures p !in old(points) ==> r == Fail(ValueError) && points == old(points)
      ensures p in old(points) ==>
                r == Pass && p !in points && |points| == |old(points)| - 1 &&
                var k := IndexOf(old(points), p);
                points == old(points)[..k] + old(points)[k + 1..]
    {
      if p !in points {
        return Fail(ValueError);
      }
      var k := IndexOf(points, p);
      ghost var before := points;
      points := points[..k] + points[k + 1..];
      r := Pass;
      assert forall j :: 0 <= j < |points| ==> points[j] == if j < k then before[j] else before[j + 1];
      assert forall j :: 0 <= j < |before| && j != k ==> before[j] != p;
    }

    /**
     * `set_point`: replaces the point at `index`; IndexError outside [0, length). A value already
     * stored at another index raises ValueError, so the set stays duplicate-free.
     */
    method SetPoint(index: int, p: Point) returns (r: Outcome)
      requires Valid()
      modifies this
      ensures Valid()
      ensures !(0 <= index < |old(points)|) ==> r == Fail(IndexError) && points == old(points)
      ensures 0 <= index < |old(points)| && p in old(points) && p != old(points)[index] ==>
                r == Fail(ValueError) && points == old(points)
      ensures r.Pass? ==> points == old(points)[index := p]
      ensures r.Pass? ==> GetPoint(index) == Ok(p) &&
                          forall j :: j != index ==> GetPoint(j) == old(GetPoint(j))
      ensures 0 <= index < |old(points)| && (p !in old(points) || p == old(points)[index]) ==> r.Pass?
    {
      if !(0 <= index < |points|) {
        return Fail(IndexError);
      }
      if p in points && p != points[index] {
        return Fail(ValueError);
      }
      points := points[index := p];
      r := Pass;
    }

    /** `__eq__`: equal to another point set exactly when both hold the same points in the same order; TypeError otherwise. */
    method Equals(other: Operand<PointSet>) returns (r: Result<bool>)
      ensures other.Foreign? ==> r == Err(TypeError)
      ensures other.Instance? ==>
                r.Ok? && (r.value <==> |points| == |other.value.points| &&
                                       forall i :: 0 <= i < |points| ==> points[i] == other.value.points[i])
    {
      if other.Foreign? {
        return Err(TypeError);
      }
      r := Ok(points == other.value.points);
    }

    /** `to_bytes`: the encoding of the stored points. */
    function ToBytes(): (r: Result<seq<Byte>>)
      reads this
      requires Valid()
      ensures |points| < TwoTo32 ==> r.Ok?
      ensures r.Ok? ==> DecodePointSet(r.value) == Ok(points)
    {
      if |points| < TwoTo32 then PointSetRoundTrip(points); EncodePointSet(points) else EncodePointSet(points)
    }

    /** `from_bytes`: a new point set holding the decoded points, or the decoder's ValueError. */
    static method FromBytes(data: seq<Byte>) returns (r: Result<PointSet>)
      ensures DecodePointSet(data).Err? ==> r == Err(DecodePointSet(data).error)
      ensures DecodePointSet(data).Ok? ==>
                r.Ok? && fresh(r.value) && r.value.Valid() && r.value.points == DecodePointSet(data).value
    {
      var decoded := DecodePointSet(data);
      if decoded.Err? {
        return Err(decoded.error);
      }
      var ps := new PointSet();
      ps.points := decoded.value;
      return Ok(ps);
    }
  }
}
