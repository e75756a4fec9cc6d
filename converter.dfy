/**
 * TQT_DBusDataConverter for the geometry types: a rectangle travels as a
 * struct of four Int32 values (x, y, width, height), a point as (x, y)
 * and a size as (width, height).
 */
module Converters {
  import opened Wrappers
  import opened Data

  datatype Result = Success | InvalidSignature | InvalidArgument

  datatype Rect = Rect(x: i32, y: i32, width: i32, height: i32)
  datatype Point = Point(x: i32, y: i32)
  datatype Size = Size(width: i32, height: i32)

  /** The values of a struct of exactly `n` members that are all Int32; None for anything else. */
  function Int32Members(d: Data, n: nat): (r: Option<seq<i32>>)
    ensures r.Some? <==> TypeOf(d) == StructType && |d.members| == n
                          && forall i :: 0 <= i < n ==> TypeOf(d.members[i]) == Int32Type
    ensures r.Some? ==> |r.value| == n && forall i :: 0 <= i < n ==> d.members[i] == Scalar(PInt32(r.value[i]))
  {
    if d.Struct? && |d.members| == n && forall i :: 0 <= i < n ==> d.members[i].Scalar? && d.members[i].p.PInt32?
    then Some(seq(n, i requires 0 <= i < n => d.members[i].p.i))
    else None
  }

  /**
   * The member loop of the convertFrom specialisations: each member read
   * with toInt32 into `values`, stopping at the first that is not Int32.
   */
  method ReadInt32Members(members: seq<Data>, values: array<i32>) returns (ok: bool)
    requires values.Length == |members|
    modifies values
    ensures ok <==> forall i :: 0 <= i < |members| ==> TypeOf(members[i]) == Int32Type
    ensures ok ==> forall i :: 0 <= i < |members| ==> members[i] == Scalar(PInt32(values[i]))
  {
    var i := 0;
    while i < |members|
      invariant 0 <= i <= |members|
      invariant forall j :: 0 <= j < i ==> TypeOf(members[j]) == Int32Type && members[j] == Scalar(PInt32(values[j]))
    {
      var r := ToPayload(members[i], Int32Type);
      if !r.ok {
        return false;
      }
      values[i] := r.value.i;
      i := i + 1;
    }
    return true;
  }

  function RectFromData(d: Data): Option<Rect>
  {
    match Int32Members(d, 4)
    case None => None
    case Some(v) => Some(Rect(v[0], v[1], v[2], v[3]))
  }

  /** convertToTQT_DBusData<TQRect>: always succeeds with the struct (x, y, width, height). */
  function RectToData(r: Rect): (d: Data)
    ensures d == Struct([Scalar(PInt32(r.x)), Scalar(PInt32(r.y)), Scalar(PInt32(r.width)), Scalar(PInt32(r.height))])
  {
    FromStruct([FromPayload(PInt32(r.x)), FromPayload(PInt32(r.y)), FromPayload(PInt32(r.width)), FromPayload(PInt32(r.height))])
  }

  /**
   * convertFromTQT_DBusData<TQRect>: InvalidSignature, leaving the
   * rectangle as it was, unless the value is a struct of four Int32.
   */
  method ConvertFromRect(d: Data, rect: Rect) returns (result: Result, rect': Rect)
    ensures result == Success <==> Int32Members(d, 4).Some?
    ensures result != Success ==> result == InvalidSignature && rect' == rect
    ensures result == Success ==> RectFromData(d) == Some(rect')
  {
    if TypeOf(d) != StructType {
      return InvalidSignature, rect;
    }
    var members := ToStruct(d).value;
    if |members| != 4 {
      return InvalidSignature, rect;
    }
    var values := new i32[4];
    var ok := ReadInt32Members(members, values);
    if !ok {
      return InvalidSignature, rect;
    }
    return Success, Rect(values[0], values[1], values[2], values[3]);
  }

  /** A rectangle survives conversion to a struct and back, and a struct that converts is the one the rectangle gives. */
  lemma RectRoundTrip(r: Rect, d: Data)
    ensures RectFromData(RectToData(r)) == Some(r)
    ensures RectFromData(d) == Some(r) ==> RectToData(r) == d
  {
    var m := RectToData(r).members;
    assert forall i :: 0 <= i < 4 ==> m[i].Scalar? && m[i].p.PInt32?;
    if RectFromData(d) == Some(r) {
      assert d.members == [d.members[0], d.members[1], d.members[2], d.members[3]];
    }
  }

  function PointFromData(d: Data): Option<Point>
  {
    match Int32Members(d, 2)
    case None => None
    case Some(v) => Some(Point(v[0], v[1]))
  }

  /** convertToTQT_DBusData<TQPoint>: the struct (x, y). */
  function PointToData(p: Point): (d: Data)
    ensures d == Struct([Scalar(PInt32(p.x)), Scalar(PInt32(p.y))])
  {
    FromStruct([FromPayload(PInt32(p.x)), FromPayload(PInt32(p.y))])
  }

  /** convertFromTQT_DBusData<TQPoint>: InvalidSignature, the point unchanged, unless a struct of two Int32. */
  method ConvertFromPoint(d: Data, point: Point) returns (result: Result, point': Point)
    ensures result == Success <==> Int32Members(d, 2).Some?
    ensures result != Success ==> result == InvalidSignature && point' == point
    ensures result == Success ==> PointFromData(d) == Some(point')
  {
    if TypeOf(d) != StructType {
      return InvalidSignature, point;
    }
    var members := ToStruct(d).value;
    if |members| != 2 {
      return InvalidSignature, point;
    }
    var values := new i32[2];
    var ok := ReadInt32Members(members, values);
    if !ok {
      return InvalidSignature, point;
    }
    return Success, Point(values[0], values[1]);
  }

  lemma PointRoundTrip(p: Point, d: Data)
    ensures PointFromData(PointToData(p)) == Some(p)
    ensures PointFromData(d) == Some(p) ==> PointToData(p) == d
  {
    var m := PointToData(p).members;
    assert forall i :: 0 <= i < 2 ==> m[i].Scalar? && m[i].p.PInt32?;
    if PointFromData(d) == Some(p) {
      assert d.members == [d.members[0], d.members[1]];
    }
  }

  function SizeFromData(d: Data): Option<Size>
  {
    match Int32Members(d, 2)
    case None => None
    case Some(v) => Some(Size(v[0], v[1]))
  }

  /** convertToTQT_DBusData<TQSize>: the struct (width, height). */
  function SizeToData(s: Size): (d: Data)
    ensures d == Struct([Scalar(PInt32(s.width)), Scalar(PInt32(s.height))])
  {
    FromStruct([FromPayload(PInt32(s.width)), FromPayload(PInt32(s.height))])
  }

  /** convertFromTQT_DBusData<TQSize>: InvalidSignature, the size unchanged, unless a struct of two Int32. */
  method ConvertFromSize(d: Data, size: Size) returns (result: Result, size': Size)
    ensures result == Success <==> Int32Members(d, 2).Some?
    ensures result != Success ==> result == InvalidSignature && size' == size
    ensures result == Success ==> SizeFromData(d) == Some(size')
  {
    if TypeOf(d) != StructType {
      return InvalidSignature, size;
    }
    var members := ToStruct(d).value;
    if |members| != 2 {
      return InvalidSignature, size;
    }
    var values := new i32[2];
    var ok := ReadInt32Members(members, values);
    if !ok {
      return InvalidSignature, size;
    }
    return Success, Size(values[0], values[1]);
  }

  lemma SizeRoundTrip(s: Size, d: Data)
    ensures SizeFromData(SizeToData(s)) == Some(s)
    ensures SizeFromData(d) == Some(s) ==> SizeToData(s) == d
  {
    var m := SizeToData(s).members;
    assert forall i :: 0 <= i < 2 ==> m[i].Scalar? && m[i].p.PInt32?;
    if SizeFromData(d) == Some(s) {
      assert d.members == [d.members[0], d.members[1]];
    }
  }
}
