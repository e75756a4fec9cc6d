/**
 * The value model of the binding (TQT_DBusData and TQT_DBusVariant): a tagged
 * union of seventeen kinds, its fromX/toX accessors, the D-Bus signature it
 * builds and its equality.
 *
 * Implicit sharing of the C++ payload is not modelled: a value is a value.
 * A Double payload is kept as its 64 raw bits.
 */
module Data {
  import opened Keys
  import ObjectPaths

  type u8 = x: int | 0 <= x < 0x100
  type i16 = x: int | -0x8000 <= x < 0x8000
  type u16 = x: int | 0 <= x < 0x1_0000
  type i32 = x: int | -0x8000_0000 <= x < 0x8000_0000
  type u32 = x: int | 0 <= x < 0x1_0000_0000
  type i64 = x: int | -0x8000_0000_0000_0000 <= x < 0x8000_0000_0000_0000
  type u64 = x: int | 0 <= x < 0x1_0000_0000_0000_0000

  /** TQT_DBusData::Type */
  datatype DataType =
    | InvalidType | BoolType | ByteType | Int16Type | UInt16Type | Int32Type | UInt32Type
    | Int64Type | UInt64Type | DoubleType | StringType | ObjectPathType | UnixFdType
    | ListType | StructType | VariantType | MapType

  /** The C++ value a non-container value wraps: the argument of fromX and the result of toX. */
  datatype Payload =
    | PBool(b: bool)
    | PByte(y: u8)
    | PInt16(n: i16)
    | PUInt16(q: u16)
    | PInt32(i: i32)
    | PUInt32(u: u32)
    | PInt64(x: i64)
    | PUInt64(t: u64)
    | PDouble(bits: u64)
    | PString(s: string)
    | PObjectPath(path: string)
    | PUnixFd(fd: int)
    | PVariant(v: DBusVariant)

  /** TQT_DBusVariant: a value together with the signature it is sent under. */
  datatype DBusVariant = DBusVariant(signature: string, value: Data)

  /** The state of a TQT_DBusDataList: element type, container prototype, elements. */
  datatype ListValue = ListValue(elemType: DataType, containerItem: Data, items: seq<Data>)

  /**
   * The state of a TQT_DBusDataMap<T>: key type (fixed by T), value type,
   * container prototype and the entries in TQMap's ascending key order.
   */
  datatype MapValue = MapValue(keyType: KeyKind, valueType: DataType, containerValue: Data, entries: seq<(Key, Data)>)

  datatype Data =
    | Invalid
    | Scalar(p: Payload)
    | List(list: ListValue)
    | Struct(members: seq<Data>)
    | Map(dict: MapValue)

  /** The result of a toX accessor: the `ok` flag it reports and the value it returns. */
  datatype Accessed<T> = Accessed(ok: bool, value: T)

  /** Container kinds: those whose full signature is more than their type code. */
  predicate IsContainer(t: DataType)
  {
    t == ListType || t == StructType || t == MapType
  }

  /** The kinds a TQT_DBusDataMap<T> can be keyed by. */
  predicate IsKeyType(t: DataType)
  {
    t in {ByteType, Int16Type, UInt16Type, Int32Type, UInt32Type, Int64Type, UInt64Type,
          StringType, ObjectPathType, UnixFdType}
  }

  /** A key kind: the only kinds a TQT_DBusDataMap<T> can be instantiated with. */
  type KeyKind = t: DataType | IsKeyType(t) witness ByteType

  /** The kinds that carry a Payload. */
  predicate IsPayloadType(t: DataType)
  {
    t != InvalidType && !IsContainer(t)
  }

  /** Whether a key has the shape the map's key type stores, with the type's range. */
  predicate KeyFits(t: DataType, k: Key)
  {
    match t
    case ByteType => k.IntKey? && 0 <= k.n < 0x100
    case Int16Type => k.IntKey? && -0x8000 <= k.n < 0x8000
    case UInt16Type => k.IntKey? && 0 <= k.n < 0x1_0000
    case Int32Type => k.IntKey? && -0x8000_0000 <= k.n < 0x8000_0000
    case UInt32Type => k.IntKey? && 0 <= k.n < 0x1_0000_0000
    case Int64Type => k.IntKey? && -0x8000_0000_0000_0000 <= k.n < 0x8000_0000_0000_0000
    case UInt64Type => k.IntKey? && 0 <= k.n < 0x1_0000_0000_0000_0000
    case StringType => k.StrKey?
    case ObjectPathType => k.StrKey?
    case UnixFdType => k.IntKey?
    case _ => false
  }

  function PayloadType(p: Payload): (t: DataType)
    ensures IsPayloadType(t)
  {
    match p
    case PBool(_) => BoolType
    case PByte(_) => ByteType
    case PInt16(_) => Int16Type
    case PUInt16(_) => UInt16Type
    case PInt32(_) => Int32Type
    case PUInt32(_) => UInt32Type
    case PInt64(_) => Int64Type
    case PUInt64(_) => UInt64Type
    case PDouble(_) => DoubleType
    case PString(_) => StringType
    case PObjectPath(_) => ObjectPathType
    case PUnixFd(_) => UnixFdType
    case PVariant(_) => VariantType
  }

  /** type() */
  function TypeOf(d: Data): DataType
  {
    match d
    case Invalid => InvalidType
    case Scalar(p) => PayloadType(p)
    case List(_) => ListType
    case Struct(_) => StructType
    case Map(_) => MapType
  }

  /** keyType(): the key kind of a Map, Invalid for every other kind. */
  function KeyTypeOf(d: Data): (t: DataType)
    ensures TypeOf(d) != MapType ==> t == InvalidType
    ensures d.Map? ==> t == d.dict.keyType
  {
    if d.Map? then d.dict.keyType else InvalidType
  }

  /** typeName(): the enumerator's own name. */
  function TypeName(t: DataType): (name: string)
    ensures |name| > 0
  {
    match t
    case InvalidType => "Invalid"
    case BoolType => "Bool"
    case ByteType => "Byte"
    case Int16Type => "Int16"
    case UInt16Type => "UInt16"
    case Int32Type => "Int32"
    case UInt32Type => "UInt32"
    case Int64Type => "Int64"
    case UInt64Type => "UInt64"
    case DoubleType => "Double"
    case StringType => "String"
    case ObjectPathType => "ObjectPath"
    case UnixFdType => "UnixFd"
    case ListType => "List"
    case StructType => "Struct"
    case VariantType => "Variant"
    case MapType => "Map"
  }

  /** Distinct kinds have distinct names. */
  lemma TypeNameInjective(s: DataType, t: DataType)
    requires s != t
    ensures TypeName(s) != TypeName(t)
  {
  }

  /**
   * The one-character D-Bus type code of a kind, empty (a null string in the
   * source) for Invalid and for the containers, whose code depends on content.
   */
  function TypeCode(t: DataType): (code: string)
    ensures |code| <= 1
    ensures code == [] <==> !IsPayloadType(t)
  {
    match t
    case BoolType => "b"
    case ByteType => "y"
    case Int16Type => "n"
    case UInt16Type => "q"
    case Int32Type => "i"
    case UInt32Type => "u"
    case Int64Type => "x"
    case UInt64Type => "t"
    case DoubleType => "d"
    case StringType => "s"
    case ObjectPathType => "o"
    case UnixFdType => "h"
    case VariantType => "v"
    case _ => ""
  }

  /** Distinct payload kinds have distinct codes. */
  lemma TypeCodeInjective(s: DataType, t: DataType)
    requires IsPayloadType(s) && IsPayloadType(t) && s != t
    ensures TypeCode(s) != TypeCode(t)
  {
  }

  // ---------------------------------------------------------------------
  // Signatures

  /**
   * buildDBusSignature(): "a" + element signature for a list, "(" + member
   * signatures + ")" for a struct, "a{" + key code + value signature + "}"
   * for a map, the type code otherwise (empty for Invalid).
   */
  function Signature(d: Data): (sig: string)
    decreases d, 1
  {
    match d
    case Invalid => ""
    case Scalar(p) => TypeCode(PayloadType(p))
    case List(l) => "a" + ElementSignature(l)
    case Struct(ms) => "(" + MemberSignatures(ms) + ")"
    case Map(m) => "a{" + TypeCode(m.keyType) + ValueSignature(m) + "}"
  }

  /** A list's element signature: the prototype's signature for container elements, the type code otherwise. */
  function ElementSignature(l: ListValue): string
    decreases l, 0
  {
    if IsContainer(l.elemType) then Signature(l.containerItem) else TypeCode(l.elemType)
  }

  /** qDBusSignatureForMapValue: the same rule for a map's values. */
  function ValueSignature(m: MapValue): string
    decreases m, 0
  {
    if IsContainer(m.valueType) then Signature(m.containerValue) else TypeCode(m.valueType)
  }

  function MemberSignatures(ms: seq<Data>): string
    decreases ms, 0
  {
    if ms == [] then "" else Signature(ms[0]) + MemberSignatures(ms[1..])
  }

  /** Only Invalid has an empty signature, and the first character tells the kind family apart. */
  lemma SignatureShape(d: Data)
    ensures Signature(d) == [] <==> d.Invalid?
    ensures d.Scalar? ==> Signature(d) == TypeCode(TypeOf(d)) && |Signature(d)| == 1
    ensures d.List? || d.Map? ==> Signature(d)[0] == 'a'
    ensures d.Map? ==> |Signature(d)| >= 3 && Signature(d)[1] == '{'
    ensures d.Struct? ==> Signature(d)[0] == '(' && Signature(d)[|Signature(d)| - 1] == ')'
  {
  }

  // ---------------------------------------------------------------------
  // fromX / toX

  /** The value a toX accessor returns on a kind mismatch: 0, false, 0.0, empty string or path, an invalid descriptor, an empty variant. */
  function DefaultPayload(t: DataType): (p: Payload)
    requires IsPayloadType(t)
    ensures PayloadType(p) == t
  {
    match t
    case BoolType => PBool(false)
    case ByteType => PByte(0)
    case Int16Type => PInt16(0)
    case UInt16Type => PUInt16(0)
    case Int32Type => PInt32(0)
    case UInt32Type => PUInt32(0)
    case Int64Type => PInt64(0)
    case UInt64Type => PUInt64(0)
    case DoubleType => PDouble(0)
    case StringType => PString("")
    case ObjectPathType => PObjectPath("")
    case UnixFdType => PUnixFd(-1)
    case VariantType => PVariant(DBusVariant("", Invalid))
  }

  /** Whether fromX accepts the payload: object paths must pass validation, descriptors must not be -1. */
  predicate PayloadAccepted(p: Payload)
  {
    match p
    case PObjectPath(path) => ObjectPaths.IsValid(path)
    case PUnixFd(fd) => fd != -1
    case _ => true
  }

  /**
   * fromBool … fromVariant: wraps the payload; fromObjectPath and fromUnixFd
   * give an Invalid value for an invalid argument.
   */
  function FromPayload(p: Payload): (d: Data)
    ensures d.Invalid? <==> !PayloadAccepted(p)
    ensures !d.Invalid? ==> TypeOf(d) == PayloadType(p)
  {
    if PayloadAccepted(p) then Scalar(p) else Invalid
  }

  /**
   * toBool … toVariant: `ok` holds exactly when the value has the requested
   * kind; otherwise the kind's default is returned.
   */
  function ToPayload(d: Data, t: DataType): (r: Accessed<Payload>)
    requires IsPayloadType(t)
    ensures PayloadType(r.value) == t
    ensures r.ok <==> TypeOf(d) == t
    ensures !r.ok ==> r.value == DefaultPayload(t)
  {
    if d.Scalar? && PayloadType(d.p) == t then Accessed(true, d.p) else Accessed(false, DefaultPayload(t))
  }

  /** fromX(v).toX(&ok) gives back v with ok set, for every accepted payload. */
  lemma PayloadRoundTrip(p: Payload)
    requires PayloadAccepted(p)
    ensures ToPayload(FromPayload(p), PayloadType(p)) == Accessed(true, p)
  {
  }

  /** toX on a value of another kind reports failure and returns that kind's default. */
  lemma PayloadMismatch(d: Data, t: DataType)
    requires IsPayloadType(t) && TypeOf(d) != t
    ensures ToPayload(d, t) == Accessed(false, DefaultPayload(t))
  {
  }

  /** An empty list of type Invalid: the default-constructed TQT_DBusDataList. */
  function EmptyList(): ListValue
  {
    ListValue(InvalidType, Invalid, [])
  }

  /** fromList: an Invalid-typed list gives an Invalid value. */
  function FromList(l: ListValue): (d: Data)
    ensures d.Invalid? <==> l.elemType == InvalidType
    ensures !d.Invalid? ==> TypeOf(d) == ListType
  {
    if l.elemType == InvalidType then Invalid else List(l)
  }

  /** toList */
  function ToList(d: Data): (r: Accessed<ListValue>)
    ensures r.ok <==> TypeOf(d) == ListType
    ensures !r.ok ==> r.value == EmptyList()
  {
    if d.List? then Accessed(true, d.list) else Accessed(false, EmptyList())
  }

  lemma ListRoundTrip(l: ListValue)
    requires l.elemType != InvalidType
    ensures ToList(FromList(l)) == Accessed(true, l)
  {
  }

  /**
   * toTQValueList: the elements of a List value; for any other kind, an empty
   * list with the flag cleared.  On success the caller's flag is not written,
   * so `okIn` comes back unchanged.
   */
  function ToValueList(d: Data, okIn: bool): (r: Accessed<seq<Data>>)
    ensures TypeOf(d) != ListType ==> r == Accessed(false, [])
    ensures TypeOf(d) == ListType ==> r.ok == okIn && r.value == ToList(d).value.items
  {
    var l := ToList(d);
    if !l.ok then Accessed(false, []) else Accessed(okIn, l.value.items)
  }

  /** fromStruct: any Invalid member makes the whole value Invalid; an empty member list is accepted. */
  function FromStruct(members: seq<Data>): (d: Data)
    ensures d.Invalid? <==> exists i :: 0 <= i < |members| && members[i].Invalid?
    ensures !d.Invalid? ==> d == Struct(members)
  {
    if exists i :: 0 <= i < |members| && members[i].Invalid? then Invalid else Struct(members)
  }

  /** toStruct */
  function ToStruct(d: Data): (r: Accessed<seq<Data>>)
    ensures r.ok <==> TypeOf(d) == StructType
    ensures !r.ok ==> r.value == []
  {
    if d.Struct? then Accessed(true, d.members) else Accessed(false, [])
  }

  lemma StructRoundTrip(members: seq<Data>)
    requires forall i :: 0 <= i < |members| ==> !members[i].Invalid?
    ensures ToStruct(FromStruct(members)) == Accessed(true, members)
  {
  }

  /** An empty, Invalid-valued map keyed by `keyType`: the default-constructed TQT_DBusDataMap<T>. */
  function EmptyMap(keyType: KeyKind): MapValue
  {
    MapValue(keyType, InvalidType, Invalid, [])
  }

  /** fromByteKeyMap … fromUnixFdKeyMap: unconditional; the key kind comes from the map. */
  function FromKeyMap(m: MapValue): (d: Data)
    ensures TypeOf(d) == MapType && KeyTypeOf(d) == m.keyType
  {
    Map(m)
  }

  /** toByteKeyMap … toUnixFdKeyMap with the guard the code intends: a Map with that key kind. */
  function ToKeyMap(d: Data, keyType: KeyKind): (r: Accessed<MapValue>)
    ensures r.ok <==> TypeOf(d) == MapType && KeyTypeOf(d) == keyType
    ensures r.value.keyType == keyType
    ensures !r.ok ==> r.value == EmptyMap(keyType)
  {
    if d.Map? && d.dict.keyType == keyType then Accessed(true, d.dict) else Accessed(false, EmptyMap(keyType))
  }

  /**
   * toXKeyMap as written: the guard is `type != Map && keyType != K`, so a
   * Map keyed by another kind passes and its map is handed back as if it
   * were keyed by K.
   */
  function ToKeyMapAsWritten(d: Data, keyType: KeyKind): (r: Accessed<MapValue>)
    ensures !d.Map? ==> r == ToKeyMap(d, keyType)
  {
    if !d.Map? && KeyTypeOf(d) != keyType then Accessed(false, EmptyMap(keyType))
    else if d.Map? then Accessed(true, d.dict)
    else Accessed(true, EmptyMap(keyType))
  }

  /** The as-written guard accepts a map whose key kind is not the requested one. */
  lemma ToKeyMapGuardAcceptsOtherKey()
    ensures var d := FromKeyMap(EmptyMap(Int32Type));
            ToKeyMapAsWritten(d, StringType).ok && ToKeyMapAsWritten(d, StringType).value.keyType != StringType
            && !ToKeyMap(d, StringType).ok
  {
  }

  lemma KeyMapRoundTrip(m: MapValue)
    ensures ToKeyMap(FromKeyMap(m), m.keyType) == Accessed(true, m)
  {
  }

  /** getAsVariantData: a Variant holding the value under the value's own signature. */
  function GetAsVariantData(d: Data): (r: Data)
    ensures TypeOf(r) == VariantType
    ensures ToPayload(r, VariantType) == Accessed(true, PVariant(DBusVariant(Signature(d), d)))
  {
    FromPayload(PVariant(DBusVariant(Signature(d), d)))
  }

  /**
   * Whether `d` may be stored in a list or map whose elements have kind `t`
   * and container prototype `proto`: same kind and, for containers, the
   * prototype's signature.
   */
  predicate Fits(t: DataType, proto: Data, d: Data)
  {
    t != InvalidType && TypeOf(d) == t && (IsContainer(t) ==> Signature(d) == Signature(proto))
  }

  // ---------------------------------------------------------------------
  // Equality

  /**
   * operator==: kinds must agree; Invalid equals Invalid; payloads compare
   * by value; lists, structs, variants and maps compare recursively, with
   * container prototypes compared by signature only; maps must also share
   * their key kind.  (The UInt32 comparison is stated as the code intends,
   * see UInt32EqualAsWritten.)
   */
  predicate Equal(a: Data, b: Data)
    decreases a, 2
  {
    match (a, b)
    case (Invalid, Invalid) => true
    case (Scalar(p), Scalar(q)) => PayloadEqual(p, q)
    case (List(x), List(y)) => ListEqual(x, y)
    case (Struct(x), Struct(y)) => MembersEqual(x, y)
    case (Map(x), Map(y)) => x.keyType == y.keyType && MapEqual(x, y)
    case _ => false
  }

  predicate PayloadEqual(p: Payload, q: Payload)
    decreases p, 1
  {
    match (p, q)
    case (PVariant(v), PVariant(w)) => v.signature == w.signature && Equal(v.value, w.value)
    case (PVariant(_), _) => false
    case _ => p == q
  }

  /** Container prototypes agree when both lack one, or both have one with the same signature. */
  predicate ContainerEqual(x: ListValue, y: ListValue)
  {
    if IsContainer(x.elemType) then IsContainer(y.elemType) && Signature(x.containerItem) == Signature(y.containerItem)
    else !IsContainer(y.elemType)
  }

  /** TQT_DBusDataList::operator== */
  predicate ListEqual(x: ListValue, y: ListValue)
    decreases x, 1
  {
    x.elemType == y.elemType && ContainerEqual(x, y) && MembersEqual(x.items, y.items)
  }

  predicate MembersEqual(xs: seq<Data>, ys: seq<Data>)
    decreases xs, 0
  {
    |xs| == |ys| && forall i :: 0 <= i < |xs| ==> Equal(xs[i], ys[i])
  }

  /** TQT_DBusDataMap<T>::operator==: value type, count, prototype signature, then keys and values pairwise in key order. */
  predicate MapEqual(x: MapValue, y: MapValue)
    decreases x, 1
  {
    x.valueType == y.valueType
    && |x.entries| == |y.entries|
    && IsContainer(x.valueType) == IsContainer(y.valueType)
    && (IsContainer(x.valueType) ==> Signature(x.containerValue) == Signature(y.containerValue))
    && forall i :: 0 <= i < |x.entries| ==> x.entries[i].0 == y.entries[i].0 && Equal(x.entries[i].1, y.entries[i].1)
  }

  /** TQT_DBusDataList::operator!= is the negation of operator==. */
  predicate ListNotEqual(x: ListValue, y: ListValue)
  {
    x.elemType != y.elemType || !ContainerEqual(x, y) || !MembersEqual(x.items, y.items)
  }

  lemma ListNotEqualIsNegation(x: ListValue, y: ListValue)
    ensures ListNotEqual(x, y) <==> !ListEqual(x, y)
  {
  }

  /** A value shares its payload with itself, so it is equal to itself. */
  lemma {:induction false} EqualReflexive(a: Data)
    ensures Equal(a, a)
    decreases a
  {
    match a
    case Invalid =>
    case Scalar(p) =>
      if p.PVariant? { EqualReflexive(p.v.value); }
    case List(l) =>
      forall i | 0 <= i < |l.items| ensures Equal(l.items[i], l.items[i]) { EqualReflexive(l.items[i]); }
    case Struct(ms) =>
      forall i | 0 <= i < |ms| ensures Equal(ms[i], ms[i]) { EqualReflexive(ms[i]); }
    case Map(m) =>
      forall i | 0 <= i < |m.entries| ensures Equal(m.entries[i].1, m.entries[i].1) { EqualReflexive(m.entries[i].1); }
  }

  lemma {:induction false} EqualSymmetric(a: Data, b: Data)
    requires Equal(a, b)
    ensures Equal(b, a)
    decreases a
  {
    match (a, b)
    case (Scalar(p), Scalar(q)) =>
      if p.PVariant? { EqualSymmetric(p.v.value, q.v.value); }
    case (List(x), List(y)) =>
      assert ListEqual(x, y) && MembersEqual(x.items, y.items);
      forall i | 0 <= i < |y.items| ensures Equal(y.items[i], x.items[i]) { EqualSymmetric(x.items[i], y.items[i]); }
      assert MembersEqual(y.items, x.items);
    case (Struct(x), Struct(y)) =>
      forall i | 0 <= i < |y| ensures Equal(y[i], x[i]) { EqualSymmetric(x[i], y[i]); }
    case (Map(x), Map(y)) =>
      forall i | 0 <= i < |y.entries| ensures Equal(y.entries[i].1, x.entries[i].1) {
        EqualSymmetric(x.entries[i].1, y.entries[i].1);
      }
    case _ =>
  }

  /** Equal values have the same kind, the same key kind and the same signature. */
  lemma {:induction false} EqualSameSignature(a: Data, b: Data)
    requires Equal(a, b)
    ensures TypeOf(a) == TypeOf(b) && KeyTypeOf(a) == KeyTypeOf(b)
    ensures Signature(a) == Signature(b)
    decreases a
  {
    match (a, b)
    case (Struct(x), Struct(y)) =>
      forall i | 0 <= i < |x| ensures Signature(x[i]) == Signature(y[i]) { EqualSameSignature(x[i], y[i]); }
      MemberSignaturesEqual(x, y);
    case (Scalar(p), Scalar(q)) =>
    case _ =>
  }

  lemma {:induction false} MemberSignaturesEqual(xs: seq<Data>, ys: seq<Data>)
    requires |xs| == |ys| && forall i :: 0 <= i < |xs| ==> Signature(xs[i]) == Signature(ys[i])
    ensures MemberSignatures(xs) == MemberSignatures(ys)
  {
    if xs != [] { MemberSignaturesEqual(xs[1..], ys[1..]); }
  }

  /**
   * The UInt32 comparison as written reads the other side's 64-bit union
   * word; the constructor leaves the upper half of that word uninitialised.
   */
  predicate UInt32EqualAsWritten(a: u32, otherWord: u64)
  {
    a == otherWord
  }

  /** Two equal UInt32 values compare unequal as soon as the other word's upper half is not zero. */
  lemma UInt32EqualAsWrittenFails(x: u32, upper: u32)
    requires upper != 0
    ensures !UInt32EqualAsWritten(x, x + upper * 0x1_0000_0000)
    ensures Equal(FromPayload(PUInt32(x)), FromPayload(PUInt32(x)))
  {
  }
}
