/**
 * The marshaller (tqdbusmarshall.cpp): TQT_DBusData values written to and
 * read from a D-Bus message.  The message iterator of libdbus is modelled
 * as the typed tree it walks: basic items, arrays tagged with their
 * element signature, structs, variants tagged with their signature, and
 * dict entries.  Appending to an iterator is appending to a sequence of
 * such items; reading is walking it.
 *
 * The functions Encode and Decode state what qDBusDataToIterator and
 * qFetchParameter compute; the methods further down perform the same walk
 * with the source's loops and are proved equal to them.
 */
module Marshall {
  import opened Wrappers
  import opened Keys
  import opened Data
  import opened DataLists
  import opened DataMaps
  import opened Signatures
  import ObjectPaths

  /** A basic item's value: every payload kind except Variant. */
  type BasicPayload = p: Payload | !p.PVariant? witness PBool(false)

  /** One complete item of a message, as the iterator sees it. */
  datatype Wire =
    | WBasic(p: BasicPayload)
    | WSignature(sig: string)
    | WArray(elemSig: string, items: seq<Wire>)
    | WStruct(fields: seq<Wire>)
    | WVariant(sig: string, contents: seq<Wire>)
    | WDictEntry(fields: seq<Wire>)
    | WUnknown

  // ---------------------------------------------------------------------
  // Map keys

  /** The key a payload stands for: integers by value, strings and object paths by their text. */
  function KeyOf(p: Payload): Key
  {
    match p
    case PByte(y) => IntKey(y)
    case PInt16(n) => IntKey(n)
    case PUInt16(q) => IntKey(q)
    case PInt32(i) => IntKey(i)
    case PUInt32(u) => IntKey(u)
    case PInt64(x) => IntKey(x)
    case PUInt64(t) => IntKey(t)
    case PUnixFd(fd) => IntKey(fd)
    case PString(s) => StrKey(s)
    case PObjectPath(path) => StrKey(path)
    case _ => IntKey(0)
  }

  /**
   * The payload a key of a map keyed by `kt` is written as.  A typed TQMap
   * only holds keys of its kind's range; a key outside it is written as
   * the kind's default.
   */
  function KeyPayload(kt: KeyKind, k: Key): (p: BasicPayload)
    ensures PayloadType(p) == kt
    ensures KeyFits(kt, k) ==> KeyOf(p) == k
    ensures !KeyFits(kt, k) ==> p == DefaultPayload(kt)
  {
    if kt == StringType then PString(if k.StrKey? then k.s else "")
    else if kt == ObjectPathType then PObjectPath(if k.StrKey? then k.s else "")
    else if kt == UnixFdType then PUnixFd(if k.IntKey? then k.n else -1)
    else if kt == ByteType then PByte(if KeyFits(kt, k) then k.n else 0)
    else if kt == Int16Type then PInt16(if KeyFits(kt, k) then k.n else 0)
    else if kt == UInt16Type then PUInt16(if KeyFits(kt, k) then k.n else 0)
    else if kt == Int32Type then PInt32(if KeyFits(kt, k) then k.n else 0)
    else if kt == UInt32Type then PUInt32(if KeyFits(kt, k) then k.n else 0)
    else if kt == Int64Type then PInt64(if KeyFits(kt, k) then k.n else 0)
    else PUInt64(if KeyFits(kt, k) then k.n else 0)
  }

  /**
   * qFetchMap's switch on the first entry's key item: the integer kinds,
   * object paths, and strings (a signature key counts as a string) select
   * a map kind; anything else, descriptors included, selects none.
   */
  function KeyKindOf(w: Wire): (r: Option<KeyKind>)
    ensures r.Some? && w.WBasic? ==> r.value == PayloadType(w.p)
  {
    match w
    case WSignature(_) => var s: KeyKind := StringType; Some(s)
    case WBasic(p) =>
      var t := PayloadType(p);
      if t in {ByteType, Int16Type, UInt16Type, Int32Type, UInt32Type, Int64Type, UInt64Type, StringType, ObjectPathType}
      then var k: KeyKind := t; Some(k) else None
    case _ => None
  }

  // ---------------------------------------------------------------------
  // Encoding: qDBusDataToIterator

  /**
   * The items qDBusDataToIterator appends for one value: none for Invalid,
   * for an empty struct and for a variant with an empty signature or an
   * Invalid value; otherwise exactly one.  Lists and maps become arrays
   * tagged with their element signature.  Under AsWritten a map keyed by
   * an integer kind or a descriptor puts its key outside the dict entry
   * (the entry holds only the value); under Corrected every entry holds
   * its key and its value.
   */
  function Encode(d: Data, rule: Rule): (ws: seq<Wire>)
    ensures |ws| <= 1
    ensures d.Invalid? ==> ws == []
    decreases d, 1
  {
    match d
    case Invalid => []
    case Scalar(p) =>
      if p.PVariant? then
        if p.v.signature == "" || p.v.value.Invalid? then []
        else [WVariant(p.v.signature, Encode(p.v.value, rule))]
      else [WBasic(p)]
    case List(l) => [WArray(ElementSignature(l), EncodeAll(l.items, rule))]
    case Struct(ms) => if ms == [] then [] else [WStruct(EncodeAll(ms, rule))]
    case Map(m) =>
      var es := m.entries;
      [WArray("{" + TypeCode(m.keyType) + ValueSignature(m) + "}",
              seq(|es|, i requires 0 <= i < |es| => WDictEntry(KeyItems(m.keyType, es[i].0, rule) + Encode(es[i].1, rule))))]
  }

  /** qListToIterator: the items of each value in order (nothing for an empty list). */
  function EncodeAll(ds: seq<Data>, rule: Rule): (ws: seq<Wire>)
    ensures ds == [] ==> ws == []
    ensures |ws| <= |ds|
    decreases ds, 0
  {
    if ds == [] then [] else Encode(ds[0], rule) + EncodeAll(ds[1..], rule)
  }

  /**
   * The key item of a dict entry: under AsWritten only String and
   * ObjectPath keys are appended to the entry, the others to the enclosing
   * iterator, which is not modelled; under Corrected every key is.
   */
  function KeyItems(kt: KeyKind, k: Key, rule: Rule): (ws: seq<Wire>)
    ensures rule == Corrected ==> ws == [WBasic(KeyPayload(kt, k))]
  {
    if rule == Corrected || kt == StringType || kt == ObjectPathType then [WBasic(KeyPayload(kt, k))] else []
  }

  // ---------------------------------------------------------------------
  // Decoding: qFetchParameter and qFetchMap

  /**
   * qFetchParameter: basic items through fromX (a signature becomes a
   * String, an invalid object path or descriptor an Invalid value); an
   * array is rebuilt from the prototype its signature parses to, a map
   * when its elements are dict entries and a list otherwise; a struct from
   * its members; a variant keeps its signature and its first item.
   * Anything else decodes to an Invalid value.
   */
  function Decode(w: Wire, rule: Rule): (d: Data)
    decreases w, 0
  {
    match w
    case WBasic(p) => FromPayload(p)
    case WSignature(s) => FromPayload(PString(s))
    case WArray(es, items) =>
      var proto := Prototype("a" + es, rule);
      if At(es, 0) == '{' then FetchMap(items, proto, rule)
      else FromList(AppendAll(ToList(proto).value, DecodeAll(items, rule)))
    case WStruct(fs) => FromStruct(DecodeAll(fs, rule))
    case WVariant(sig, cs) => FromPayload(PVariant(DBusVariant(sig, if cs == [] then Invalid else Decode(cs[0], rule))))
    case _ => Invalid
  }

  /** messageToList: every item decoded, in order. */
  function DecodeAll(ws: seq<Wire>, rule: Rule): (ds: seq<Data>)
    ensures |ds| == |ws|
    ensures forall i :: 0 <= i < |ws| ==> ds[i] == Decode(ws[i], rule)
    decreases ws, 0
  {
    if ws == [] then [] else [Decode(ws[0], rule)] + DecodeAll(ws[1..], rule)
  }

  /** `list << x` for each value in turn. */
  function AppendAll(l: ListValue, ds: seq<Data>): ListValue
    decreases |ds|
  {
    if ds == [] then l else AppendAll(ListAppend(l, ds[0]), ds[1..])
  }

  /**
   * qFetchMap: an empty array, or a first entry without items, gives the
   * prototype back; otherwise the first entry's key item selects the map
   * kind (none: the prototype again), the prototype's map of that kind is
   * taken and every entry is inserted in turn.
   */
  function FetchMap(entries: seq<Wire>, proto: Data, rule: Rule): (d: Data)
    ensures entries == [] ==> d == proto
    decreases entries, 2
  {
    if entries == [] then proto
    else
      var first := if entries[0].WDictEntry? then entries[0].fields else [];
      if first == [] then proto
      else match KeyKindOf(first[0])
        case None => proto
        case Some(kt) => FromKeyMap(InsertAll(ToKeyMap(proto, kt).value, DecodeEntries(kt, entries, rule)))
  }

  /**
   * qFetchXKeyMapEntry: the entry's first item read as a key of kind `kt`
   * (toX: the kind's default on a mismatch or a missing item), the second
   * as the value (Invalid when missing).
   */
  function DecodeEntry(kt: KeyKind, w: Wire, rule: Rule): (e: (Key, Data))
    decreases w, 1
  {
    var fs := if w.WDictEntry? then w.fields else [];
    var key := KeyOf(ToPayload(if fs == [] then Invalid else Decode(fs[0], rule), kt).value);
    (key, if |fs| < 2 then Invalid else Decode(fs[1], rule))
  }

  /** Every entry decoded, in order. */
  function DecodeEntries(kt: KeyKind, entries: seq<Wire>, rule: Rule): (ps: seq<(Key, Data)>)
    ensures |ps| == |entries|
    ensures forall i :: 0 <= i < |entries| ==> ps[i] == DecodeEntry(kt, entries[i], rule)
    decreases entries, 1
  {
    if entries == [] then [] else [DecodeEntry(kt, entries[0], rule)] + DecodeEntries(kt, entries[1..], rule)
  }

  // ---------------------------------------------------------------------
  // The round trip

  /**
   * The values the marshaller carries through a message unchanged: no
   * Invalid part; object paths valid; no descriptors (the bus hands the
   * receiver a new descriptor); a variant's signature is its value's; no
   * empty struct (it is not written at all); lists and maps well-typed,
   * with a complete element or value kind whose prototype the signature
   * parser rebuilds exactly, or, when it does not, at least one element to
   * take the prototype from; map keys within their kind's range, and no
   * descriptor-keyed entries (the decoder has no descriptor key case).
   */
  predicate Marshallable(d: Data)
    decreases d, 1
  {
    match d
    case Invalid => false
    case Scalar(p) =>
      if p.PVariant? then p.v.signature == Signature(p.v.value) && Marshallable(p.v.value)
      else !p.PUnixFd? && PayloadAccepted(p)
    case List(l) =>
      l.elemType != InvalidType && DataLists.WellTyped(l) && Describable(d)
      && (IsContainer(l.elemType) ==> ExactProto(l.containerItem) || (Proto(l.containerItem).Invalid? && l.items != []))
      && forall i :: 0 <= i < |l.items| ==> Marshallable(l.items[i])
    case Struct(ms) => ms != [] && forall i :: 0 <= i < |ms| ==> Marshallable(ms[i])
    case Map(m) =>
      m.valueType != InvalidType && DataMaps.WellTyped(m) && Describable(d)
      && (IsContainer(m.valueType) ==> ExactProto(m.containerValue) || (Proto(m.containerValue).Invalid? && m.entries != []))
      && (m.keyType == UnixFdType ==> m.entries == [])
      && forall i :: 0 <= i < |m.entries| ==>
           KeyFits(m.keyType, m.entries[i].0)
           && (m.keyType == ObjectPathType ==> ObjectPaths.IsValid(m.entries[i].0.s))
           && Marshallable(m.entries[i].1)
  }

  /**
   * The prototype an array's signature parses to is the prototype of the
   * value it was written from: always for the intended parser, for the
   * parser as written when the type is ParseSafe.
   */
  lemma PrototypeOfSignature(v: Data, rule: Rule)
    requires Describable(v) && (rule == AsWritten ==> ParseSafe(v))
    ensures Prototype(Signature(v), rule) == Proto(v)
  {
    ParseSignatureOfValues([v], rule);
    assert MemberSignatures([v]) == Signature(v) + MemberSignatures([]);
    assert Signature(v) + "" == Signature(v);
    assert Protos([v]) == [Proto(v)] + Protos([]);
  }

  /** Appending values that each fit a typed list grows it by exactly those values. */
  lemma {:induction false} AppendAllFits(l: ListValue, ds: seq<Data>)
    requires l.elemType != InvalidType
    requires forall i :: 0 <= i < |ds| ==> Fits(l.elemType, l.containerItem, ds[i])
    ensures AppendAll(l, ds) == l.(items := l.items + ds)
    decreases |ds|
  {
    if ds != [] {
      var l' := l.(items := l.items + [ds[0]]);
      AppendFits(l, ds[0]);
      forall i | 0 <= i < |ds| - 1 ensures Fits(l'.elemType, l'.containerItem, ds[1..][i]) {
        assert ds[1..][i] == ds[i + 1];
      }
      AppendAllFits(l', ds[1..]);
      ConsAssoc(l.items, ds);
    }
  }

  /** `list << x` with an x that fits the list appends it. */
  lemma AppendFits(l: ListValue, d: Data)
    requires l.elemType != InvalidType
    requires Fits(l.elemType, l.containerItem, d)
    ensures ListAppend(l, d) == l.(items := l.items + [d])
  {
  }

  lemma ConsAssoc<T>(a: seq<T>, ds: seq<T>)
    requires ds != []
    ensures (a + [ds[0]]) + ds[1..] == a + ds
  {
    assert [ds[0]] + ds[1..] == ds;
  }

  /** The encoding of values that each encode to one item, item by item; each item decodes to a value equal to its source. */
  lemma {:induction false} RoundTripAll(ds: seq<Data>)
    requires forall i :: 0 <= i < |ds| ==> Marshallable(ds[i])
    ensures |EncodeAll(ds, Corrected)| == |ds|
    ensures forall i :: 0 <= i < |ds| ==> Equal(Decode(EncodeAll(ds, Corrected)[i], Corrected), ds[i])
    decreases ds, 1
  {
    if ds != [] {
      RoundTrip(ds[0]);
      RoundTripAll(ds[1..]);
      var ws := EncodeAll(ds, Corrected);
      assert ws == Encode(ds[0], Corrected) + EncodeAll(ds[1..], Corrected);
      forall i | 0 <= i < |ds| ensures Equal(Decode(ws[i], Corrected), ds[i]) {
        if i > 0 {
          assert ws[i] == EncodeAll(ds[1..], Corrected)[i - 1];
          assert ds[i] == ds[1..][i - 1];
        }
      }
    }
  }

  /**
   * Writing a marshallable value and reading it back gives a value equal
   * to it: one item is written, and the decoder rebuilds the same kinds,
   * payloads, element kinds, prototypes (by signature), elements and
   * entries.
   */
  lemma {:induction false} RoundTrip(d: Data)
    requires Marshallable(d)
    ensures |Encode(d, Corrected)| == 1
    ensures Equal(Decode(Encode(d, Corrected)[0], Corrected), d)
    decreases d, 2
  {
    match d
    case Scalar(_) => RoundTripScalar(d);
    case List(_) => RoundTripList(d);
    case Struct(_) => RoundTripStruct(d);
    case Map(_) => RoundTripMap(d);
  }

  /** The scalar and variant cases of RoundTrip. */
  lemma {:induction false} RoundTripScalar(d: Data)
    requires d.Scalar? && Marshallable(d)
    ensures |Encode(d, Corrected)| == 1
    ensures Equal(Decode(Encode(d, Corrected)[0], Corrected), d)
    decreases d, 1
  {
    var p := d.p;
    if p.PVariant? {
      RoundTripVariant(d);
    } else {
      assert Decode(WBasic(p), Corrected) == d;
      assert PayloadEqual(p, p);
    }
  }

  /** The variant case of RoundTrip. */
  lemma {:induction false} RoundTripVariant(d: Data)
    requires d.Scalar? && d.p.PVariant? && Marshallable(d)
    ensures |Encode(d, Corrected)| == 1
    ensures Equal(Decode(Encode(d, Corrected)[0], Corrected), d)
    decreases d, 0
  {
    var v := d.p.v;
    RoundTrip(v.value);
    SignatureShape(v.value);
    var w := Encode(v.value, Corrected)[0];
    var back := Decode(w, Corrected);
    assert Encode(d, Corrected) == [WVariant(v.signature, [w])];
    assert Decode(WVariant(v.signature, [w]), Corrected) == Scalar(PVariant(DBusVariant(v.signature, back)));
    assert PayloadEqual(PVariant(DBusVariant(v.signature, back)), d.p);
  }

  /** The struct case of RoundTrip. */
  lemma {:induction false} RoundTripStruct(d: Data)
    requires d.Struct? && Marshallable(d)
    ensures |Encode(d, Corrected)| == 1
    ensures Equal(Decode(Encode(d, Corrected)[0], Corrected), d)
    decreases d, 1
  {
    var ms := d.members;
    RoundTripAll(ms);
    var ds := DecodeAll(EncodeAll(ms, Corrected), Corrected);
    forall i | 0 <= i < |ds| ensures !ds[i].Invalid? && Equal(ds[i], ms[i]) {
      EqualSameSignature(ds[i], ms[i]);
    }
    assert Decode(Encode(d, Corrected)[0], Corrected) == Struct(ds);
  }

  /** What Marshallable says of a list, spelled out. */
  lemma ListFacts(d: Data)
    requires d.List? && Marshallable(d)
    ensures var l := d.list;
            l.elemType != InvalidType && Describable(d)
            && (IsContainer(l.elemType) ==> TypeOf(l.containerItem) == l.elemType && Describable(l.containerItem))
            && (IsContainer(l.elemType) ==> ExactProto(l.containerItem) || (Proto(l.containerItem).Invalid? && l.items != []))
            && (forall i :: 0 <= i < |l.items| ==> Fits(l.elemType, l.containerItem, l.items[i]))
            && (forall i :: 0 <= i < |l.items| ==> Marshallable(l.items[i]))
  {
  }

  /** An array written from a list is read back as a list rebuilt on the list's own prototype. */
  lemma ReadAsList(d: Data)
    requires d.List? && d.list.elemType != InvalidType && Describable(d)
    ensures At(ElementSignature(d.list), 0) != '{'
    ensures Encode(d, Corrected) == [WArray(ElementSignature(d.list), EncodeAll(d.list.items, Corrected))]
    ensures Decode(Encode(d, Corrected)[0], Corrected)
            == FromList(AppendAll(ToList(Proto(d)).value, DecodeAll(EncodeAll(d.list.items, Corrected), Corrected)))
  {
    var l := d.list;
    var es := ElementSignature(l);
    if IsContainer(l.elemType) {
      SignatureHead(l.containerItem);
    } else {
      SingleTypeOfCode(l.elemType);
    }
    assert At(es, 0) != '{';
    assert "a" + es == Signature(d);
    PrototypeOfSignature(d, Corrected);
  }

  /** Values equal to a typed list's elements have the element kind and the elements' signatures. */
  lemma EqualElementsFit(l: ListValue, ds: seq<Data>)
    requires |ds| == |l.items|
    requires forall i :: 0 <= i < |ds| ==> Equal(ds[i], l.items[i]) && Fits(l.elemType, l.containerItem, l.items[i])
    ensures forall i :: 0 <= i < |ds| ==> TypeOf(ds[i]) == l.elemType && Signature(ds[i]) == Signature(l.items[i])
  {
    forall i | 0 <= i < |ds| ensures TypeOf(ds[i]) == l.elemType && Signature(ds[i]) == Signature(l.items[i]) {
      EqualSameSignature(ds[i], l.items[i]);
    }
  }

  /** A list prototype with an element kind takes every fitting value. */
  lemma AppendToPrototype(l: ListValue, ds: seq<Data>)
    requires l.elemType != InvalidType && |ds| == |l.items|
    requires IsContainer(l.elemType) ==> TypeOf(l.containerItem) == l.elemType && ExactProto(l.containerItem)
    requires forall i :: 0 <= i < |ds| ==>
               TypeOf(ds[i]) == l.elemType && (IsContainer(l.elemType) ==> Signature(ds[i]) == Signature(l.containerItem))
    ensures var ci' := if IsContainer(l.elemType) then Proto(l.containerItem) else Invalid;
            AppendAll(ToList(Proto(List(l))).value, ds) == ListValue(l.elemType, ci', ds)
  {
    var et := l.elemType;
    var ci' := if IsContainer(et) then Proto(l.containerItem) else Invalid;
    var l0 := ToList(Proto(List(l))).value;
    assert l0 == ListValue(et, ci', []);
    AppendAllFits(l0, ds);
    assert [] + ds == ds;
  }

  /** A list prototype without an element kind takes the first value's kind and, for containers, the value itself. */
  lemma AppendToEmpty(l: ListValue, ds: seq<Data>)
    requires IsContainer(l.elemType) && Proto(l.containerItem).Invalid? && ds != []
    requires forall i :: 0 <= i < |ds| ==> TypeOf(ds[i]) == l.elemType && Signature(ds[i]) == Signature(ds[0])
    ensures AppendAll(ToList(Proto(List(l))).value, ds) == ListValue(l.elemType, ds[0], ds)
  {
    var et := l.elemType;
    var l0 := ToList(Proto(List(l))).value;
    assert l0 == EmptyList();
    assert ListAppend(l0, ds[0]) == ListValue(et, ds[0], [ds[0]]);
    assert forall i :: 0 <= i < |ds[1..]| ==> ds[1..][i] == ds[i + 1];
    AppendAllFits(ListValue(et, ds[0], [ds[0]]), ds[1..]);
    assert [ds[0]] + ds[1..] == ds;
  }

  /**
   * Appending values equal to a typed list's elements to the list's
   * prototype rebuilds a list equal to it.
   */
  lemma ListRebuilt(l: ListValue, ds: seq<Data>)
    requires l.elemType != InvalidType && |ds| == |l.items|
    requires IsContainer(l.elemType) ==> TypeOf(l.containerItem) == l.elemType
    requires IsContainer(l.elemType) ==> ExactProto(l.containerItem) || (Proto(l.containerItem).Invalid? && ds != [])
    requires forall i :: 0 <= i < |ds| ==> Equal(ds[i], l.items[i]) && Fits(l.elemType, l.containerItem, l.items[i])
    ensures Equal(FromList(AppendAll(ToList(Proto(List(l))).value, ds)), List(l))
  {
    EqualElementsFit(l, ds);
    var ci' := if !IsContainer(l.elemType) then Invalid
               else if !Proto(l.containerItem).Invalid? then Proto(l.containerItem)
               else ds[0];
    if IsContainer(l.elemType) && Proto(l.containerItem).Invalid? {
      AppendToEmpty(l, ds);
    } else {
      AppendToPrototype(l, ds);
    }
    var l' := ListValue(l.elemType, ci', ds);
    assert ContainerEqual(l', l);
    assert ListEqual(l', l);
  }

  /** The list case of RoundTrip. */
  lemma {:induction false} RoundTripList(d: Data)
    requires d.List? && Marshallable(d)
    ensures |Encode(d, Corrected)| == 1
    ensures Equal(Decode(Encode(d, Corrected)[0], Corrected), d)
    decreases d, 1
  {
    var l := d.list;
    ListFacts(d);
    RoundTripAll(l.items);
    ReadAsList(d);
    ListRebuilt(l, DecodeAll(EncodeAll(l.items, Corrected), Corrected));
  }
  /** What Marshallable says of a map, spelled out. */
  lemma MapFacts(d: Data)
    requires d.Map? && Marshallable(d)
    ensures var m := d.dict;
            m.valueType != InvalidType && Describable(d) && Sorted(m.entries)
            && (IsContainer(m.valueType) ==> TypeOf(m.containerValue) == m.valueType)
            && (IsContainer(m.valueType) ==> ExactProto(m.containerValue) || (Proto(m.containerValue).Invalid? && m.entries != []))
            && (m.entries != [] ==> m.keyType != UnixFdType)
            && (forall i :: 0 <= i < |m.entries| ==> Fits(m.valueType, m.containerValue, m.entries[i].1))
            && (forall i :: 0 <= i < |m.entries| ==> EntryMarshallable(m.keyType, m.entries[i]))
  {
  }

  /** A map entry the marshaller carries: key in range, object path keys valid, value marshallable. */
  predicate EntryMarshallable(kt: KeyKind, e: (Key, Data))
  {
    KeyFits(kt, e.0) && (kt == ObjectPathType ==> ObjectPaths.IsValid(e.0.s)) && Marshallable(e.1)
  }

  /** An array written from a map is read back by qFetchMap on the map's own prototype. */
  lemma ReadAsMap(d: Data)
    requires d.Map? && Describable(d)
    ensures |Encode(d, Corrected)| == 1 && Encode(d, Corrected)[0].WArray?
    ensures Encode(d, Corrected)[0].elemSig == "{" + TypeCode(d.dict.keyType) + ValueSignature(d.dict) + "}"
    ensures var w := Encode(d, Corrected)[0];
            |w.items| == |d.dict.entries|
            && (forall i :: 0 <= i < |w.items| ==>
                  w.items[i] == WDictEntry([WBasic(KeyPayload(d.dict.keyType, d.dict.entries[i].0))] + Encode(d.dict.entries[i].1, Corrected)))
            && Decode(w, Corrected) == FetchMap(w.items, Proto(d), Corrected)
  {
    var m := d.dict;
    var sig := "{" + TypeCode(m.keyType) + ValueSignature(m) + "}";
    assert "a" + sig == Signature(d);
    PrototypeOfSignature(d, Corrected);
  }

  /** Entries holding a key item and the item of a value decode to that key and the value's decoding. */
  lemma DecodeKeyedEntries(kt: KeyKind, es: seq<(Key, Data)>, ws: seq<Wire>)
    requires |ws| == |es| && kt != UnixFdType
    requires forall i :: 0 <= i < |es| ==>
               KeyFits(kt, es[i].0) && (kt == ObjectPathType ==> ObjectPaths.IsValid(es[i].0.s))
               && ws[i].WDictEntry? && |ws[i].fields| == 2 && ws[i].fields[0] == WBasic(KeyPayload(kt, es[i].0))
    ensures forall i :: 0 <= i < |es| ==>
              DecodeEntries(kt, ws, Corrected)[i] == (es[i].0, Decode(ws[i].fields[1], Corrected))
  {
    forall i | 0 <= i < |es| ensures DecodeEntries(kt, ws, Corrected)[i] == (es[i].0, Decode(ws[i].fields[1], Corrected)) {
      var p := KeyPayload(kt, es[i].0);
      assert PayloadAccepted(p);
      assert Decode(WBasic(p), Corrected) == Scalar(p);
    }
  }

  /** The map prototype read back for a map whose value kind is known: its kinds and the value prototype, no entries. */
  lemma MapPrototypeValue(m: MapValue)
    requires m.valueType != InvalidType
    requires IsContainer(m.valueType) ==> TypeOf(m.containerValue) == m.valueType && ExactProto(m.containerValue)
    ensures var cv' := if IsContainer(m.valueType) then Proto(m.containerValue) else Invalid;
            ToKeyMap(Proto(Map(m)), m.keyType).value == MapValue(m.keyType, m.valueType, cv', [])
  {
    if IsContainer(m.valueType) {
      assert TypeOf(Proto(m.containerValue)) == m.valueType;
    }
  }

  /** Values of the map's kind and signature fit the prototype ToKeyMap gives. */
  lemma PrototypeFits(m: MapValue, ps: seq<(Key, Data)>)
    requires m.valueType != InvalidType
    requires IsContainer(m.valueType) ==> TypeOf(m.containerValue) == m.valueType && ExactProto(m.containerValue)
    requires forall i :: 0 <= i < |ps| ==>
               TypeOf(ps[i].1) == m.valueType && (IsContainer(m.valueType) ==> Signature(ps[i].1) == Signature(m.containerValue))
    ensures AllFit(m.valueType, if IsContainer(m.valueType) then Proto(m.containerValue) else Invalid, ps)
  {
    var cv' := if IsContainer(m.valueType) then Proto(m.containerValue) else Invalid;
    forall i | 0 <= i < |ps| ensures Fits(m.valueType, cv', ps[i].1) {
      if IsContainer(m.valueType) {
        assert Signature(cv') == Signature(m.containerValue);
      }
    }
  }

  /** Inserting, in key order, values that fit a map prototype with a value kind stores exactly them. */
  lemma InsertIntoPrototype(m: MapValue, ps: seq<(Key, Data)>)
    requires m.valueType != InvalidType && Sorted(ps)
    requires IsContainer(m.valueType) ==> TypeOf(m.containerValue) == m.valueType && ExactProto(m.containerValue)
    requires forall i :: 0 <= i < |ps| ==>
               TypeOf(ps[i].1) == m.valueType && (IsContainer(m.valueType) ==> Signature(ps[i].1) == Signature(m.containerValue))
    ensures var cv' := if IsContainer(m.valueType) then Proto(m.containerValue) else Invalid;
            InsertAll(ToKeyMap(Proto(Map(m)), m.keyType).value, ps) == MapValue(m.keyType, m.valueType, cv', ps)
  {
    var cv' := if IsContainer(m.valueType) then Proto(m.containerValue) else Invalid;
    MapPrototypeValue(m);
    var m0 := MapValue(m.keyType, m.valueType, cv', []);
    PrototypeFits(m, ps);
    InsertAllAppends(m0, ps);
    DropInvalidKeepsValid(ps);
    assert m0.entries + DropInvalid(ps) == ps;
  }

  /** After the first pair, the remaining pairs of a sorted run of values sharing the first one's kind and signature are appended. */
  lemma InsertRest(kt: KeyKind, vt: DataType, ps: seq<(Key, Data)>)
    requires vt != InvalidType && ps != [] && Sorted(ps)
    requires forall i :: 0 <= i < |ps| ==> TypeOf(ps[i].1) == vt && Signature(ps[i].1) == Signature(ps[0].1)
    ensures InsertAll(MapValue(kt, vt, ps[0].1, [ps[0]]), ps[1..]) == MapValue(kt, vt, ps[0].1, ps)
  {
    var m1 := MapValue(kt, vt, ps[0].1, [ps[0]]);
    SortedTail(ps);
    assert forall i :: 0 <= i < |ps[1..]| ==> ps[1..][i] == ps[i + 1];
    assert AllFit(vt, ps[0].1, ps[1..]);
    if |ps| > 1 { assert KeyLess(ps[0].0, ps[1..][0].0); }
    InsertAllAppends(m1, ps[1..]);
    DropInvalidKeepsValid(ps[1..]);
    assert [ps[0]] + ps[1..] == ps;
  }

  /** A map prototype without a value kind takes the first value's kind and the value itself as prototype. */
  lemma InsertIntoEmpty(m: MapValue, ps: seq<(Key, Data)>)
    requires IsContainer(m.valueType) && Proto(m.containerValue).Invalid? && ps != [] && Sorted(ps)
    requires forall i :: 0 <= i < |ps| ==> TypeOf(ps[i].1) == m.valueType && Signature(ps[i].1) == Signature(ps[0].1)
    ensures InsertAll(ToKeyMap(Proto(Map(m)), m.keyType).value, ps) == MapValue(m.keyType, m.valueType, ps[0].1, ps)
  {
    var kt, vt := m.keyType, m.valueType;
    var m0 := ToKeyMap(Proto(Map(m)), kt).value;
    assert m0 == MapValue(kt, InvalidType, Invalid, []);
    assert MapInsert(m0, ps[0].0, ps[0].1).1 == MapValue(kt, vt, ps[0].1, [ps[0]]);
    InsertRest(kt, vt, ps);
  }

  /**
   * Inserting the keys of a typed map with values equal to its own into
   * the map's prototype rebuilds a map equal to it.
   */
  lemma MapRebuilt(m: MapValue, ps: seq<(Key, Data)>)
    requires m.valueType != InvalidType && Sorted(m.entries) && |ps| == |m.entries|
    requires IsContainer(m.valueType) ==> TypeOf(m.containerValue) == m.valueType
    requires IsContainer(m.valueType) ==> ExactProto(m.containerValue) || (Proto(m.containerValue).Invalid? && ps != [])
    requires forall i :: 0 <= i < |ps| ==>
               ps[i].0 == m.entries[i].0 && Equal(ps[i].1, m.entries[i].1) && Fits(m.valueType, m.containerValue, m.entries[i].1)
    ensures Equal(FromKeyMap(InsertAll(ToKeyMap(Proto(Map(m)), m.keyType).value, ps)), Map(m))
  {
    forall i | 0 <= i < |ps| ensures TypeOf(ps[i].1) == m.valueType && Signature(ps[i].1) == Signature(m.entries[i].1) {
      EqualSameSignature(ps[i].1, m.entries[i].1);
    }
    assert Sorted(ps) by {
      forall i, j | 0 <= i < j < |ps| ensures KeyLess(ps[i].0, ps[j].0) {
        assert KeyLess(m.entries[i].0, m.entries[j].0);
      }
    }
    var cv' := if !IsContainer(m.valueType) then Invalid
               else if !Proto(m.containerValue).Invalid? then Proto(m.containerValue)
               else ps[0].1;
    if IsContainer(m.valueType) && Proto(m.containerValue).Invalid? {
      InsertIntoEmpty(m, ps);
    } else {
      InsertIntoPrototype(m, ps);
    }
    assert MapEqual(MapValue(m.keyType, m.valueType, cv', ps), m);
  }

  /** The map case of RoundTrip. */
  lemma {:induction false} RoundTripMap(d: Data)
    requires d.Map? && Marshallable(d)
    ensures |Encode(d, Corrected)| == 1
    ensures Equal(Decode(Encode(d, Corrected)[0], Corrected), d)
    decreases d, 1
  {
    var m := d.dict;
    MapFacts(d);
    forall i | 0 <= i < |m.entries|
      ensures KeyFits(m.keyType, m.entries[i].0) && (m.keyType == ObjectPathType ==> ObjectPaths.IsValid(m.entries[i].0.s))
      ensures |Encode(m.entries[i].1, Corrected)| == 1
      ensures Equal(Decode(Encode(m.entries[i].1, Corrected)[0], Corrected), m.entries[i].1)
    {
      assert EntryMarshallable(m.keyType, m.entries[i]);
      RoundTrip(m.entries[i].1);
    }
    MapReadBack(d);
  }

  /** What RoundTripMap knows of a map once every value is known to round-trip. */
  predicate ReadBackReady(d: Data)
  {
    d.Map? && d.dict.valueType != InvalidType && Describable(d) && Sorted(d.dict.entries)
    && (var m := d.dict;
        (IsContainer(m.valueType) ==> TypeOf(m.containerValue) == m.valueType)
        && (IsContainer(m.valueType) ==> ExactProto(m.containerValue) || (Proto(m.containerValue).Invalid? && m.entries != []))
        && (m.entries != [] ==> m.keyType != UnixFdType)
        && forall i :: 0 <= i < |m.entries| ==>
             Fits(m.valueType, m.containerValue, m.entries[i].1)
             && KeyFits(m.keyType, m.entries[i].0) && (m.keyType == ObjectPathType ==> ObjectPaths.IsValid(m.entries[i].0.s))
             && |Encode(m.entries[i].1, Corrected)| == 1
             && Equal(Decode(Encode(m.entries[i].1, Corrected)[0], Corrected), m.entries[i].1))
  }

  /** RoundTripMap once every value is known to round-trip. */
  lemma MapReadBack(d: Data)
    requires ReadBackReady(d)
    ensures |Encode(d, Corrected)| == 1
    ensures Equal(Decode(Encode(d, Corrected)[0], Corrected), d)
  {
    ReadAsMap(d);
    if d.dict.entries == [] {
      var w := Encode(d, Corrected)[0];
      assert Decode(w, Corrected) == Proto(d);
      MapRebuilt(d.dict, []);
      assert InsertAll(ToKeyMap(Proto(d), d.dict.keyType).value, []) == ToKeyMap(Proto(d), d.dict.keyType).value;
    } else {
      MapReadBackEntries(d);
    }
  }

  /** MapReadBack for a map with entries. */
  lemma MapReadBackEntries(d: Data)
    requires ReadBackReady(d) && d.dict.entries != []
    ensures |Encode(d, Corrected)| == 1
    ensures Equal(Decode(Encode(d, Corrected)[0], Corrected), d)
  {
    var m := d.dict;
    var kt, es := m.keyType, m.entries;
    ReadAsMap(d);
    var w := Encode(d, Corrected)[0];
    DecodeKeyedEntries(kt, es, w.items);
    var ps := DecodeEntries(kt, w.items, Corrected);
    assert KeyKindOf(w.items[0].fields[0]) == Some(kt);
    assert Decode(w, Corrected) == FromKeyMap(InsertAll(ToKeyMap(Proto(d), kt).value, ps));
    MapRebuilt(m, ps);
  }

  /** The arguments of a message whose values are all marshallable are read back equal, in order. */
  lemma MessageRoundTrip(ds: seq<Data>)
    requires forall i :: 0 <= i < |ds| ==> Marshallable(ds[i])
    ensures |DecodeAll(EncodeAll(ds, Corrected), Corrected)| == |ds|
    ensures MembersEqual(DecodeAll(EncodeAll(ds, Corrected), Corrected), ds)
  {
    RoundTripAll(ds);
  }

  // ---------------------------------------------------------------------
  // The round trip with the writer and the parser as written

  /**
   * Values on which the writer and the parser as written behave as
   * intended: every non-empty map, at any depth, is keyed by String or
   * ObjectPath (the only kinds whose key the writer puts into the dict
   * entry), and the type of every list and map is ParseSafe (no array of
   * containers followed by a sibling inside its element signature).
   */
  predicate AsWrittenSafe(d: Data)
    decreases d
  {
    match d
    case Invalid => true
    case Scalar(p) => p.PVariant? ==> AsWrittenSafe(p.v.value)
    case List(l) => ParseSafe(d) && forall i :: 0 <= i < |l.items| ==> AsWrittenSafe(l.items[i])
    case Struct(ms) => forall i :: 0 <= i < |ms| ==> AsWrittenSafe(ms[i])
    case Map(m) =>
      (m.entries != [] ==> m.keyType == StringType || m.keyType == ObjectPathType)
      && ParseSafe(d) && forall i :: 0 <= i < |m.entries| ==> AsWrittenSafe(m.entries[i].1)
  }

  /** On such values the writer as written appends the same items as the intended one. */
  lemma {:induction false} EncodeAgrees(d: Data)
    requires AsWrittenSafe(d)
    ensures Encode(d, AsWritten) == Encode(d, Corrected)
    decreases d, 1
  {
    match d
    case Invalid =>
    case Scalar(p) =>
      if p.PVariant? { EncodeAgrees(p.v.value); }
    case List(l) => EncodeAllAgree(l.items);
    case Struct(ms) => EncodeAllAgree(ms);
    case Map(m) =>
      var es := m.entries;
      var a := seq(|es|, i requires 0 <= i < |es| => WDictEntry(KeyItems(m.keyType, es[i].0, AsWritten) + Encode(es[i].1, AsWritten)));
      var b := seq(|es|, i requires 0 <= i < |es| => WDictEntry(KeyItems(m.keyType, es[i].0, Corrected) + Encode(es[i].1, Corrected)));
      forall i | 0 <= i < |es| ensures a[i] == b[i] {
        EncodeAgrees(es[i].1);
      }
      assert a == b;
  }

  lemma {:induction false} EncodeAllAgree(ds: seq<Data>)
    requires forall i :: 0 <= i < |ds| ==> AsWrittenSafe(ds[i])
    ensures EncodeAll(ds, AsWritten) == EncodeAll(ds, Corrected)
    decreases ds, 0
  {
    if ds != [] {
      EncodeAgrees(ds[0]);
      assert forall i :: 0 <= i < |ds[1..]| ==> ds[1..][i] == ds[i + 1];
      EncodeAllAgree(ds[1..]);
    }
  }

  /**
   * On such values the parser as written reads the item the intended
   * writer appends as the intended parser does: the array prototypes it
   * parses from the element signatures are the same.
   */
  lemma {:induction false} DecodeAgrees(d: Data)
    requires Marshallable(d) && AsWrittenSafe(d)
    ensures |Encode(d, Corrected)| == 1
    ensures Decode(Encode(d, Corrected)[0], AsWritten) == Decode(Encode(d, Corrected)[0], Corrected)
    decreases d, 2
  {
    match d
    case Scalar(p) => DecodeScalarAgrees(d);
    case List(l) => DecodeListAgrees(d);
    case Struct(ms) => DecodeStructAgrees(d);
    case Map(m) => DecodeMapAgrees(d);
  }

  lemma {:induction false} DecodeAllAgree(ds: seq<Data>)
    requires forall i :: 0 <= i < |ds| ==> Marshallable(ds[i]) && AsWrittenSafe(ds[i])
    ensures DecodeAll(EncodeAll(ds, Corrected), AsWritten) == DecodeAll(EncodeAll(ds, Corrected), Corrected)
    decreases ds, 0
  {
    if ds != [] {
      DecodeAgrees(ds[0]);
      assert forall i :: 0 <= i < |ds[1..]| ==> ds[1..][i] == ds[i + 1];
      DecodeAllAgree(ds[1..]);
      var w := Encode(ds[0], Corrected)[0];
      var rest := EncodeAll(ds[1..], Corrected);
      assert EncodeAll(ds, Corrected) == [w] + rest;
      assert ([w] + rest)[1..] == rest;
    }
  }

  /** The scalar and variant cases of DecodeAgrees. */
  lemma {:induction false} DecodeScalarAgrees(d: Data)
    requires d.Scalar? && Marshallable(d) && AsWrittenSafe(d)
    ensures |Encode(d, Corrected)| == 1
    ensures Decode(Encode(d, Corrected)[0], AsWritten) == Decode(Encode(d, Corrected)[0], Corrected)
    decreases d, 1
  {
    if d.p.PVariant? {
      var v := d.p.v;
      RoundTrip(v.value);
      DecodeAgrees(v.value);
      var w := Encode(v.value, Corrected)[0];
      assert Encode(d, Corrected) == [WVariant(v.signature, [w])];
      VariantItemAgrees(v.signature, w);
    } else {
      assert Encode(d, Corrected) == [WBasic(d.p)];
    }
  }

  /** A variant item reads alike under both rules when its contents do. */
  lemma VariantItemAgrees(sig: string, w: Wire)
    requires Decode(w, AsWritten) == Decode(w, Corrected)
    ensures Decode(WVariant(sig, [w]), AsWritten) == Decode(WVariant(sig, [w]), Corrected)
  {
  }

  /** The struct case of DecodeAgrees. */
  lemma {:induction false} DecodeStructAgrees(d: Data)
    requires d.Struct? && Marshallable(d) && AsWrittenSafe(d)
    ensures |Encode(d, Corrected)| == 1
    ensures Decode(Encode(d, Corrected)[0], AsWritten) == Decode(Encode(d, Corrected)[0], Corrected)
    decreases d, 1
  {
    assert Encode(d, Corrected) == [WStruct(EncodeAll(d.members, Corrected))];
    DecodeAllAgree(d.members);
  }

  /** An array item reads alike under both rules when its prototype and its contents do. */
  lemma ArrayAgrees(w: Wire)
    requires w.WArray? && Prototype("a" + w.elemSig, AsWritten) == Prototype("a" + w.elemSig, Corrected)
    requires At(w.elemSig, 0) == '{' ==>
               FetchMap(w.items, Prototype("a" + w.elemSig, Corrected), AsWritten)
               == FetchMap(w.items, Prototype("a" + w.elemSig, Corrected), Corrected)
    requires At(w.elemSig, 0) != '{' ==> DecodeAll(w.items, AsWritten) == DecodeAll(w.items, Corrected)
    ensures Decode(w, AsWritten) == Decode(w, Corrected)
  {
  }

  /** The list case of DecodeAgrees: the same prototype, and every element read alike. */
  lemma {:induction false} DecodeListAgrees(d: Data)
    requires d.List? && Marshallable(d) && AsWrittenSafe(d)
    ensures |Encode(d, Corrected)| == 1
    ensures Decode(Encode(d, Corrected)[0], AsWritten) == Decode(Encode(d, Corrected)[0], Corrected)
    decreases d, 1
  {
    var l := d.list;
    SafeListFacts(d);
    ReadAsList(d);
    var w := WArray(ElementSignature(l), EncodeAll(l.items, Corrected));
    assert "a" + w.elemSig == Signature(d);
    PrototypesAgree(d);
    DecodeAllAgree(l.items);
    ArrayAgrees(w);
  }

  /** What Marshallable and AsWrittenSafe say of a list, spelled out. */
  lemma SafeListFacts(d: Data)
    requires d.List? && Marshallable(d) && AsWrittenSafe(d)
    ensures d.list.elemType != InvalidType && Describable(d) && ParseSafe(d)
    ensures forall i :: 0 <= i < |d.list.items| ==> Marshallable(d.list.items[i]) && AsWrittenSafe(d.list.items[i])
  {
  }

  /** The map case of DecodeAgrees: the same prototype, and every entry's key and value read alike. */
  lemma {:induction false} DecodeMapAgrees(d: Data)
    requires d.Map? && Marshallable(d) && AsWrittenSafe(d)
    ensures |Encode(d, Corrected)| == 1
    ensures Decode(Encode(d, Corrected)[0], AsWritten) == Decode(Encode(d, Corrected)[0], Corrected)
    decreases d, 1
  {
    SafeMapFacts(d);
    EntriesAgree(d);
    MapItemPrototypesAgree(d);
    MapArrayAgrees(Encode(d, Corrected)[0]);
  }

  /** Both parsers read the element signature of the array written for a ParseSafe map as the same prototype. */
  lemma MapItemPrototypesAgree(d: Data)
    requires d.Map? && Describable(d) && ParseSafe(d)
    ensures |Encode(d, Corrected)| == 1 && Encode(d, Corrected)[0].WArray?
    ensures var w := Encode(d, Corrected)[0];
            At(w.elemSig, 0) == '{' && Prototype("a" + w.elemSig, AsWritten) == Prototype("a" + w.elemSig, Corrected)
  {
    ReadAsMap(d);
    MapElementSignature(d);
    PrototypesAgree(d);
  }

  /** A map's signature is "a" followed by the element signature of its array, which opens a dict entry. */
  lemma MapElementSignature(d: Data)
    requires d.Map?
    ensures var es := "{" + TypeCode(d.dict.keyType) + ValueSignature(d.dict) + "}";
            es[0] == '{' && Signature(d) == "a" + es
  {
  }

  /** Both parsers read a ParseSafe type's signature as the same prototype. */
  lemma PrototypesAgree(d: Data)
    requires Describable(d) && ParseSafe(d)
    ensures Prototype(Signature(d), AsWritten) == Prototype(Signature(d), Corrected)
  {
    PrototypeOfSignature(d, AsWritten);
    PrototypeOfSignature(d, Corrected);
  }

  /** What Marshallable and AsWrittenSafe say of a map, spelled out. */
  lemma SafeMapFacts(d: Data)
    requires d.Map? && Marshallable(d) && AsWrittenSafe(d)
    ensures Describable(d) && ParseSafe(d)
    ensures forall i :: 0 <= i < |d.dict.entries| ==> AsWrittenSafe(d.dict.entries[i].1)
  {
  }

  /** A map's array item reads alike under both rules when its prototype and its entries' items do. */
  lemma MapArrayAgrees(w: Wire)
    requires w.WArray? && At(w.elemSig, 0) == '{'
    requires Prototype("a" + w.elemSig, AsWritten) == Prototype("a" + w.elemSig, Corrected)
    requires forall i :: 0 <= i < |w.items| ==>
               w.items[i].WDictEntry? && |w.items[i].fields| == 2
               && Decode(w.items[i].fields[0], AsWritten) == Decode(w.items[i].fields[0], Corrected)
               && Decode(w.items[i].fields[1], AsWritten) == Decode(w.items[i].fields[1], Corrected)
    ensures Decode(w, AsWritten) == Decode(w, Corrected)
  {
    FetchMapAgrees(w.items, Prototype("a" + w.elemSig, Corrected));
  }

  /** Each dict entry written from a marshallable, AsWrittenSafe map holds a key and a value that read alike. */
  lemma {:induction false} EntriesAgree(d: Data)
    requires d.Map? && Marshallable(d) && AsWrittenSafe(d)
    ensures |Encode(d, Corrected)| == 1 && Encode(d, Corrected)[0].WArray?
    ensures var w := Encode(d, Corrected)[0];
            forall i :: 0 <= i < |w.items| ==>
              w.items[i].WDictEntry? && |w.items[i].fields| == 2
              && Decode(w.items[i].fields[0], AsWritten) == Decode(w.items[i].fields[0], Corrected)
              && Decode(w.items[i].fields[1], AsWritten) == Decode(w.items[i].fields[1], Corrected)
    decreases d, 0
  {
    var m := d.dict;
    SafeMapFacts(d);
    ReadAsMap(d);
    var w := Encode(d, Corrected)[0];
    forall i | 0 <= i < |w.items|
      ensures w.items[i].WDictEntry? && |w.items[i].fields| == 2
      ensures Decode(w.items[i].fields[0], AsWritten) == Decode(w.items[i].fields[0], Corrected)
      ensures Decode(w.items[i].fields[1], AsWritten) == Decode(w.items[i].fields[1], Corrected)
    {
      assert m.entries[i].1 < d;
      assert EntryMarshallable(m.keyType, m.entries[i]);
      EntryItemAgrees(KeyPayload(m.keyType, m.entries[i].0), m.entries[i].1);
    }
  }

  /** A dict entry holding a key item and a value's item reads alike under both rules. */
  lemma {:induction false} EntryItemAgrees(k: BasicPayload, v: Data)
    requires Marshallable(v) && AsWrittenSafe(v)
    ensures var e := [WBasic(k)] + Encode(v, Corrected);
            |e| == 2 && Decode(e[0], AsWritten) == Decode(e[0], Corrected) && Decode(e[1], AsWritten) == Decode(e[1], Corrected)
    decreases v, 3
  {
    DecodeAgrees(v);
  }

  /** qFetchMap reads entries whose items read alike under both rules alike. */
  lemma FetchMapAgrees(items: seq<Wire>, proto: Data)
    requires forall i :: 0 <= i < |items| ==>
               items[i].WDictEntry? && |items[i].fields| == 2
               && Decode(items[i].fields[0], AsWritten) == Decode(items[i].fields[0], Corrected)
               && Decode(items[i].fields[1], AsWritten) == Decode(items[i].fields[1], Corrected)
    ensures FetchMap(items, proto, AsWritten) == FetchMap(items, proto, Corrected)
  {
    if items != [] && KeyKindOf(items[0].fields[0]).Some? {
      var kt := KeyKindOf(items[0].fields[0]).value;
      assert DecodeEntries(kt, items, AsWritten) == DecodeEntries(kt, items, Corrected);
    }
  }

  /**
   * With the writer and the parser as written, a marshallable value that
   * is AsWrittenSafe is read back equal to itself.
   */
  lemma RoundTripAsWritten(d: Data)
    requires Marshallable(d) && AsWrittenSafe(d)
    ensures |Encode(d, AsWritten)| == 1
    ensures Equal(Decode(Encode(d, AsWritten)[0], AsWritten), d)
  {
    EncodeAgrees(d);
    DecodeAgrees(d);
    RoundTrip(d);
  }

  /** The arguments of a message, written and read as the code does, when each is marshallable and AsWrittenSafe. */
  lemma MessageRoundTripAsWritten(ds: seq<Data>)
    requires forall i :: 0 <= i < |ds| ==> Marshallable(ds[i]) && AsWrittenSafe(ds[i])
    ensures |DecodeAll(EncodeAll(ds, AsWritten), AsWritten)| == |ds|
    ensures MembersEqual(DecodeAll(EncodeAll(ds, AsWritten), AsWritten), ds)
  {
    EncodeAllAgree(ds);
    DecodeAllAgree(ds);
    RoundTripAll(ds);
  }

  // ---------------------------------------------------------------------
  // Integer-keyed maps as written

  /** Inserting only Invalid values changes nothing. */
  lemma {:induction false} InsertAllInvalid(m: MapValue, ps: seq<(Key, Data)>)
    requires forall i :: 0 <= i < |ps| ==> ps[i].1.Invalid?
    ensures InsertAll(m, ps) == m
    decreases |ps|
  {
    if ps != [] {
      assert forall i :: 0 <= i < |ps[1..]| ==> ps[1..][i] == ps[i + 1];
      InsertAllInvalid(m, ps[1..]);
    }
  }

  /** Dict entries holding at most one item decode to no entry at all. */
  lemma FetchKeylessEntries(items: seq<Wire>, proto: Data, rule: Rule)
    requires proto.Map? && proto.dict.entries == []
    requires forall i :: 0 <= i < |items| ==> items[i].WDictEntry? && |items[i].fields| <= 1
    ensures var r := FetchMap(items, proto, rule); r.Map? && r.dict.entries == []
  {
    if items != [] && items[0].fields != [] && KeyKindOf(items[0].fields[0]).Some? {
      var kt := KeyKindOf(items[0].fields[0]).value;
      var ps := DecodeEntries(kt, items, rule);
      assert forall i :: 0 <= i < |ps| ==> ps[i].1.Invalid?;
      InsertAllInvalid(ToKeyMap(proto, kt).value, ps);
    }
  }

  /**
   * As written, a map keyed by an integer kind or by descriptors is
   * written with dict entries that hold only the value: read back by the
   * parser as written, it is a map without entries, so no such non-empty
   * map survives the trip.
   */
  lemma EncodeAsWrittenLosesEntries(d: Data)
    requires d.Map? && d.dict.entries != []
    requires d.dict.keyType != StringType && d.dict.keyType != ObjectPathType
    ensures Encode(d, AsWritten)[0].WArray?
    ensures forall i :: 0 <= i < |d.dict.entries| ==>
              Encode(d, AsWritten)[0].items[i] == WDictEntry(Encode(d.dict.entries[i].1, AsWritten))
    ensures var r := Decode(Encode(d, AsWritten)[0], AsWritten);
            r.Map? && r.dict.entries == [] && !Equal(r, d)
  {
    var m := d.dict;
    var w := Encode(d, AsWritten)[0];
    assert forall i :: 0 <= i < |w.items| ==> w.items[i] == WDictEntry([] + Encode(m.entries[i].1, AsWritten));
    KeylessDecode(d, w);
  }

  lemma KeylessDecode(d: Data, w: Wire)
    requires d.Map? && d.dict.entries != []
    requires w == Encode(d, AsWritten)[0]
    requires forall i :: 0 <= i < |w.items| ==> w.items[i] == WDictEntry(Encode(d.dict.entries[i].1, AsWritten))
    ensures var r := Decode(w, AsWritten);
            r.Map? && r.dict.entries == [] && !Equal(r, d)
  {
    assert "a" + w.elemSig == Signature(d);
    MapPrototypeIsEmpty(d, AsWritten);
    FetchKeylessEntries(w.items, Prototype(Signature(d), AsWritten), AsWritten);
  }

  // ---------------------------------------------------------------------
  // The marshaller as the code runs it: iterators filled and read item by item

  lemma {:induction false} EncodeAllAppend(a: seq<Data>, b: seq<Data>, rule: Rule)
    ensures EncodeAll(a + b, rule) == EncodeAll(a, rule) + EncodeAll(b, rule)
    decreases |a|
  {
    if a == [] {
      assert a + b == b;
    } else {
      assert (a + b)[1..] == a[1..] + b;
      EncodeAllAppend(a[1..], b, rule);
    }
  }

  lemma {:induction false} AppendAllSnoc(l: ListValue, ds: seq<Data>, d: Data)
    ensures AppendAll(l, ds + [d]) == ListAppend(AppendAll(l, ds), d)
    decreases |ds|
  {
    if ds == [] {
      assert ([] + [d])[1..] == [];
    } else {
      assert (ds + [d])[1..] == ds[1..] + [d];
      AppendAllSnoc(ListAppend(l, ds[0]), ds[1..], d);
    }
  }

  lemma EncodeAllSnoc(ds: seq<Data>, i: nat, rule: Rule)
    requires i < |ds|
    ensures EncodeAll(ds[..i + 1], rule) == EncodeAll(ds[..i], rule) + Encode(ds[i], rule)
  {
    EncodeAllAppend(ds[..i], [ds[i]], rule);
    assert ds[..i + 1] == ds[..i] + [ds[i]];
    assert [ds[i]][1..] == [];
  }

  lemma DecodeAllSnoc(ws: seq<Wire>, i: nat, rule: Rule)
    requires i < |ws|
    ensures DecodeAll(ws[..i + 1], rule) == DecodeAll(ws[..i], rule) + [Decode(ws[i], rule)]
  {
    var a, b := DecodeAll(ws[..i + 1], rule), DecodeAll(ws[..i], rule);
    forall j | 0 <= j < i ensures a[j] == b[j] {
      assert ws[..i + 1][j] == ws[j] == ws[..i][j];
    }
    assert a[i] == Decode(ws[i], rule) by {
      assert ws[..i + 1][i] == ws[i];
    }
    SnocOfElements(a, b, Decode(ws[i], rule));
  }

  /** A sequence that agrees with `b` and then ends in `x` is `b + [x]`. */
  lemma SnocOfElements<T>(a: seq<T>, b: seq<T>, x: T)
    requires |a| == |b| + 1 && a[|b|] == x
    requires forall j :: 0 <= j < |b| ==> a[j] == b[j]
    ensures a == b + [x]
  {
  }

  lemma DecodeEntriesStep(kt: KeyKind, es: seq<Wire>, i: nat, rule: Rule)
    requires i < |es|
    ensures DecodeEntries(kt, es[i..], rule) == [DecodeEntry(kt, es[i], rule)] + DecodeEntries(kt, es[i + 1..], rule)
  {
  }

  /**
   * qDBusDataToIterator: appends the items of `d` to the iterator `out`,
   * the items of a container gathered in a sub-iterator that is then
   * closed into one array, struct or variant item.
   */
  method DataToIterator(out: seq<Wire>, d: Data, rule: Rule) returns (out': seq<Wire>)
    ensures out' == out + Encode(d, rule)
    decreases d, 1
  {
    match d
    case Invalid =>
      out' := out;
    case Scalar(p) =>
      if !p.PVariant? {
        out' := out + [WBasic(p)];
      } else if p.v.signature == "" || p.v.value.Invalid? {
        out' := out;
      } else {
        var sub := DataToIterator([], p.v.value, rule);
        assert sub == Encode(p.v.value, rule);
        out' := out + [WVariant(p.v.signature, sub)];
      }
    case List(l) =>
      var items := l.items;
      var sub: seq<Wire> := [];
      var i := 0;
      while i < |items|
        invariant 0 <= i <= |items|
        invariant sub == EncodeAll(items[..i], rule)
      {
        EncodeAllSnoc(items, i, rule);
        sub := DataToIterator(sub, items[i], rule);
        i := i + 1;
      }
      assert items[..|items|] == items;
      out' := out + [WArray(ElementSignature(l), sub)];
    case Struct(ms) =>
      if ms == [] {
        out' := out;
      } else {
        var sub: seq<Wire> := [];
        var i := 0;
        while i < |ms|
          invariant 0 <= i <= |ms|
          invariant sub == EncodeAll(ms[..i], rule)
        {
          EncodeAllSnoc(ms, i, rule);
          sub := DataToIterator(sub, ms[i], rule);
          i := i + 1;
        }
        assert ms[..|ms|] == ms;
        out' := out + [WStruct(sub)];
      }
    case Map(_) =>
      out' := KeyMapToIterator(out, d, rule);
  }

  /**
   * qDBusByteKeyMapToIterator … qDBusUnixFdKeyMapToIterator: one array of
   * dict entries, each holding the key item (see KeyItems) and the items
   * of its value, in key order.
   */
  method KeyMapToIterator(out: seq<Wire>, d: Data, rule: Rule) returns (out': seq<Wire>)
    requires d.Map?
    ensures out' == out + Encode(d, rule)
    decreases d, 0
  {
    var kt := d.dict.keyType;
    var sub: seq<Wire> := [];
    var i := 0;
    while i < |d.dict.entries|
      invariant 0 <= i <= |d.dict.entries| && |sub| == i
      invariant forall j :: 0 <= j < i ==>
                  sub[j] == WDictEntry(KeyItems(kt, d.dict.entries[j].0, rule) + Encode(d.dict.entries[j].1, rule))
    {
      var item := KeyItems(kt, d.dict.entries[i].0, rule);
      item := DataToIterator(item, d.dict.entries[i].1, rule);
      sub := sub + [WDictEntry(item)];
      i := i + 1;
    }
    var es := d.dict.entries;
    assert sub == seq(|es|, j requires 0 <= j < |es| => WDictEntry(KeyItems(kt, es[j].0, rule) + Encode(es[j].1, rule)));
    out' := out + [WArray("{" + TypeCode(kt) + ValueSignature(d.dict) + "}", sub)];
  }

  /** qListToIterator and listToMessage: the items of every value, appended in order. */
  method ListToIterator(out: seq<Wire>, list: seq<Data>, rule: Rule) returns (out': seq<Wire>)
    ensures out' == out + EncodeAll(list, rule)
  {
    out' := out;
    if list == [] {
      return;
    }
    var i := 0;
    while i < |list|
      invariant 0 <= i <= |list|
      invariant out' == out + EncodeAll(list[..i], rule)
    {
      EncodeAllSnoc(list, i, rule);
      out' := DataToIterator(out', list[i], rule);
      i := i + 1;
    }
    assert list[..|list|] == list;
  }

  /**
   * qFetchParameter: reads one item; an array's prototype comes from
   * parsing its signature, and the array is read as a map when its
   * elements are dict entries, as a list otherwise.
   */
  method FetchParameter(w: Wire, rule: Rule) returns (d: Data)
    ensures d == Decode(w, rule)
    decreases w, 0
  {
    match w
    case WBasic(p) =>
      d := FromPayload(p);
    case WSignature(s) =>
      d := FromPayload(PString(s));
    case WArray(es, items) =>
      var prototypes, _ := ParseSignature("a" + es, rule);
      var proto := First(prototypes);
      if At(es, 0) == '{' {
        d := FetchMapEntries(items, proto, rule);
      } else {
        var list := FetchListItems(items, ToList(proto).value, rule);
        d := FromList(list);
      }
    case WStruct(fs) =>
      var members := FetchStructMembers(fs, rule);
      d := FromStruct(members);
    case WVariant(sig, cs) =>
      var value := Invalid;
      if cs != [] {
        value := FetchParameter(cs[0], rule);
      }
      d := FromPayload(PVariant(DBusVariant(sig, value)));
    case WDictEntry(_) =>
      d := Invalid;
    case WUnknown =>
      d := Invalid;
  }

  /** The list loop of qFetchParameter: every item fetched and appended to the prototype's list, in order. */
  method FetchListItems(items: seq<Wire>, start: ListValue, rule: Rule) returns (list: ListValue)
    ensures list == AppendAll(start, DecodeAll(items, rule))
    decreases items, 2
  {
    list := start;
    var i := 0;
    while i < |items|
      invariant 0 <= i <= |items|
      invariant list == AppendAll(start, DecodeAll(items[..i], rule))
    {
      var x := FetchParameter(items[i], rule);
      DecodeAllSnoc(items, i, rule);
      AppendAllSnoc(start, DecodeAll(items[..i], rule), x);
      list := ListAppend(list, x);
      i := i + 1;
    }
    assert items[..|items|] == items;
  }

  /** The struct loop of qFetchParameter: every member fetched, in order. */
  method FetchStructMembers(fs: seq<Wire>, rule: Rule) returns (members: seq<Data>)
    ensures members == DecodeAll(fs, rule)
    decreases fs, 2
  {
    members := [];
    var i := 0;
    while i < |fs|
      invariant 0 <= i <= |fs|
      invariant members == DecodeAll(fs[..i], rule)
    {
      var x := FetchParameter(fs[i], rule);
      DecodeAllSnoc(fs, i, rule);
      members := members + [x];
      i := i + 1;
    }
    assert fs[..|fs|] == fs;
  }

  /**
   * qFetchMap: the prototype back for an empty array or an entry without
   * items; otherwise the map of the first key item's kind, taken from the
   * prototype, with every entry inserted in turn.
   */
  method FetchMapEntries(entries: seq<Wire>, proto: Data, rule: Rule) returns (d: Data)
    ensures d == FetchMap(entries, proto, rule)
    decreases entries, 2
  {
    if entries == [] {
      return proto;
    }
    var first := if entries[0].WDictEntry? then entries[0].fields else [];
    if first == [] {
      return proto;
    }
    var kind := KeyKindOf(first[0]);
    if kind.None? {
      return proto;
    }
    var kt := kind.value;
    var m := InsertEntries(ToKeyMap(proto, kt).value, kt, entries, rule);
    d := FromKeyMap(m);
  }

  /** The entry loop of qFetchMap: each entry read and inserted in turn. */
  method InsertEntries(start: MapValue, kt: KeyKind, entries: seq<Wire>, rule: Rule) returns (m: MapValue)
    ensures m == InsertAll(start, DecodeEntries(kt, entries, rule))
    decreases entries, 1
  {
    m := start;
    var i := 0;
    assert entries[0..] == entries;
    while i < |entries|
      invariant 0 <= i <= |entries|
      invariant InsertAll(m, DecodeEntries(kt, entries[i..], rule)) == InsertAll(start, DecodeEntries(kt, entries, rule))
    {
      var key, value := FetchMapEntry(kt, entries[i], rule);
      DecodeEntriesStep(kt, entries, i, rule);
      m := MapInsert(m, key, value).1;
      i := i + 1;
    }
    assert entries[i..] == [];
  }

  /** qFetchByteKeyMapEntry … qFetchStringKeyMapEntry: the key item read as a key of kind `kt`, then the value. */
  method FetchMapEntry(kt: KeyKind, w: Wire, rule: Rule) returns (key: Key, value: Data)
    ensures (key, value) == DecodeEntry(kt, w, rule)
    decreases w, 1
  {
    var fs := if w.WDictEntry? then w.fields else [];
    var first := Invalid;
    if fs != [] {
      first := FetchParameter(fs[0], rule);
    }
    key := KeyOf(ToPayload(first, kt).value);
    value := Invalid;
    if |fs| >= 2 {
      value := FetchParameter(fs[1], rule);
    }
  }

  /** messageToList: the message's items read in order and appended to `list` (nothing for a message without arguments). */
  method MessageToList(list: seq<Data>, message: seq<Wire>, rule: Rule) returns (list': seq<Data>)
    ensures list' == list + DecodeAll(message, rule)
  {
    list' := list;
    if message == [] {
      return;
    }
    var i := 0;
    while i < |message|
      invariant 0 <= i <= |message|
      invariant list' == list + DecodeAll(message[..i], rule)
    {
      var d := FetchParameter(message[i], rule);
      DecodeAllSnoc(message, i, rule);
      assert list + DecodeAll(message[..i + 1], rule) == list' + [d];
      list' := list' + [d];
      i := i + 1;
    }
    assert message[..|message|] == message;
  }
}
