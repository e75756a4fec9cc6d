/**
 * TQT_DBusDataList: a homogeneous list of values.  The pure functions state
 * what each operation does to the list's state (element type, container
 * prototype, elements); the class DataList performs the same operations in
 * place and is proved against them.
 */
module DataLists {
  import opened Data

  /** The state of a list constructed with an element type and no elements. */
  function ListOfType(t: DataType): ListValue
  {
    ListValue(t, Invalid, [])
  }

  /** The state of a list constructed from a prototype: its kind, and the prototype itself when it is a container. */
  function ListOfPrototype(p: Data): (l: ListValue)
    ensures l.elemType == TypeOf(p) && l.items == []
    ensures IsContainer(TypeOf(p)) ==> l.containerItem == p
    ensures !IsContainer(TypeOf(p)) ==> l.containerItem == Invalid
  {
    ListValue(TypeOf(p), if IsContainer(TypeOf(p)) then p else Invalid, [])
  }

  /**
   * The homogeneity invariant: a container element type has a prototype of
   * that kind, and every element has the element type and, for containers,
   * the prototype's signature.  An Invalid-typed list is therefore empty.
   */
  predicate WellTyped(l: ListValue)
  {
    (IsContainer(l.elemType) ==> TypeOf(l.containerItem) == l.elemType)
    && forall i :: 0 <= i < |l.items| ==> Fits(l.elemType, l.containerItem, l.items[i])
  }

  /** All values share the first one's kind and, for container kinds, its signature. */
  predicate Homogeneous(ds: seq<Data>)
  {
    forall i :: 0 <= i < |ds| ==> Matches(ds[0], ds[i])
  }

  /** `d` has the kind of `first` and, when that is a container kind, its signature. */
  predicate Matches(first: Data, d: Data)
  {
    TypeOf(d) == TypeOf(first) && (IsContainer(TypeOf(first)) ==> Signature(d) == Signature(first))
  }

  /**
   * Construction from (and assignment of) a TQValueList<TQT_DBusData>: an
   * empty input gives an empty Invalid list; a homogeneous input is taken
   * over with the first element's kind and, for containers, the first
   * element as prototype; anything else gives an empty Invalid list.
   */
  function ListFromSeq(ds: seq<Data>): (l: ListValue)
    ensures ds == [] ==> l == EmptyList()
    ensures ds != [] && !Homogeneous(ds) ==> l == EmptyList()
    ensures ds != [] && Homogeneous(ds) ==> l == ListOfPrototype(ds[0]).(items := ds)
  {
    if ds == [] || !Homogeneous(ds) then EmptyList()
    else ListValue(TypeOf(ds[0]), if IsContainer(TypeOf(ds[0])) then ds[0] else Invalid, ds)
  }

  /** A homogeneous input without Invalid values gives a well-typed list holding exactly the input. */
  lemma ListFromSeqWellTyped(ds: seq<Data>)
    requires forall i :: 0 <= i < |ds| ==> !ds[i].Invalid?
    ensures WellTyped(ListFromSeq(ds))
    ensures ListFromSeq(ds).items == ds || ListFromSeq(ds) == EmptyList()
    ensures ListFromSeq(ds).items == ds <==> Homogeneous(ds)
  {
    if ds != [] && Homogeneous(ds) {
      var l := ListFromSeq(ds);
      forall i | 0 <= i < |ds| ensures Fits(l.elemType, l.containerItem, ds[i]) {
        assert TypeOf(ds[i]) == TypeOf(ds[0]);
      }
    }
  }

  /**
   * operator<<: Invalid data is ignored; an Invalid list adopts the data's
   * kind (and the data as prototype when it is a container) and appends it;
   * data of another kind, or a container of another signature, is refused;
   * otherwise the data is appended.
   */
  function ListAppend(l: ListValue, d: Data): (r: ListValue)
    ensures r == l || r.items == l.items + [d]
    ensures r != l ==> !d.Invalid?
  {
    if d.Invalid? then l
    else if l.elemType == InvalidType then
      ListValue(TypeOf(d), if IsContainer(TypeOf(d)) then d else l.containerItem, l.items + [d])
    else if TypeOf(d) != l.elemType then l
    else if IsContainer(l.elemType) && Signature(l.containerItem) != Signature(d) then l
    else l.(items := l.items + [d])
  }

  /**
   * On a well-typed list, appending grows the list by exactly `d` when `d`
   * fits the list (or the list is Invalid and `d` is not), and leaves it
   * unchanged otherwise; the result is well-typed.
   */
  lemma ListAppendSpec(l: ListValue, d: Data)
    requires WellTyped(l)
    ensures WellTyped(ListAppend(l, d))
    ensures l.elemType != InvalidType ==>
              (Fits(l.elemType, l.containerItem, d) <==> ListAppend(l, d).items == l.items + [d])
    ensures l.elemType != InvalidType && !Fits(l.elemType, l.containerItem, d) ==> ListAppend(l, d) == l
    ensures l.elemType == InvalidType && !d.Invalid? ==>
              ListAppend(l, d).elemType == TypeOf(d) && ListAppend(l, d).items == [d]
    ensures d.Invalid? ==> ListAppend(l, d) == l
  {
    var r := ListAppend(l, d);
    if l.elemType == InvalidType && !d.Invalid? {
      assert |l.items| > 0 ==> Fits(l.elemType, l.containerItem, l.items[0]);
    }
  }

  /** clear(): the elements go, element type and prototype stay. */
  function ListClear(l: ListValue): (r: ListValue)
    ensures r.items == [] && r.elemType == l.elemType && r.containerItem == l.containerItem
  {
    l.(items := [])
  }

  lemma ListClearWellTyped(l: ListValue)
    requires WellTyped(l)
    ensures WellTyped(ListClear(l))
  {
  }

  /** The typed constructors (from TQValueList<bool>, …, TQStringList): the element type is fixed even for an empty input, and each input is wrapped with fromX, in order. */
  function ListFromPayloads(t: DataType, ps: seq<Payload>): (l: ListValue)
    ensures l.elemType == t && l.containerItem == Invalid && |l.items| == |ps|
    ensures forall i :: 0 <= i < |ps| ==> l.items[i] == FromPayload(ps[i])
  {
    ListValue(t, Invalid, seq(|ps|, i requires 0 <= i < |ps| => FromPayload(ps[i])))
  }

  /**
   * toBoolList … toVariantList, toTQStringList: a list of another element
   * type gives `ok == false` and an empty result; otherwise every element is
   * unwrapped with toX, in order.
   */
  function ListToPayloads(l: ListValue, t: DataType): (r: Accessed<seq<Payload>>)
    requires IsPayloadType(t)
    ensures r.ok <==> l.elemType == t
    ensures !r.ok ==> r.value == []
    ensures r.ok ==> |r.value| == |l.items| && forall i :: 0 <= i < |l.items| ==> r.value[i] == ToPayload(l.items[i], t).value
  {
    if l.elemType != t then Accessed(false, [])
    else Accessed(true, seq(|l.items|, i requires 0 <= i < |l.items| => ToPayload(l.items[i], t).value))
  }

  /** A typed list built from accepted payloads is well-typed and unwraps back to the same payloads. */
  lemma PayloadListRoundTrip(t: DataType, ps: seq<Payload>)
    requires IsPayloadType(t)
    requires forall i :: 0 <= i < |ps| ==> PayloadType(ps[i]) == t && PayloadAccepted(ps[i])
    ensures WellTyped(ListFromPayloads(t, ps))
    ensures ListToPayloads(ListFromPayloads(t, ps), t) == Accessed(true, ps)
  {
    var l := ListFromPayloads(t, ps);
    forall i | 0 <= i < |ps| ensures ToPayload(l.items[i], t).value == ps[i] {
      PayloadRoundTrip(ps[i]);
    }
    assert ListToPayloads(l, t).value == ps;
  }

  /**
   * The element loop of the TQValueList<TQT_DBusData> constructor: every
   * element after the first must have the first one's kind and, for
   * containers, its signature; the first mismatch stops the loop.
   */
  method CheckElements(ds: seq<Data>) returns (ok: bool)
    requires ds != []
    ensures ok <==> Homogeneous(ds)
  {
    var elemType := TypeOf(ds[0]);
    var elementSignature := if IsContainer(elemType) then Signature(ds[0]) else "";
    var i := 1;
    while i < |ds|
      invariant 1 <= i <= |ds|
      invariant forall j :: 0 <= j < i ==> Matches(ds[0], ds[j])
    {
      if elemType != TypeOf(ds[i]) {
        assert !Homogeneous(ds) by { assert TypeOf(ds[i]) != TypeOf(ds[0]); }
        return false;
      } else if IsContainer(elemType) && Signature(ds[i]) != elementSignature {
        assert !Homogeneous(ds) by { assert Signature(ds[i]) != Signature(ds[0]); }
        return false;
      }
      i := i + 1;
    }
    return true;
  }

  /** An object path that fails validation is stored as an Invalid element: the typed constructors do not filter. */
  lemma TypedListKeepsRejectedItems()
    ensures var l := ListFromPayloads(ObjectPathType, [PObjectPath("bad")]);
            |l.items| == 1 && l.items[0].Invalid? && !WellTyped(l)
  {
    var l := ListFromPayloads(ObjectPathType, [PObjectPath("bad")]);
    assert !ObjectPaths.IsValid("bad");
    assert !Fits(l.elemType, l.containerItem, l.items[0]);
  }

  class DataList {
    var elemType: DataType
    var containerItem: Data
    var items: seq<Data>

    /** The list's state as a value. */
    function Value(): ListValue
      reads this
    {
      ListValue(elemType, containerItem, items)
    }

    /** hasContainerItemType() */
    predicate HasContainerItemType()
      reads this
    {
      IsContainer(elemType)
    }

    /** count() */
    function Count(): nat
      reads this
    {
      |items|
    }

    /** The default constructor: an empty list of type Invalid. */
    constructor ()
      ensures Value() == EmptyList()
    {
      elemType, containerItem, items := InvalidType, Invalid, [];
    }

    /** Constructor from a simple element type. */
    constructor OfType(t: DataType)
      ensures Value() == ListOfType(t)
    {
      elemType, containerItem, items := t, Invalid, [];
    }

    /** Constructor from a container prototype. */
    constructor OfPrototype(p: Data)
      ensures Value() == ListOfPrototype(p)
    {
      elemType := TypeOf(p);
      containerItem := Invalid;
      items := [];
      if IsContainer(TypeOf(p)) {
        containerItem := p;
      }
    }

    /** Copy constructor. */
    constructor Copy(other: DataList)
      ensures Value() == other.Value()
    {
      elemType, containerItem, items := other.elemType, other.containerItem, other.items;
    }

    /** Constructor from a TQValueList<TQT_DBusData>. */
    constructor FromSeq(ds: seq<Data>)
      ensures Value() == ListFromSeq(ds)
    {
      elemType, containerItem, items := InvalidType, Invalid, [];
      new;
      FillFrom(ds);
    }

    /** The typed constructors. */
    constructor FromPayloads(t: DataType, ps: seq<Payload>)
      ensures Value() == ListFromPayloads(t, ps)
    {
      elemType, containerItem, items := t, Invalid, [];
      new;
      var i := 0;
      while i < |ps|
        invariant 0 <= i <= |ps|
        invariant Value() == ListFromPayloads(t, ps[..i])
      {
        items := items + [FromPayload(ps[i])];
        i := i + 1;
      }
      assert ps[..i] == ps;
    }

    /**
     * The shared body of the TQValueList<TQT_DBusData> constructor and
     * assignment: the first element fixes the kind (and prototype), every
     * later element is checked against it, and the first mismatch leaves an
     * empty Invalid list.
     */
    method FillFrom(ds: seq<Data>)
      modifies this
      ensures Value() == ListFromSeq(ds)
    {
      items := [];
      elemType := InvalidType;
      containerItem := Invalid;
      if ds == [] {
        return;
      }
      var ok := CheckElements(ds);
      if !ok {
        return;
      }
      elemType := TypeOf(ds[0]);
      if HasContainerItemType() {
        containerItem := ds[0];
      }
      items := ds;
    }

    /** operator=(const TQT_DBusDataList&): self-assignment leaves the list as it was. */
    method Assign(other: DataList)
      modifies this
      ensures Value() == old(other.Value())
    {
      if other == this {
        return;
      }
      elemType, containerItem, items := other.elemType, other.containerItem, other.items;
    }

    /** operator=(const TQValueList<TQT_DBusData>&) */
    method AssignSeq(ds: seq<Data>)
      modifies this
      ensures Value() == ListFromSeq(ds)
    {
      FillFrom(ds);
    }

    /** operator=(const TQStringList&): a String list holding the strings in order. */
    method AssignStrings(ss: seq<string>)
      modifies this
      ensures Value() == ListFromPayloads(StringType, seq(|ss|, i requires 0 <= i < |ss| => PString(ss[i])))
      ensures WellTyped(Value())
    {
      items := [];
      elemType := StringType;
      containerItem := Invalid;
      var i := 0;
      while i < |ss|
        invariant 0 <= i <= |ss|
        invariant elemType == StringType && containerItem == Invalid && |items| == i
        invariant forall j :: 0 <= j < i ==> items[j] == Scalar(PString(ss[j]))
      {
        items := items + [FromPayload(PString(ss[i]))];
        i := i + 1;
      }
    }

    /** operator<< */
    method Append(d: Data)
      modifies this
      ensures Value() == ListAppend(old(Value()), d)
    {
      if TypeOf(d) == InvalidType {
        return;
      }
      if elemType == InvalidType {
        elemType := TypeOf(d);
        if HasContainerItemType() {
          containerItem := d;
        }
        items := items + [d];
      } else if elemType != TypeOf(d) {
        // refused: kind mismatch
      } else if HasContainerItemType() {
        var ourSignature := Signature(containerItem);
        var dataSignature := Signature(d);
        if ourSignature == dataSignature {
          items := items + [d];
        }
      } else {
        items := items + [d];
      }
    }

    /** clear() */
    method Clear()
      modifies this
      ensures Value() == ListClear(old(Value()))
    {
      items := [];
    }

    /** toXList(&ok) and toTQStringList(&ok), one element at a time. */
    method ToPayloadList(t: DataType) returns (ok: bool, result: seq<Payload>)
      requires IsPayloadType(t)
      ensures Accessed(ok, result) == ListToPayloads(Value(), t)
    {
      if elemType != t {
        return false, [];
      }
      result := [];
      var i := 0;
      while i < |items|
        invariant 0 <= i <= |items|
        invariant |result| == i
        invariant forall j :: 0 <= j < i ==> result[j] == ToPayload(items[j], t).value
      {
        result := result + [ToPayload(items[i], t).value];
        i := i + 1;
      }
      assert result == ListToPayloads(Value(), t).value;
      ok := true;
    }
  }
}
