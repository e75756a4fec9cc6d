/**
 * TQT_DBusDataMap<T>: a homogeneous map from keys of kind T to values.  The
 * entries are kept in TQMap's iteration order, ascending by key, so a map is
 * a key-sorted sequence of pairs.  The pure functions state what each
 * operation does; the class DataMap performs them in place.
 */
module DataMaps {
  import opened Wrappers
  import opened Keys
  import opened Data

  /** Strictly ascending keys, hence no key twice. */
  predicate Sorted<T>(es: seq<(Key, T)>)
  {
    forall i, j :: 0 <= i < j < |es| ==> KeyLess(es[i].0, es[j].0)
  }

  /** Every key of `es` lies below `k`. */
  predicate AllBelow<T>(es: seq<(Key, T)>, k: Key)
  {
    forall i :: 0 <= i < |es| ==> KeyLess(es[i].0, k)
  }

  /** TQMap::find */
  function Lookup<T>(es: seq<(Key, T)>, k: Key): (r: Option<T>)
    ensures r.Some? <==> exists i :: 0 <= i < |es| && es[i].0 == k
  {
    if es == [] then None
    else if es[0].0 == k then Some(es[0].1)
    else Lookup(es[1..], k)
  }

  /** TQMap::insert: replaces the value of an existing key, otherwise inserts the pair at its place in key order. */
  function Put<T>(es: seq<(Key, T)>, k: Key, v: T): (r: seq<(Key, T)>)
  {
    if es == [] then [(k, v)]
    else if es[0].0 == k then [(k, v)] + es[1..]
    else if KeyLess(k, es[0].0) then [(k, v)] + es
    else [es[0]] + Put(es[1..], k, v)
  }

  /** Every key of `es` lies above `a`. */
  predicate AllAbove<T>(es: seq<(Key, T)>, a: Key)
  {
    forall i :: 0 <= i < |es| ==> KeyLess(a, es[i].0)
  }

  /** Put stores only the new pair and pairs already present. */
  lemma {:induction false} PutElements<T>(es: seq<(Key, T)>, k: Key, v: T)
    ensures forall x :: x in Put(es, k, v) ==> x == (k, v) || x in es
  {
    if es != [] && es[0].0 != k && !KeyLess(k, es[0].0) {
      PutElements(es[1..], k, v);
    }
  }

  /** Putting a key above `a` into pairs above `a` gives pairs above `a`. */
  lemma {:induction false} PutAllAbove<T>(es: seq<(Key, T)>, k: Key, v: T, a: Key)
    requires AllAbove(es, a) && KeyLess(a, k)
    ensures AllAbove(Put(es, k, v), a)
  {
    PutElements(es, k, v);
    var r := Put(es, k, v);
    forall i | 0 <= i < |r| ensures KeyLess(a, r[i].0) {
      assert r[i] in r;
    }
  }

  /** Put keeps the keys ascending. */
  lemma {:induction false} PutSorted<T>(es: seq<(Key, T)>, k: Key, v: T)
    requires Sorted(es)
    ensures Sorted(Put(es, k, v))
  {
    if es != [] {
      var r := Put(es, k, v);
      if es[0].0 == k {
        forall i, j | 0 <= i < j < |r| ensures KeyLess(r[i].0, r[j].0) {
          assert r[i].0 == es[i].0 && r[j].0 == es[j].0;
        }
      } else if KeyLess(k, es[0].0) {
        forall i, j | 0 <= i < j < |r| ensures KeyLess(r[i].0, r[j].0) {
          if i == 0 && j > 1 {
            KeyLessTransitive(k, es[0].0, es[j - 1].0);
          }
        }
      } else {
        KeyLessTotal(k, es[0].0);
        var tail := Put(es[1..], k, v);
        PutSorted(es[1..], k, v);
        assert AllAbove(es[1..], es[0].0) by {
          forall i | 0 <= i < |es[1..]| ensures KeyLess(es[0].0, es[1..][i].0) {
            assert es[1..][i] == es[i + 1];
          }
        }
        PutAllAbove(es[1..], k, v, es[0].0);
        forall i, j | 0 <= i < j < |r| ensures KeyLess(r[i].0, r[j].0) {
          if i == 0 {
            assert r[j] == tail[j - 1];
          } else {
            assert r[i] == tail[i - 1] && r[j] == tail[j - 1];
          }
        }
      }
    }
  }

  /** After Put, `k` finds the new value and every other key finds what it found before. */
  lemma {:induction false} PutLookup<T>(es: seq<(Key, T)>, k: Key, v: T)
    requires Sorted(es)
    ensures Lookup(Put(es, k, v), k) == Some(v)
    ensures forall k' :: k' != k ==> Lookup(Put(es, k, v), k') == Lookup(es, k')
  {
    if es != [] {
      if es[0].0 == k {
        assert Put(es, k, v)[1..] == es[1..];
      } else if KeyLess(k, es[0].0) {
        assert Put(es, k, v)[1..] == es;
      } else {
        PutLookup(es[1..], k, v);
        assert Put(es, k, v)[1..] == Put(es[1..], k, v);
      }
    }
  }

  /** Put keeps the order, finds the new value under its key, leaves every other key's value alone and stores nothing else. */
  lemma PutSpec<T>(es: seq<(Key, T)>, k: Key, v: T)
    requires Sorted(es)
    ensures Sorted(Put(es, k, v))
    ensures Lookup(Put(es, k, v), k) == Some(v)
    ensures forall k' :: k' != k ==> Lookup(Put(es, k, v), k') == Lookup(es, k')
    ensures forall x :: x in Put(es, k, v) ==> x == (k, v) || x in es
  {
    PutSorted(es, k, v);
    PutLookup(es, k, v);
    PutElements(es, k, v);
  }

  /** In a sorted sequence whose first key exceeds `k` (or that lacks `k` altogether below its first key), `k` is absent. */
  lemma {:induction false} LookupAbsentBelow<T>(es: seq<(Key, T)>, k: Key)
    requires Sorted(es)
    requires es != [] ==> KeyLess(k, es[0].0)
    ensures Lookup(es, k) == None
  {
    if es != [] {
      KeyLessIrreflexive(k);
      if |es| > 1 {
        KeyLessTransitive(k, es[0].0, es[1].0);
      }
      LookupAbsentBelow(es[1..], k);
    }
  }

  /** Putting a key above every present key appends the pair. */
  lemma {:induction false} PutAbove<T>(es: seq<(Key, T)>, k: Key, v: T)
    requires AllBelow(es, k)
    ensures Put(es, k, v) == es + [(k, v)]
  {
    if es != [] {
      KeyLessIrreflexive(k);
      KeyLessAsymmetric(es[0].0, k);
      PutAbove(es[1..], k, v);
      assert [es[0]] + (es[1..] + [(k, v)]) == es + [(k, v)];
    }
  }

  lemma KeyLessAsymmetric(a: Key, b: Key)
    requires KeyLess(a, b)
    ensures !KeyLess(b, a)
  {
    if KeyLess(b, a) {
      KeyLessTransitive(a, b, a);
      KeyLessIrreflexive(a);
    }
  }

  /**
   * The homogeneity invariant: keys ascend, a container value type has a
   * prototype of that kind, and every value fits the value type and
   * prototype.  An Invalid map is therefore empty.
   */
  predicate WellTyped(m: MapValue)
  {
    Sorted(m.entries)
    && (IsContainer(m.valueType) ==> TypeOf(m.containerValue) == m.valueType)
    && forall i :: 0 <= i < |m.entries| ==> Fits(m.valueType, m.containerValue, m.entries[i].1)
  }

  /** isValid() */
  predicate IsValid(m: MapValue)
  {
    m.valueType != InvalidType
  }

  /** The map constructed with a simple value type and no entries. */
  function MapOfType(kt: KeyKind, t: DataType): MapValue
  {
    MapValue(kt, t, Invalid, [])
  }

  /** The map constructed from a container prototype. */
  function MapOfPrototype(kt: KeyKind, p: Data): (m: MapValue)
    ensures m.valueType == TypeOf(p) && m.entries == []
    ensures m.containerValue == (if IsContainer(TypeOf(p)) then p else Invalid)
  {
    MapValue(kt, TypeOf(p), if IsContainer(TypeOf(p)) then p else Invalid, [])
  }

  /**
   * insert(key, data): Invalid data is refused with `false`; an Invalid map
   * adopts the data's kind (and the data as prototype when it is a
   * container) and stores the pair; data of another kind, or a container of
   * another signature, is refused, yet `true` is returned; otherwise the pair
   * is stored, replacing any value under that key.
   */
  function MapInsert(m: MapValue, k: Key, d: Data): (r: (bool, MapValue))
    ensures r.0 <==> !d.Invalid?
    ensures r.1 == m || r.1.entries == Put(m.entries, k, d)
    ensures r.1.keyType == m.keyType
  {
    if d.Invalid? then (false, m)
    else if m.valueType == InvalidType then
      (true, m.(valueType := TypeOf(d),
                containerValue := if IsContainer(TypeOf(d)) then d else m.containerValue,
                entries := Put(m.entries, k, d)))
    else if TypeOf(d) != m.valueType then (true, m)
    else if IsContainer(m.valueType) && Signature(m.containerValue) != Signature(d) then (true, m)
    else (true, m.(entries := Put(m.entries, k, d)))
  }

  /**
   * On a well-typed map, insert stores the pair exactly when the data fits
   * (or the map is Invalid and the data is not), leaves the map unchanged
   * otherwise, and keeps the map well-typed.
   */
  lemma MapInsertSpec(m: MapValue, k: Key, d: Data)
    requires WellTyped(m)
    ensures WellTyped(MapInsert(m, k, d).1)
    ensures IsValid(m) && Fits(m.valueType, m.containerValue, d) ==>
              MapInsert(m, k, d).1 == m.(entries := Put(m.entries, k, d))
              && Lookup(MapInsert(m, k, d).1.entries, k) == Some(d)
    ensures IsValid(m) && !Fits(m.valueType, m.containerValue, d) ==> MapInsert(m, k, d).1 == m
    ensures !IsValid(m) && !d.Invalid? ==>
              MapInsert(m, k, d).1.valueType == TypeOf(d) && MapInsert(m, k, d).1.entries == [(k, d)]
  {
    var r := MapInsert(m, k, d).1;
    PutSpec(m.entries, k, d);
    if r != m {
      assert |m.entries| > 0 ==> Fits(m.valueType, m.containerValue, m.entries[0].1);
      forall i | 0 <= i < |r.entries| ensures Fits(r.valueType, r.containerValue, r.entries[i].1) {
        assert r.entries[i] in r.entries;
      }
    }
  }

  /** In a sorted sequence, looking up the key at index i gives the value at index i. */
  lemma {:induction false} LookupIndex<T>(es: seq<(Key, T)>, i: int)
    requires Sorted(es) && 0 <= i < |es|
    ensures Lookup(es, es[i].0) == Some(es[i].1)
  {
    if i > 0 {
      assert KeyLess(es[0].0, es[i].0);
      KeyLessIrreflexive(es[0].0);
      LookupIndex(es[1..], i - 1);
    }
  }

  /** The map after inserting every pair of `es` in order. */
  function InsertAll(m: MapValue, es: seq<(Key, Data)>): (r: MapValue)
    ensures r.keyType == m.keyType
    decreases |es|
  {
    if es == [] then m else InsertAll(MapInsert(m, es[0].0, es[0].1).1, es[1..])
  }

  /** The pairs of `es` whose value is not Invalid, in order. */
  function DropInvalid(es: seq<(Key, Data)>): (r: seq<(Key, Data)>)
    ensures |r| <= |es|
  {
    if es == [] then []
    else if es[0].1.Invalid? then DropInvalid(es[1..])
    else [es[0]] + DropInvalid(es[1..])
  }

  /** One insert of a fitting or Invalid value above every present key. */
  lemma InsertAbove(m: MapValue, k: Key, d: Data)
    requires IsValid(m) && AllBelow(m.entries, k)
    requires d.Invalid? || Fits(m.valueType, m.containerValue, d)
    ensures MapInsert(m, k, d).1 == m.(entries := m.entries + DropInvalid([(k, d)]))
  {
    if !d.Invalid? {
      PutAbove(m.entries, k, d);
    }
  }

  /** Appending a key below `b` to pairs below `b` gives pairs below `b`. */
  lemma BelowAfterAppend(es: seq<(Key, Data)>, extra: seq<(Key, Data)>, b: Key)
    requires AllBelow(es, b) && AllBelow(extra, b)
    ensures AllBelow(es + extra, b)
  {
  }

  lemma SortedTail<T>(es: seq<(Key, T)>)
    requires Sorted(es) && es != []
    ensures Sorted(es[1..])
  {
    forall i, j | 0 <= i < j < |es[1..]| ensures KeyLess(es[1..][i].0, es[1..][j].0) {
      assert es[1..][i] == es[i + 1] && es[1..][j] == es[j + 1];
    }
  }

  /** Every value of `es` that is not Invalid fits kind `t` and prototype `proto`. */
  predicate AllFit(t: DataType, proto: Data, es: seq<(Key, Data)>)
  {
    forall i :: 0 <= i < |es| ==> es[i].1.Invalid? || Fits(t, proto, es[i].1)
  }

  lemma FitTail(t: DataType, proto: Data, es: seq<(Key, Data)>)
    requires AllFit(t, proto, es) && es != []
    ensures AllFit(t, proto, es[1..])
  {
    forall i | 0 <= i < |es[1..]| ensures es[1..][i].1.Invalid? || Fits(t, proto, es[1..][i].1) {
      assert es[1..][i] == es[i + 1];
    }
  }

  /** If every key is below `a` and `a` is below `b`, every key is below `b`. */
  lemma BelowTransitive(es: seq<(Key, Data)>, a: Key, b: Key)
    requires AllBelow(es, a) && KeyLess(a, b)
    ensures AllBelow(es, b)
  {
    forall i | 0 <= i < |es| ensures KeyLess(es[i].0, b) {
      KeyLessTransitive(es[i].0, a, b);
    }
  }

  /**
   * Inserting, in ascending key order and above every present key, values
   * that each fit a valid map or are Invalid appends exactly the non-Invalid
   * pairs.
   */
  lemma {:induction false} InsertAllAppends(m: MapValue, es: seq<(Key, Data)>)
    requires IsValid(m)
    requires Sorted(es)
    requires es != [] ==> AllBelow(m.entries, es[0].0)
    requires AllFit(m.valueType, m.containerValue, es)
    ensures InsertAll(m, es) == m.(entries := m.entries + DropInvalid(es))
    decreases |es|
  {
    if es != [] {
      var m' := InsertFirst(m, es);
      InsertAllAppends(m', es[1..]);
      AppendStep(m, m', es);
    }
  }

  /** The entries after the first insert, followed by the rest, are the entries followed by all of them. */
  lemma AppendStep(m: MapValue, m': MapValue, es: seq<(Key, Data)>)
    requires es != [] && m' == m.(entries := m.entries + DropInvalid([es[0]]))
    ensures m'.(entries := m'.entries + DropInvalid(es[1..])) == m.(entries := m.entries + DropInvalid(es))
  {
    DropInvalidCons(es);
    assert m.entries + DropInvalid([es[0]]) + DropInvalid(es[1..]) == m.entries + (DropInvalid([es[0]]) + DropInvalid(es[1..]));
  }

  /** The first step of InsertAllAppends: the map after the first insert meets the preconditions for the rest. */
  lemma InsertFirst(m: MapValue, es: seq<(Key, Data)>) returns (m': MapValue)
    requires IsValid(m) && Sorted(es) && es != [] && AllBelow(m.entries, es[0].0)
    requires AllFit(m.valueType, m.containerValue, es)
    ensures m' == MapInsert(m, es[0].0, es[0].1).1
    ensures InsertAll(m, es) == InsertAll(m', es[1..])
    ensures m' == m.(entries := m.entries + DropInvalid([es[0]]))
    ensures m'.entries + DropInvalid(es[1..]) == m.entries + DropInvalid([es[0]]) + DropInvalid(es[1..])
    ensures IsValid(m') && Sorted(es[1..]) && AllFit(m'.valueType, m'.containerValue, es[1..])
    ensures es[1..] != [] ==> AllBelow(m'.entries, es[1..][0].0)
  {
    var (k, d) := es[0];
    InsertAbove(m, k, d);
    m' := MapInsert(m, k, d).1;
    if |es| > 1 {
      assert KeyLess(k, es[1].0);
      BelowTransitive(m.entries, k, es[1].0);
      BelowAfterAppend(m.entries, DropInvalid([(k, d)]), es[1].0);
    }
    SortedTail(es);
    FitTail(m.valueType, m.containerValue, es);
  }

  /**
   * Construction from (and assignment of) a TQMap<T, TQT_DBusData>: the
   * first value fixes the kind (and prototype); a later value of another
   * kind or signature leaves an empty Invalid map.
   */
  function MapFromEntries(kt: KeyKind, es: seq<(Key, Data)>): (m: MapValue)
    ensures es == [] ==> m == EmptyMap(kt)
    ensures es != [] && !Homogeneous(es) ==> m == EmptyMap(kt)
    ensures es != [] && Homogeneous(es) ==> m == MapOfPrototype(kt, es[0].1).(entries := es)
  {
    if es == [] || !Homogeneous(es) then EmptyMap(kt)
    else MapValue(kt, TypeOf(es[0].1), if IsContainer(TypeOf(es[0].1)) then es[0].1 else Invalid, es)
  }

  /** All values share the first one's kind and, for container kinds, its signature. */
  predicate Homogeneous(es: seq<(Key, Data)>)
  {
    forall i :: 0 <= i < |es| ==> ValueMatches(es[0].1, es[i].1)
  }

  /** `d` has the kind of `first` and, when that is a container kind, its signature. */
  predicate ValueMatches(first: Data, d: Data)
  {
    TypeOf(d) == TypeOf(first) && (IsContainer(TypeOf(first)) ==> Signature(d) == Signature(first))
  }

  /**
   * The value loop of the TQMap<T, TQT_DBusData> constructor: every value
   * after the first must have the first one's kind and, for containers,
   * its signature; the first mismatch stops the loop.
   */
  method CheckValues(es: seq<(Key, Data)>) returns (ok: bool)
    requires es != []
    ensures ok <==> Homogeneous(es)
  {
    var valueType := TypeOf(es[0].1);
    var containerSignature := if IsContainer(valueType) then Signature(es[0].1) else "";
    var i := 1;
    while i < |es|
      invariant 1 <= i <= |es|
      invariant forall j :: 0 <= j < i ==> ValueMatches(es[0].1, es[j].1)
    {
      if TypeOf(es[i].1) != valueType {
        assert !ValueMatches(es[0].1, es[i].1);
        return false;
      } else if IsContainer(valueType) && Signature(es[i].1) != containerSignature {
        assert !ValueMatches(es[0].1, es[i].1);
        return false;
      }
      i := i + 1;
    }
    return true;
  }

  /** A sorted, homogeneous input without Invalid values gives a well-typed map holding exactly the input. */
  lemma MapFromEntriesWellTyped(kt: KeyKind, es: seq<(Key, Data)>)
    requires Sorted(es)
    requires forall i :: 0 <= i < |es| ==> !es[i].1.Invalid?
    ensures WellTyped(MapFromEntries(kt, es))
    ensures MapFromEntries(kt, es).entries == es <==> Homogeneous(es)
  {
    if es != [] && Homogeneous(es) {
      var m := MapFromEntries(kt, es);
      forall i | 0 <= i < |es| ensures Fits(m.valueType, m.containerValue, es[i].1) {
        assert TypeOf(es[i].1) == TypeOf(es[0].1);
      }
    }
  }

  /** Wraps each payload with fromX, keeping its key. */
  function WrapPayloads(es: seq<(Key, Payload)>): (r: seq<(Key, Data)>)
    ensures |r| == |es|
    ensures forall i :: 0 <= i < |es| ==> r[i] == (es[i].0, FromPayload(es[i].1))
  {
    seq(|es|, i requires 0 <= i < |es| => (es[i].0, FromPayload(es[i].1)))
  }

  /** The typed constructors (from TQMap<T, bool>, …, TQMap<T, TQT_DBusVariant>): the value type is fixed even for an empty input, and every pair is inserted. */
  function MapFromPayloads(kt: KeyKind, t: DataType, es: seq<(Key, Payload)>): MapValue
  {
    InsertAll(MapOfType(kt, t), WrapPayloads(es))
  }

  /**
   * A typed map holds, in key order, every input pair whose fromX value is
   * valid: an object path that fails validation or the descriptor -1 is
   * dropped by insert.
   */
  lemma TypedMapEntries(kt: KeyKind, t: DataType, es: seq<(Key, Payload)>)
    requires IsPayloadType(t) && Sorted(es)
    requires forall i :: 0 <= i < |es| ==> PayloadType(es[i].1) == t
    ensures MapFromPayloads(kt, t, es) == MapOfType(kt, t).(entries := DropInvalid(WrapPayloads(es)))
    ensures WellTyped(MapFromPayloads(kt, t, es))
  {
    var ws := WrapPayloads(es);
    InsertAllAppends(MapOfType(kt, t), ws);
    DropInvalidSorted(ws);
    DroppedPayloadsFit(t, es);
  }

  /** Every valid value of a payload list of kind `t` fits a map of kind `t`. */
  lemma DroppedPayloadsFit(t: DataType, es: seq<(Key, Payload)>)
    requires IsPayloadType(t)
    requires forall i :: 0 <= i < |es| ==> PayloadType(es[i].1) == t
    ensures var r := DropInvalid(WrapPayloads(es)); forall i :: 0 <= i < |r| ==> Fits(t, Invalid, r[i].1)
  {
    var ws := WrapPayloads(es);
    var r := DropInvalid(ws);
    DropInvalidElements(ws);
    forall i | 0 <= i < |r| ensures Fits(t, Invalid, r[i].1) {
      assert r[i] in r;
      var j :| 0 <= j < |ws| && ws[j] == r[i];
    }
  }

  lemma DropInvalidCons(es: seq<(Key, Data)>)
    requires es != []
    ensures DropInvalid(es) == DropInvalid([es[0]]) + DropInvalid(es[1..])
  {
    assert [es[0]][1..] == [];
  }

  /** DropInvalid keeps only pairs of the input whose value is not Invalid. */
  lemma {:induction false} DropInvalidElements(es: seq<(Key, Data)>)
    ensures forall x :: x in DropInvalid(es) ==> x in es && !x.1.Invalid?
  {
    if es != [] {
      DropInvalidElements(es[1..]);
    }
  }

  lemma {:induction false} DropInvalidSorted(es: seq<(Key, Data)>)
    requires Sorted(es)
    ensures Sorted(DropInvalid(es))
  {
    if es != [] {
      SortedTail(es);
      DropInvalidSorted(es[1..]);
      var r := DropInvalid(es);
      var tail := DropInvalid(es[1..]);
      if !es[0].1.Invalid? {
        DropInvalidElements(es[1..]);
        forall i, j | 0 <= i < j < |r| ensures KeyLess(r[i].0, r[j].0) {
          if i == 0 {
            assert tail[j - 1] in tail;
            var m :| 0 <= m < |es[1..]| && es[1..][m] == tail[j - 1];
            assert es[m + 1] == r[j];
          } else {
            assert r[i] == tail[i - 1] && r[j] == tail[j - 1];
          }
        }
      }
    }
  }

  /**
   * toBoolMap … toVariantMap: a map of another value type gives `ok ==
   * false` and an empty result; otherwise every value is unwrapped with toX,
   * in key order.
   */
  function MapToPayloads(m: MapValue, t: DataType): (r: Accessed<seq<(Key, Payload)>>)
    requires IsPayloadType(t)
    ensures r.ok <==> m.valueType == t
    ensures !r.ok ==> r.value == []
    ensures r.ok ==>
              |r.value| == |m.entries| && forall i :: 0 <= i < |m.entries| ==> r.value[i] == (m.entries[i].0, ToPayload(m.entries[i].1, t).value)
  {
    if m.valueType != t then Accessed(false, [])
    else Accessed(true, seq(|m.entries|, i requires 0 <= i < |m.entries| => (m.entries[i].0, ToPayload(m.entries[i].1, t).value)))
  }

  /** A typed map built from accepted payloads unwraps back to the same pairs. */
  lemma PayloadMapRoundTrip(kt: KeyKind, t: DataType, es: seq<(Key, Payload)>)
    requires IsPayloadType(t) && Sorted(es)
    requires forall i :: 0 <= i < |es| ==> PayloadType(es[i].1) == t && PayloadAccepted(es[i].1)
    ensures MapToPayloads(MapFromPayloads(kt, t, es), t) == Accessed(true, es)
  {
    TypedMapEntries(kt, t, es);
    var ws := WrapPayloads(es);
    DropInvalidKeepsValid(ws);
    var m := MapFromPayloads(kt, t, es);
    assert m.entries == ws;
    forall i | 0 <= i < |es| ensures ToPayload(m.entries[i].1, t).value == es[i].1 {
      PayloadRoundTrip(es[i].1);
    }
    assert MapToPayloads(m, t).value == es;
  }

  lemma {:induction false} DropInvalidKeepsValid(es: seq<(Key, Data)>)
    requires forall i :: 0 <= i < |es| ==> !es[i].1.Invalid?
    ensures DropInvalid(es) == es
  {
    if es != [] {
      DropInvalidKeepsValid(es[1..]);
      assert [es[0]] + es[1..] == es;
    }
  }

  /**
   * The constructors from TQMap<T, TQT_DBusDataMap<K>> as written: the value
   * type is set to Map but no prototype is recorded, so every insert
   * compares the value's signature against the empty signature of the
   * missing prototype and is refused.
   */
  function MapOfMapsAsWritten(kt: KeyKind, es: seq<(Key, MapValue)>): MapValue
  {
    InsertAll(MapOfType(kt, MapType), WrapMaps(es))
  }

  /** The same constructors as intended: every pair is inserted, the first value serving as prototype. */
  function MapOfMaps(kt: KeyKind, es: seq<(Key, MapValue)>): MapValue
  {
    InsertAll(EmptyMap(kt), WrapMaps(es))
  }

  /** Wraps each inner map with fromXKeyMap, keeping its key. */
  function WrapMaps(es: seq<(Key, MapValue)>): (r: seq<(Key, Data)>)
    ensures |r| == |es|
    ensures forall i :: 0 <= i < |es| ==> r[i] == (es[i].0, FromKeyMap(es[i].1))
  {
    seq(|es|, i requires 0 <= i < |es| => (es[i].0, FromKeyMap(es[i].1)))
  }

  /** As written, the map-of-maps constructors drop every pair. */
  lemma {:induction false} MapOfMapsAsWrittenIsEmpty(kt: KeyKind, es: seq<(Key, MapValue)>)
    ensures MapOfMapsAsWritten(kt, es).entries == []
    ensures MapOfMapsAsWritten(kt, es).valueType == MapType
  {
    RefusedByMissingPrototype(MapOfType(kt, MapType), WrapMaps(es));
  }

  lemma {:induction false} RefusedByMissingPrototype(m: MapValue, ws: seq<(Key, Data)>)
    requires m.valueType == MapType && m.containerValue == Invalid
    requires forall i :: 0 <= i < |ws| ==> ws[i].1.Map?
    ensures InsertAll(m, ws) == m
    decreases |ws|
  {
    if ws != [] {
      SignatureShape(ws[0].1);
      assert MapInsert(m, ws[0].0, ws[0].1).1 == m;
      RefusedByMissingPrototype(m, ws[1..]);
    }
  }

  /** As intended, inner maps of one signature, given in key order, all land in the map, which is well-typed. */
  lemma MapOfMapsKeepsAll(kt: KeyKind, es: seq<(Key, MapValue)>)
    requires Sorted(es)
    requires forall i :: 0 <= i < |es| ==> Signature(FromKeyMap(es[i].1)) == Signature(FromKeyMap(es[0].1))
    ensures MapOfMaps(kt, es).entries == WrapMaps(es)
    ensures WellTyped(MapOfMaps(kt, es))
  {
    var ws := WrapMaps(es);
    if es != [] {
      var m1 := MapInsert(EmptyMap(kt), ws[0].0, ws[0].1).1;
      assert m1 == MapValue(kt, MapType, ws[0].1, [ws[0]]);
      forall i | 0 <= i < |ws[1..]| ensures AllBelow(m1.entries, ws[1..][i].0) {
        assert KeyLess(es[0].0, es[i + 1].0);
      }
      InsertAllAppends(m1, ws[1..]);
      DropInvalidKeepsValid(ws[1..]);
      assert [ws[0]] + ws[1..] == ws;
      var r := MapOfMaps(kt, es);
      forall i | 0 <= i < |r.entries| ensures Fits(r.valueType, r.containerValue, r.entries[i].1) {
        assert r.entries[i] == ws[i];
      }
    }
  }

  /** One pair is enough to tell the two apart. */
  lemma MapOfMapsFinding()
    ensures var es := [(StrKey("k"), EmptyMap(ByteType))];
            MapOfMapsAsWritten(StringType, es).entries == [] && |MapOfMaps(StringType, es).entries| == 1
  {
    var es := [(StrKey("k"), EmptyMap(ByteType))];
    MapOfMapsAsWrittenIsEmpty(StringType, es);
    MapOfMapsKeepsAll(StringType, es);
  }

  class DataMap {
    const keyType: KeyKind
    var valueType: DataType
    var containerValue: Data
    var entries: seq<(Key, Data)>

    /** The map's state as a value. */
    function Value(): MapValue
      reads this
    {
      MapValue(keyType, valueType, containerValue, entries)
    }

    /** hasContainerValueType() */
    predicate HasContainerValueType()
      reads this
    {
      IsContainer(valueType)
    }

    /** The default constructor: an empty, Invalid map. */
    constructor (kt: KeyKind)
      ensures Value() == EmptyMap(kt)
    {
      keyType, valueType, containerValue, entries := kt, InvalidType, Invalid, [];
    }

    /** Constructor from a simple value type. */
    constructor OfType(kt: KeyKind, t: DataType)
      ensures Value() == MapOfType(kt, t)
    {
      keyType, valueType, containerValue, entries := kt, t, Invalid, [];
    }

    /** Constructor from a container prototype. */
    constructor OfPrototype(kt: KeyKind, p: Data)
      ensures Value() == MapOfPrototype(kt, p)
    {
      keyType, valueType, containerValue, entries := kt, TypeOf(p), Invalid, [];
      if IsContainer(TypeOf(p)) {
        containerValue := p;
      }
    }

    /** Copy constructor. */
    constructor Copy(other: DataMap)
      ensures Value() == other.Value()
    {
      keyType, valueType, containerValue, entries := other.keyType, other.valueType, other.containerValue, other.entries;
    }

    /** Constructor from a TQMap<T, TQT_DBusData>. */
    constructor FromEntries(kt: KeyKind, es: seq<(Key, Data)>)
      ensures Value() == MapFromEntries(kt, es)
    {
      keyType, valueType, containerValue, entries := kt, InvalidType, Invalid, [];
      new;
      FillFrom(es);
    }

    /** The typed constructors: a fixed value type, then one insert per pair. */
    constructor FromPayloads(kt: KeyKind, t: DataType, es: seq<(Key, Payload)>)
      ensures Value() == MapFromPayloads(kt, t, es)
    {
      keyType, valueType, containerValue, entries := kt, t, Invalid, [];
      new;
      var ws := WrapPayloads(es);
      var i := 0;
      while i < |ws|
        invariant 0 <= i <= |ws|
        invariant InsertAll(Value(), ws[i..]) == MapFromPayloads(kt, t, es)
      {
        assert ws[i..] == [ws[i]] + ws[i + 1..];
        var _ := Insert(ws[i].0, ws[i].1);
        i := i + 1;
      }
    }

    /**
     * The shared body of the TQMap<T, TQT_DBusData> constructor and
     * assignment: take the pairs, then check every value against the first
     * and clear everything at the first mismatch.
     */
    method FillFrom(es: seq<(Key, Data)>)
      modifies this
      ensures Value() == MapFromEntries(keyType, es)
    {
      entries := es;
      valueType := InvalidType;
      containerValue := Invalid;
      if es == [] {
        return;
      }
      var ok := CheckValues(es);
      if !ok {
        entries := [];
        return;
      }
      valueType := TypeOf(es[0].1);
      if HasContainerValueType() {
        containerValue := es[0].1;
      }
    }

    /** operator=(const TQT_DBusDataMap<T>&) */
    method Assign(other: DataMap)
      requires other.keyType == keyType
      modifies this
      ensures Value() == old(other.Value())
    {
      valueType, containerValue, entries := other.valueType, other.containerValue, other.entries;
    }

    /** operator=(const TQMap<T, TQT_DBusData>&) */
    method AssignEntries(es: seq<(Key, Data)>)
      modifies this
      ensures Value() == MapFromEntries(keyType, es)
    {
      FillFrom(es);
    }

    /** insert(key, data) */
    method Insert(k: Key, d: Data) returns (ok: bool)
      modifies this
      ensures (ok, Value()) == MapInsert(old(Value()), k, d)
    {
      if TypeOf(d) == InvalidType {
        return false;
      }
      if valueType == InvalidType {
        valueType := TypeOf(d);
        if HasContainerValueType() {
          containerValue := d;
        }
        entries := Put(entries, k, d);
      } else if TypeOf(d) != valueType {
        // refused: kind mismatch
      } else if HasContainerValueType() {
        var ourSignature := Signature(containerValue);
        var dataSignature := Signature(d);
        if ourSignature == dataSignature {
          entries := Put(entries, k, d);
        }
      } else {
        entries := Put(entries, k, d);
      }
      return true;
    }

    /** clear(): the pairs go, value type and prototype stay. */
    method Clear()
      modifies this
      ensures Value() == old(Value()).(entries := [])
    {
      entries := [];
    }

    /** toXMap(&ok), one pair at a time. */
    method ToPayloadMap(t: DataType) returns (ok: bool, result: seq<(Key, Payload)>)
      requires IsPayloadType(t)
      ensures Accessed(ok, result) == MapToPayloads(Value(), t)
    {
      if valueType != t {
        return false, [];
      }
      result := [];
      var i := 0;
      while i < |entries|
        invariant 0 <= i <= |entries|
        invariant |result| == i
        invariant forall j :: 0 <= j < i ==> result[j] == (entries[j].0, ToPayload(entries[j].1, t).value)
      {
        result := result + [(entries[i].0, ToPayload(entries[i].1, t).value)];
        i := i + 1;
      }
      assert result == MapToPayloads(Value(), t).value;
      ok := true;
    }
  }
}
