/**
 * parseSignature: turns a D-Bus signature into the zero-valued prototypes
 * the decoder rebuilds arrays and maps from.  The signature is consumed from
 * the front; a nested level ends at `)` or `}` without consuming it.
 *
 * The branch for `a` followed by a container is given in two forms (Rule):
 * as written it parses the rest of the level and keeps only the first
 * value, so siblings after the element vanish; as intended it parses one
 * complete type.
 */
module Signatures {
  import opened Wrappers
  import opened Data
  import opened DataLists
  import opened DataMaps

  /** qSingleTypeForDBusSignature: the kind a basic type code stands for; `g` reads as String. */
  function SingleType(c: char): (t: DataType)
    ensures t != InvalidType <==> IsBasicCode(c)
    ensures t != InvalidType ==> IsPayloadType(t)
  {
    match c
    case 'b' => BoolType
    case 'y' => ByteType
    case 'n' => Int16Type
    case 'q' => UInt16Type
    case 'i' => Int32Type
    case 'u' => UInt32Type
    case 'x' => Int64Type
    case 't' => UInt64Type
    case 'd' => DoubleType
    case 's' => StringType
    case 'o' => ObjectPathType
    case 'g' => StringType
    case 'v' => VariantType
    case 'h' => UnixFdType
    case _ => InvalidType
  }

  /** The fourteen basic type codes the parser knows. */
  predicate IsBasicCode(c: char)
  {
    c == 'b' || c == 'y' || c == 'n' || c == 'q' || c == 'i' || c == 'u' || c == 'x'
    || c == 't' || c == 'd' || c == 's' || c == 'o' || c == 'g' || c == 'v' || c == 'h'
  }

  /** The characters parseSignature has a branch of its own for. */
  predicate Opens(c: char)
  {
    c == '(' || c == ')' || c == '{' || c == '}' || c == 'a'
  }

  /** SingleType reads back the code buildDBusSignature writes for every basic kind. */
  lemma SingleTypeOfCode(t: DataType)
    requires IsPayloadType(t)
    ensures |TypeCode(t)| == 1 && SingleType(TypeCode(t)[0]) == t && !Opens(TypeCode(t)[0])
  {
    match t
    case BoolType =>
    case ByteType =>
    case Int16Type =>
    case UInt16Type =>
    case Int32Type =>
    case UInt32Type =>
    case Int64Type =>
    case UInt64Type =>
    case DoubleType =>
    case StringType =>
    case ObjectPathType =>
    case UnixFdType =>
    case VariantType =>
  }

  /** signature[k]: the character at k, or the terminating NUL past the end. */
  function At(s: string, k: nat): (c: char)
    ensures k >= |s| ==> c == '\0'
  {
    if k < |s| then s[k] else '\0'
  }

  /** mid(n): everything from position n on, empty past the end. */
  function Drop(s: string, n: nat): (r: string)
    ensures n <= |s| ==> r == s[n..]
    ensures n > |s| ==> r == []
  {
    if n <= |s| then s[n..] else []
  }

  /** The kinds whose default-constructed payload fromX accepts and the parser has a case for. */
  predicate HasZero(t: DataType)
  {
    t in {BoolType, ByteType, Int16Type, UInt16Type, Int32Type, UInt32Type, Int64Type, UInt64Type, StringType}
  }

  /**
   * The prototype a basic code yields: fromX(0) or fromString("").  Double
   * and Variant have no case and give Invalid; the default object path and
   * descriptor are invalid, so fromObjectPath and fromUnixFd give Invalid.
   */
  function Zero(t: DataType): (d: Data)
    ensures HasZero(t) ==> d == Scalar(DefaultPayload(t))
    ensures !HasZero(t) ==> d == Invalid
  {
    if t in {BoolType, ByteType, Int16Type, UInt16Type, Int32Type, UInt32Type, Int64Type, UInt64Type, StringType, ObjectPathType, UnixFdType}
    then FromPayload(DefaultPayload(t))
    else Invalid
  }

  /** Where a level of the signature ends: its end, or a closing `)` or `}`. */
  predicate AtLevelEnd(s: string)
  {
    s == [] || s[0] == ')' || s[0] == '}'
  }

  /**
   * parseSignature on one level: the prototypes of its types, in order, and
   * what is left of the signature, which is at the end of the level.
   */
  function ParseSeq(s: string, rule: Rule): (r: (seq<Data>, string))
    ensures AtLevelEnd(r.1) && |r.1| <= |s|
    ensures AtLevelEnd(s) ==> r == ([], s)
    decreases |s|, 2
  {
    if AtLevelEnd(s) then ([], s)
    else
      var (xs, rest) := ParseItem(s, rule);
      var (ys, rest') := ParseSeq(rest, rule);
      (xs + ys, rest')
  }

  /**
   * One pass of parseSignature's loop: the prototypes one type yields (none
   * for a map with an unsupported key kind) and the rest of the signature.
   * A basic or unknown code yields its zero prototype and consumes one
   * character.
   */
  function ParseItem(s: string, rule: Rule): (r: (seq<Data>, string))
    requires !AtLevelEnd(s)
    ensures |r.0| <= 1 && |r.1| < |s|
    decreases |s|, 1
  {
    match s[0]
    case '(' => ParseStruct(s, rule)
    case '{' => ParseDictEntry(s, rule)
    case 'a' => ParseArray(s, rule)
    case _ => ([Zero(SingleType(s[0]))], s[1..])
  }

  /** The `(` branch: the inner level's prototypes become one struct; the closing character is consumed. */
  function ParseStruct(s: string, rule: Rule): (r: (seq<Data>, string))
    requires |s| > 0
    ensures |r.0| == 1 && |r.1| < |s|
    decreases |s|, 0
  {
    var (ms, rest) := ParseSeq(s[1..], rule);
    ([FromStruct(ms)], Drop(rest, 1))
  }

  /**
   * The `{` branch: with a basic value code, an empty map of that value
   * kind; otherwise the value level is parsed and its first prototype
   * becomes the map's.  An unsupported key kind yields nothing.  The
   * closing character is consumed.
   */
  function ParseDictEntry(s: string, rule: Rule): (r: (seq<Data>, string))
    requires |s| > 0
    ensures |r.0| <= 1 && |r.1| < |s|
    decreases |s|, 0
  {
    var kt := SingleType(At(s, 1));
    var vt := SingleType(At(s, 2));
    if vt != InvalidType then
      (if IsKeyType(kt) then [FromKeyMap(MapOfType(kt, vt))] else [], Drop(Drop(s, 3), 1))
    else
      var (vs, rest) := ParseSeq(Drop(s, 2), rule);
      (if IsKeyType(kt) then [FromKeyMap(MapOfPrototype(kt, First(vs)))] else [], Drop(rest, 1))
  }

  /**
   * The `a` branch: with a basic element code, an empty list of that kind;
   * otherwise the element is parsed (by the rule) and wrapped in a list
   * prototype, except that a dict entry element is the map prototype
   * itself.
   */
  function ParseArray(s: string, rule: Rule): (r: (seq<Data>, string))
    requires |s| > 0
    ensures |r.0| == 1 && |r.1| < |s|
    decreases |s|, 0
  {
    var et := SingleType(At(s, 1));
    if et != InvalidType then ([FromList(ListOfType(et))], Drop(s, 2))
    else
      var t := s[1..];
      var (es, rest) :=
        if rule == AsWritten then ParseSeq(t, rule)
        else if AtLevelEnd(t) then ([], t)
        else ParseItem(t, rule);
      ([if At(t, 0) != '{' then FromList(ListOfPrototype(First(es))) else First(es)], rest)
  }

  /** element [0] of a prototype list, Invalid when there is none (the source indexes the list unchecked). */
  function First(ps: seq<Data>): (d: Data)
    ensures ps != [] ==> d == ps[0]
    ensures ps == [] ==> d == Invalid
  {
    if ps == [] then Invalid else ps[0]
  }

  /**
   * parseSignature's loop over the top level, item by item; nested levels
   * are read by ParseItem.
   */
  method ParseSignature(signature: string, rule: Rule) returns (result: seq<Data>, rest: string)
    ensures (result, rest) == ParseSeq(signature, rule)
  {
    result := [];
    rest := signature;
    assert result + ParseSeq(rest, rule).0 == ParseSeq(rest, rule).0;
    while !AtLevelEnd(rest)
      invariant ParseSeq(signature, rule) == (result + ParseSeq(rest, rule).0, ParseSeq(rest, rule).1)
      decreases |rest|
    {
      var item := ParseItem(rest, rule);
      var tail := ParseSeq(item.1, rule);
      assert ParseSeq(rest, rule) == (item.0 + tail.0, tail.1);
      assert result + (item.0 + tail.0) == (result + item.0) + tail.0;
      result := result + item.0;
      rest := item.1;
    }
    assert result + ParseSeq(rest, rule).0 == result;
  }

  /** The first prototype a signature yields, Invalid when it yields none. */
  function Prototype(signature: string, rule: Rule): Data
  {
    First(ParseSeq(signature, rule).0)
  }


  /** One pass of the level loop: the first item's prototypes, then the rest of the level. */
  lemma ParseSeqStep(s: string, rule: Rule)
    requires !AtLevelEnd(s)
    ensures ParseSeq(s, rule)
            == (ParseItem(s, rule).0 + ParseSeq(ParseItem(s, rule).1, rule).0, ParseSeq(ParseItem(s, rule).1, rule).1)
  {
  }

  // ---------------------------------------------------------------------
  // What the parser gives back for a value's own signature

  /**
   * Values whose signature describes their type completely: no Invalid
   * part, lists of a known kind, and container prototypes of the declared
   * kind.
   */
  predicate Describable(v: Data)
    decreases v, 1
  {
    match v
    case Invalid => false
    case Scalar(_) => true
    case List(l) =>
      IsPayloadType(l.elemType)
      || (IsContainer(l.elemType) && TypeOf(l.containerItem) == l.elemType && Describable(l.containerItem))
    case Struct(ms) => forall i :: 0 <= i < |ms| ==> Describable(ms[i])
    case Map(m) =>
      !IsContainer(m.valueType)
      || (TypeOf(m.containerValue) == m.valueType && Describable(m.containerValue))
  }

  /**
   * The zero-valued prototype of a value's type, built the way the parser
   * builds it: zero scalars, empty lists and maps carrying their element's
   * prototype, structs of member prototypes.  When it is not Invalid it has
   * the value's kind.
   */
  function Proto(v: Data): (r: Data)
    ensures !r.Invalid? ==> TypeOf(r) == TypeOf(v)
    decreases v, 1
  {
    match v
    case Invalid => Invalid
    case Scalar(p) => Zero(PayloadType(p))
    case List(l) =>
      if IsContainer(l.elemType) then FromList(ListOfPrototype(Proto(l.containerItem)))
      else FromList(ListOfType(l.elemType))
    case Struct(ms) => FromStruct(Protos(ms))
    case Map(m) =>
      if IsContainer(m.valueType) then FromKeyMap(MapOfPrototype(m.keyType, Proto(m.containerValue)))
      else FromKeyMap(MapOfType(m.keyType, m.valueType))
  }

  function Protos(ms: seq<Data>): (ps: seq<Data>)
    ensures |ps| == |ms|
    decreases ms, 0
  {
    if ms == [] then [] else [Proto(ms[0])] + Protos(ms[1..])
  }

  /** A valid value's signature starts a type: never a closing or opening brace, and for a container never a basic code. */
  lemma SignatureHead(v: Data)
    requires !v.Invalid?
    ensures |Signature(v)| > 0
    ensures Signature(v)[0] != ')' && Signature(v)[0] != '}' && Signature(v)[0] != '{'
    ensures IsContainer(TypeOf(v)) ==> !IsBasicCode(Signature(v)[0])
  {
    SignatureShape(v);
    if v.Scalar? { SingleTypeOfCode(PayloadType(v.p)); }
  }

  /**
   * Arrays whose element is a container, maps included (their elements
   * are dict entries): for these the parser as written reads the rest of
   * the enclosing level as the element.
   */
  predicate ReadsLevel(v: Data)
  {
    (v.List? && IsContainer(v.list.elemType)) || v.Map?
  }

  /**
   * Types whose signature the parser as written reads like the intended
   * one: at no depth is an array of containers followed by a sibling on
   * its level.
   */
  predicate ParseSafe(v: Data)
    decreases v, 1
  {
    match v
    case Invalid => true
    case Scalar(_) => true
    case List(l) => IsContainer(l.elemType) ==> ParseSafe(l.containerItem)
    case Struct(ms) => SafeLevel(ms)
    case Map(m) => IsContainer(m.valueType) ==> ParseSafe(m.containerValue)
  }

  /** A level of such types in which only the last may be an array of containers. */
  predicate SafeLevel(ms: seq<Data>)
    decreases ms, 0
  {
    (forall i :: 0 <= i < |ms| - 1 ==> !ReadsLevel(ms[i]))
    && forall i :: 0 <= i < |ms| ==> ParseSafe(ms[i])
  }

  /**
   * What a rule needs to read a value's signature followed by `u` as the
   * value's type alone: nothing for the intended parser; for the parser as
   * written, a safe type, and the end of the level right after an array of
   * containers.
   */
  predicate ReadsAlone(v: Data, u: string, rule: Rule)
  {
    rule == AsWritten ==> ParseSafe(v) && (ReadsLevel(v) ==> AtLevelEnd(u))
  }

  /**
   * The parser reads the signature of a describable value back as the
   * value's prototype, consuming exactly that signature: the intended
   * parser whatever follows, the parser as written under ReadsAlone.
   */
  lemma {:induction false} ParseDescribed(v: Data, u: string, rule: Rule)
    requires Describable(v) && ReadsAlone(v, u, rule)
    ensures !AtLevelEnd(Signature(v) + u)
    ensures ParseItem(Signature(v) + u, rule) == ([Proto(v)], u)
    decreases v, 3
  {
    SignatureHead(v);
    match v
    case Scalar(p) =>
      var c := TypeCode(PayloadType(p))[0];
      SingleTypeOfCode(PayloadType(p));
      assert Signature(v) + u == [c] + u;
      ParseBasicCode(c, u);
    case List(_) => ParseListSignature(v, u, rule);
    case Struct(_) => ParseStructSignature(v, u, rule);
    case Map(_) => ParseMapSignature(v, u, rule);
  }

  lemma {:induction false} ParseListSignature(v: Data, u: string, rule: Rule)
    requires v.List? && Describable(v) && ReadsAlone(v, u, rule)
    ensures ParseItem(Signature(v) + u, rule) == ([Proto(v)], u)
    decreases v, 2
  {
    var l := v.list;
    if IsContainer(l.elemType) {
      ParseContainerList(v, u, rule);
    } else {
      var c := TypeCode(l.elemType)[0];
      SingleTypeOfCode(l.elemType);
      assert Signature(v) + u == ['a', c] + u;
      ParseBasicArray(c, u, rule);
    }
  }

  /** The list case of ParseListSignature with container elements. */
  lemma {:induction false} ParseContainerList(v: Data, u: string, rule: Rule)
    requires v.List? && IsContainer(v.list.elemType) && Describable(v) && ReadsAlone(v, u, rule)
    ensures ParseItem(Signature(v) + u, rule) == ([Proto(v)], u)
    decreases v, 1
  {
    var ci := v.list.containerItem;
    SignatureHead(ci);
    var t := Signature(ci) + u;
    assert Signature(v) + u == "a" + t;
    ParseDescribed(ci, u, rule);
    if rule == AsWritten {
      LevelOfOne(t, u, rule);
      ArrayStepAsWritten(t);
    } else {
      ArrayStepCorrected(t);
    }
  }

  lemma {:induction false} ParseStructSignature(v: Data, u: string, rule: Rule)
    requires v.Struct? && Describable(v) && ReadsAlone(v, u, rule)
    ensures ParseItem(Signature(v) + u, rule) == ([Proto(v)], u)
    decreases v, 2
  {
    var ms := v.members;
    var s := Signature(v) + u;
    assert s == "(" + (MemberSignatures(ms) + (")" + u));
    assert s[1..] == MemberSignatures(ms) + (")" + u);
    ParseMembers(ms, ")" + u, rule);
    assert Drop(")" + u, 1) == u;
  }

  lemma {:induction false} ParseMapSignature(v: Data, u: string, rule: Rule)
    requires v.Map? && Describable(v) && ReadsAlone(v, u, rule)
    ensures ParseItem(Signature(v) + u, rule) == ([Proto(v)], u)
    decreases v, 2
  {
    var m := v.dict;
    var t := "{" + TypeCode(m.keyType) + ValueSignature(m) + "}" + u;
    assert Signature(v) + u == "a" + t;
    assert ("a" + t)[1..] == t;
    ParseDictEntrySignature(v, u, rule);
    if rule == AsWritten {
      LevelOfOne(t, u, rule);
    }
  }

  /** The `{` key value `}` part of a map's signature reads back as the map's prototype, whatever follows it. */
  lemma {:induction false} ParseDictEntrySignature(v: Data, u: string, rule: Rule)
    requires v.Map? && Describable(v) && (rule == AsWritten ==> ParseSafe(v))
    ensures var m := v.dict;
            ParseItem("{" + TypeCode(m.keyType) + ValueSignature(m) + "}" + u, rule) == ([Proto(v)], u)
    decreases v, 1
  {
    var m := v.dict;
    SingleTypeOfCode(m.keyType);
    var k := TypeCode(m.keyType)[0];
    var x := ValueSignature(m) + ("}" + u);
    assert "{" + TypeCode(m.keyType) + ValueSignature(m) + "}" + u == ['{', k] + x;
    if IsContainer(m.valueType) {
      SignatureHead(m.containerValue);
      ParseContainerValue(v, u, rule);
      DictEntryWithLevel(k, x, rule);
      assert Drop("}" + u, 1) == u;
    } else if m.valueType == InvalidType {
      DictEntryWithLevel(k, x, rule);
      assert Drop("}" + u, 1) == u;
    } else {
      SingleTypeOfCode(m.valueType);
      var c := TypeCode(m.valueType)[0];
      assert ['{', k] + x == ['{', k, c, '}'] + u;
      ParseBasicDictEntry(k, c, u, rule);
    }
  }

  /** `{` with a key code and a value that is not a basic code: the value level's first prototype in a map. */
  lemma DictEntryWithLevel(k: char, x: string, rule: Rule)
    requires SingleType(At(x, 0)) == InvalidType
    ensures var r := ParseSeq(x, rule);
            ParseItem(['{', k] + x, rule)
            == (if IsKeyType(SingleType(k)) then [FromKeyMap(MapOfPrototype(SingleType(k), First(r.0)))] else [], Drop(r.1, 1))
  {
    var s := ['{', k] + x;
    assert Drop(s, 2) == x;
    assert At(s, 1) == k && At(s, 2) == At(x, 0);
  }

  /** A map's container value, then the closing brace, reads back as the value's prototype alone. */
  lemma {:induction false} ParseContainerValue(v: Data, u: string, rule: Rule)
    requires v.Map? && Describable(v) && IsContainer(v.dict.valueType) && (rule == AsWritten ==> ParseSafe(v))
    ensures ParseSeq(Signature(v.dict.containerValue) + ("}" + u), rule) == ([Proto(v.dict.containerValue)], "}" + u)
    decreases v, 0
  {
    var cv := v.dict.containerValue;
    SignatureHead(cv);
    ParseDescribed(cv, "}" + u, rule);
    LevelOfOne(Signature(cv) + ("}" + u), "}" + u, rule);
  }

  /** A type that ends its level is the level's only type. */
  lemma LevelOfOne(t: string, u: string, rule: Rule)
    requires !AtLevelEnd(t) && AtLevelEnd(u) && ParseItem(t, rule).1 == u
    ensures ParseSeq(t, rule) == (ParseItem(t, rule).0, u)
  {
    ParseSeqStep(t, rule);
    assert ParseItem(t, rule).0 + [] == ParseItem(t, rule).0;
  }

  /**
   * A level made of describable members reads back as their prototypes,
   * stopping at the level's end; as written, when the level is safe.
   */
  lemma {:induction false} ParseMembers(ms: seq<Data>, u: string, rule: Rule)
    requires forall i :: 0 <= i < |ms| ==> Describable(ms[i])
    requires AtLevelEnd(u) && (rule == AsWritten ==> SafeLevel(ms))
    ensures ParseSeq(MemberSignatures(ms) + u, rule) == (Protos(ms), u)
    decreases ms, 0
  {
    if ms == [] {
      assert MemberSignatures(ms) + u == u;
    } else {
      var rest := MemberSignatures(ms[1..]) + u;
      assert MemberSignatures(ms) + u == Signature(ms[0]) + rest;
      if rule == AsWritten && ReadsLevel(ms[0]) {
        assert ms[1..] == [];
        assert rest == u;
      }
      ParseDescribed(ms[0], rest, rule);
      ParseSeqStep(Signature(ms[0]) + rest, rule);
      assert forall i :: 0 <= i < |ms[1..]| ==> ms[1..][i] == ms[i + 1];
      ParseMembers(ms[1..], u, rule);
    }
  }

  /** A whole signature made of describable types reads back as their prototypes, with nothing left. */
  lemma ParseSignatureOfValues(vs: seq<Data>, rule: Rule)
    requires forall i :: 0 <= i < |vs| ==> Describable(vs[i])
    requires rule == AsWritten ==> SafeLevel(vs)
    ensures ParseSeq(MemberSignatures(vs), rule) == (Protos(vs), "")
  {
    ParseMembers(vs, "", rule);
    assert MemberSignatures(vs) + "" == MemberSignatures(vs);
  }

  // ---------------------------------------------------------------------
  // When the prototype is exact

  /**
   * Types whose prototype the parser builds in full: Double, Variant,
   * object-path and descriptor codes yield Invalid prototypes, so they may
   * appear only as the basic element or value kind of a list or map.
   */
  predicate PlainType(v: Data)
    decreases v, 1
  {
    match v
    case Invalid => false
    case Scalar(p) => HasZero(PayloadType(p))
    case List(l) =>
      IsPayloadType(l.elemType)
      || (IsContainer(l.elemType) && TypeOf(l.containerItem) == l.elemType && PlainType(l.containerItem))
    case Struct(ms) => forall i :: 0 <= i < |ms| ==> PlainType(ms[i])
    case Map(m) =>
      !IsContainer(m.valueType)
      || (TypeOf(m.containerValue) == m.valueType && PlainType(m.containerValue))
  }

  /** The prototype is a valid value with the value's own signature. */
  predicate ExactProto(v: Data)
  {
    !Proto(v).Invalid? && Signature(Proto(v)) == Signature(v)
  }

  /** Plain types are describable and have an exact prototype. */
  lemma {:induction false} PlainProtoIsExact(v: Data)
    requires PlainType(v)
    ensures Describable(v) && ExactProto(v)
    decreases v, 1
  {
    match v
    case Scalar(p) =>
    case List(l) =>
      if IsContainer(l.elemType) { PlainProtoIsExact(l.containerItem); }
    case Struct(ms) =>
      PlainMembersExact(ms);
    case Map(m) =>
      if IsContainer(m.valueType) { PlainProtoIsExact(m.containerValue); }
  }

  lemma {:induction false} PlainMembersExact(ms: seq<Data>)
    requires forall i :: 0 <= i < |ms| ==> PlainType(ms[i])
    ensures forall i :: 0 <= i < |ms| ==> Describable(ms[i]) && !Protos(ms)[i].Invalid?
    ensures MemberSignatures(Protos(ms)) == MemberSignatures(ms)
    decreases ms, 0
  {
    if ms != [] {
      PlainProtoIsExact(ms[0]);
      PlainMembersExact(ms[1..]);
      assert Protos(ms) == [Proto(ms[0])] + Protos(ms[1..]);
      forall i | 0 <= i < |ms| ensures Describable(ms[i]) && !Protos(ms)[i].Invalid? {
        if i > 0 { assert ms[i] == ms[1..][i - 1]; }
      }
    }
  }

  /** The structure of one double: signature "(d)", no prototype. */
  lemma StructOfDouble()
    ensures Proto(Struct([Scalar(PDouble(0))])) == Invalid
    ensures Signature(Struct([Scalar(PDouble(0))])) == "(d)"
  {
    var sd := Struct([Scalar(PDouble(0))]);
    assert Protos([Scalar(PDouble(0))]) == [Invalid];
    assert Protos(sd.members)[0].Invalid?;
  }

  /**
   * A struct holding a Double has no prototype, and a map whose values are
   * such structs gets a prototype without a value type: its signature
   * loses the value part.
   */
  lemma InexactPrototypes()
    ensures Proto(Struct([Scalar(PDouble(0))])) == Invalid
    ensures var v := Map(MapValue(StringType, StructType, Struct([Scalar(PDouble(0))]), []));
            Proto(v) == Map(EmptyMap(StringType)) && Signature(v) == "a{s(d)}" && Signature(Proto(v)) == "a{s}"
  {
    var sd := Struct([Scalar(PDouble(0))]);
    StructOfDouble();
    var v := Map(MapValue(StringType, StructType, sd, []));
    assert MapOfPrototype(StringType, Invalid) == EmptyMap(StringType);
    assert ValueSignature(v.dict) == "(d)";
    assert ValueSignature(EmptyMap(StringType)) == "";
  }

  // ---------------------------------------------------------------------
  // Single steps, as the parser's loop takes them

  /** A basic code, or any character that opens nothing, yields one zero prototype and consumes one character. */
  lemma ParseBasicCode(c: char, u: string)
    requires !Opens(c)
    ensures ParseItem([c] + u, Corrected) == ([Zero(SingleType(c))], u)
    ensures ParseItem([c] + u, AsWritten) == ([Zero(SingleType(c))], u)
  {
    assert ([c] + u)[1..] == u;
  }

  /** `(` opens a level whose prototypes become one struct; the closing character is consumed. */
  lemma StructStep(x: string, rule: Rule)
    ensures !AtLevelEnd("(" + x)
    ensures ParseItem("(" + x, rule) == ([FromStruct(ParseSeq(x, rule).0)], Drop(ParseSeq(x, rule).1, 1))
  {
    assert ("(" + x)[1..] == x;
  }

  /** A basic (or unknown) code yields its zero prototype ahead of the rest of the level. */
  lemma CodeThenLevel(c: char, w: string, rule: Rule)
    requires !Opens(c)
    ensures ParseSeq([c] + w, rule) == ([Zero(SingleType(c))] + ParseSeq(w, rule).0, ParseSeq(w, rule).1)
  {
    ParseBasicCode(c, w);
    ParseSeqStep([c] + w, rule);
  }

  /** As written, `a` before a container code parses the whole rest of the level and keeps its first value. */
  lemma ArrayStepAsWritten(t: string)
    requires |t| > 0 && !IsBasicCode(t[0])
    ensures var (es, rest) := ParseSeq(t, AsWritten);
            ParseItem("a" + t, AsWritten) == ([if t[0] != '{' then FromList(ListOfPrototype(First(es))) else First(es)], rest)
  {
    assert ("a" + t)[1..] == t;
  }

  /** As intended, `a` followed by a container reads one complete type as the element. */
  lemma ArrayStepCorrected(t: string)
    requires |t| > 0 && !IsBasicCode(t[0]) && !AtLevelEnd(t)
    ensures var (es, rest) := ParseItem(t, Corrected);
            ParseItem("a" + t, Corrected) == ([if t[0] != '{' then FromList(ListOfPrototype(First(es))) else First(es)], rest)
  {
    assert ("a" + t)[0] == 'a' && ("a" + t)[1..] == t;
    assert SingleType(At("a" + t, 1)) == InvalidType;
  }

  /** `{` key value `}` with a basic value code: an empty map of that value kind, or nothing for an unsupported key kind. */
  lemma ParseBasicDictEntry(k: char, c: char, u: string, rule: Rule)
    requires SingleType(c) != InvalidType
    ensures var r := ParseItem(['{', k, c, '}'] + u, rule);
            r.1 == u
            && (IsKeyType(SingleType(k)) ==> r.0 == [FromKeyMap(MapOfType(SingleType(k), SingleType(c)))])
            && (!IsKeyType(SingleType(k)) ==> r.0 == [])
  {
    assert Drop(Drop(['{', k, c, '}'] + u, 3), 1) == u;
  }

  /** `a` followed by a basic code: an empty list of that kind; two characters consumed. */
  lemma ParseBasicArray(c: char, u: string, rule: Rule)
    requires SingleType(c) != InvalidType
    ensures ParseItem(['a', c] + u, rule) == ([FromList(ListOfType(SingleType(c)))], u)
  {
    assert Drop(['a', c] + u, 2) == u;
  }

  /** `{` with a supported key code yields one map prototype without entries, whatever the value part. */
  lemma DictEntryYieldsMap(k: char, x: string, rule: Rule)
    requires IsKeyType(SingleType(k))
    ensures var r := ParseItem(['{', k] + x, rule);
            |r.0| == 1 && r.0[0].Map? && r.0[0].dict.entries == []
  {
    var s := ['{', k] + x;
    assert At(s, 1) == k;
  }

  /**
   * Under either rule, the signature of a map, whatever its key and value
   * kinds, reads back as a map prototype without entries.
   */
  lemma MapPrototypeIsEmpty(d: Data, rule: Rule)
    requires d.Map?
    ensures var p := Prototype(Signature(d), rule);
            p.Map? && p.dict.entries == []
  {
    var m := d.dict;
    SingleTypeOfCode(m.keyType);
    var k := TypeCode(m.keyType)[0];
    var x := ValueSignature(m) + "}";
    var t := ['{', k] + x;
    assert Signature(d) == "a" + t;
    assert ("a" + t)[1..] == t;
    DictEntryYieldsMap(k, x, rule);
    ParseSeqStep("a" + t, rule);
    if rule == AsWritten {
      ParseSeqStep(t, rule);
    }
  }

  // ---------------------------------------------------------------------
  // The as-written array branch

  /** The int32 pair struct "(ii)" and its zero prototype. */
  function PairProto(): Data
  {
    FromStruct([Zero(Int32Type), Zero(Int32Type)])
  }

  /** Two codes that open nothing, then the end of the level. */
  lemma TwoCodesThenEnd(c: char, d: char, w: string, rule: Rule)
    requires !Opens(c) && !Opens(d) && AtLevelEnd(w)
    ensures ParseSeq([c, d] + w, rule) == ([Zero(SingleType(c)), Zero(SingleType(d))], w)
  {
    assert [c, d] + w == [c] + ([d] + w);
    var zc, zd := Zero(SingleType(c)), Zero(SingleType(d));
    assert ParseSeq(w, rule).0 == [] && ParseSeq(w, rule).1 == w;
    CodeThenLevel(d, w, rule);
    assert [zd] + ParseSeq(w, rule).0 == [zd];
    CodeThenLevel(c, [d] + w, rule);
    assert [zc] + [zd] == [zc, zd];
  }

  /** "(ii)" reads as the pair struct, whatever follows it. */
  lemma PairStep(v: string, rule: Rule)
    ensures !AtLevelEnd("(ii)" + v)
    ensures ParseItem("(ii)" + v, rule) == ([PairProto()], v)
  {
    var x := ['i', 'i'] + ([')'] + v);
    assert "(ii)" + v == "(" + x;
    TwoCodesThenEnd('i', 'i', [')'] + v, rule);
    StructStep(x, rule);
    assert Drop([')'] + v, 1) == v;
  }

  /** As written, "(ii)s" reads as the pair struct followed by its String sibling. */
  lemma PairThenString(u: string)
    requires AtLevelEnd(u)
    ensures ParseSeq("(ii)s" + u, AsWritten) == ([PairProto(), Zero(StringType)], u)
  {
    var s2, s6 := "(ii)s" + u, ['s'] + u;
    assert s2 == "(ii)" + s6;
    PairStep(s6, AsWritten);
    var zs := Zero(StringType);
    assert ParseSeq(u, AsWritten).0 == [] && ParseSeq(u, AsWritten).1 == u;
    CodeThenLevel('s', u, AsWritten);
    assert [zs] + ParseSeq(u, AsWritten).0 == [zs];
    ParseSeqStep(s2, AsWritten);
    assert [PairProto()] + [zs] == [PairProto(), zs];
  }

  /** As written, "(a(ii)s)" reads as a struct holding only the array: the String member is lost. */
  lemma ArrayBranchAsWritten(u: string)
    ensures ParseItem("(a(ii)s)" + u, AsWritten) == ([FromStruct([FromList(ListOfPrototype(PairProto()))])], u)
  {
    var arr := FromList(ListOfPrototype(PairProto()));
    var s7 := [')'] + u;
    var s2 := "(ii)s" + s7;
    var s1 := ['a'] + s2;
    assert "(a(ii)s)" + u == "(" + s1;
    PairThenString(s7);
    assert First(ParseSeq(s2, AsWritten).0) == PairProto();
    ArrayStepAsWritten(s2);
    assert ParseItem(s1, AsWritten) == ([arr], s7);
    ParseSeqStep(s1, AsWritten);
    assert ParseSeq(s7, AsWritten).0 == [] && ParseSeq(s7, AsWritten).1 == s7;
    assert [arr] + ParseSeq(s7, AsWritten).0 == [arr];
    StructStep(s1, AsWritten);
    assert Drop(s7, 1) == u;
  }

  /** The structure of an array of pairs of Int32 and a string. */
  function PairsAndString(): Data
  {
    var i0 := Scalar(PInt32(0));
    Struct([List(ListValue(StructType, Struct([i0, i0]), [])), Scalar(PString(""))])
  }

  /** PairsAndString is describable, with signature "(a(ii)s)". */
  lemma PairsAndStringSignature()
    ensures Describable(PairsAndString()) && Signature(PairsAndString()) == "(a(ii)s)"
  {
    var i0 := Scalar(PInt32(0));
    var pair := Struct([i0, i0]);
    var arr := List(ListValue(StructType, pair, []));
    var str := Scalar(PString(""));
    assert Describable(i0) && Describable(str);
    assert Describable(pair);
    assert Describable(arr);
    assert MemberSignatures([i0]) == "i";
    assert MemberSignatures([i0, i0]) == "i" + MemberSignatures([i0]);
    assert Signature(pair) == "(ii)";
    assert Signature(arr) == "a(ii)";
    assert MemberSignatures([str]) == "s";
    assert MemberSignatures([arr, str]) == "a(ii)" + MemberSignatures([str]);
  }

  /** The prototype of PairsAndString: an empty list of pair prototypes, then an empty string. */
  lemma PairsAndStringProto()
    ensures Proto(PairsAndString()) == FromStruct([FromList(ListOfPrototype(PairProto())), Zero(StringType)])
  {
    var i0 := Scalar(PInt32(0));
    var pair := Struct([i0, i0]);
    var arr := List(ListValue(StructType, pair, []));
    var str := Scalar(PString(""));
    assert Protos([i0]) == [Zero(Int32Type)];
    assert Protos(pair.members) == [Zero(Int32Type), Zero(Int32Type)];
    assert Proto(pair) == PairProto();
    assert Protos([str]) == [Zero(StringType)];
    assert Protos([arr, str]) == [Proto(arr), Zero(StringType)];
  }

  /** As intended, "(a(ii)s)" reads as a struct of the array and the String. */
  lemma ArrayBranchCorrected(u: string)
    ensures ParseItem("(a(ii)s)" + u, Corrected)
            == ([FromStruct([FromList(ListOfPrototype(PairProto())), Zero(StringType)])], u)
  {
    PairsAndStringSignature();
    PairsAndStringProto();
    ParseDescribed(PairsAndString(), u, Corrected);
  }

  /**
   * "(a(ii)s)", whatever follows it: as written the array branch parses
   * "(ii)s" as its element and keeps the struct, so the String member is
   * lost; as intended the struct prototype has both members.
   */
  lemma ArrayBranchSwallowsSiblings(u: string)
    ensures var arr := FromList(ListOfPrototype(PairProto()));
            ParseItem("(a(ii)s)" + u, AsWritten).0 == [Struct([arr])]
            && ParseItem("(a(ii)s)" + u, Corrected).0 == [Struct([arr, Zero(StringType)])]
  {
    ArrayBranchAsWritten(u);
    ArrayBranchCorrected(u);
    var arr := FromList(ListOfPrototype(PairProto()));
    assert !arr.Invalid?;
    assert FromStruct([arr]) == Struct([arr]);
    assert !Zero(StringType).Invalid?;
    assert FromStruct([arr, Zero(StringType)]) == Struct([arr, Zero(StringType)]);
  }
}
