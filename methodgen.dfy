/**
 * parseDBusSignature of the dbusxml2qt3 code generator: fills in the C++
 * type, the TQT_DBusData accessor (and sub-accessor) and the declarations
 * and includes an argument of a given D-Bus signature needs.  It works on
 * an argument in place and reports whether the signature was understood.
 */
module MethodGen {
  import opened Wrappers
  import opened Data
  import opened Signatures

  datatype Direction = In | Out

  /** Argument, without the header includes parseDBusSignature never touches. */
  datatype Argument = Argument(
    name: string,
    annotatedType: string,
    signature: string,
    accessor: string,
    subAccessor: string,
    containerClass: string,
    direction: Direction,
    isPrimitive: bool,
    forwardDeclarations: seq<string>,
    sourceIncludes: map<string, seq<string>>,
    dbusSignature: string)

  /** A default-constructed Argument, as the recursive calls start from. */
  const Blank := Argument("", "", "", "", "", "", In, false, [], map[], "")

  /** What a one-character signature stands for. */
  datatype Basic = Basic(cppType: string, accessor: string, isPrimitive: bool, forward: seq<string>, includes: seq<(string, string)>)

  /** The one-character signatures the generator knows; `g` is not among them. */
  function BasicType(c: char): (b: Option<Basic>)
    ensures b.Some? <==> IsBasicCode(c) && c != 'g'
  {
    match c
    case 'b' => Some(Basic("bool", "Bool", true, [], []))
    case 'y' => Some(Basic("TQ_UINT8", "Byte", true, [], []))
    case 'n' => Some(Basic("TQ_INT16", "Int16", true, [], []))
    case 'q' => Some(Basic("TQ_UINT16", "UInt16", true, [], []))
    case 'i' => Some(Basic("TQ_INT32", "Int32", true, [], []))
    case 'u' => Some(Basic("TQ_UINT32", "UInt32", true, [], []))
    case 'x' => Some(Basic("TQ_INT64", "Int64", true, [], []))
    case 't' => Some(Basic("TQ_UINT64", "UInt64", true, [], []))
    case 'd' => Some(Basic("double", "Double", true, [], []))
    case 's' => Some(Basic("TQString", "String", false, ["class TQString"], [("TQt", "<tqstring.h>")]))
    case 'o' => Some(Basic("TQT_DBusObjectPath", "ObjectPath", false, ["class TQT_DBusObjectPath"], [("tqdbus", "<tqdbusobjectpath.h>")]))
    case 'h' => Some(Basic("TQT_DBusUnixFd", "UnixFd", false, ["class TQT_DBusUnixFd"], [("tqdbus", "<tqdbusunixfd.h>")]))
    case 'v' => Some(Basic("TQT_DBusVariant", "Variant", false, ["class TQT_DBusVariant"], [("tqdbus", "<tqdbusvariant.h>")]))
    case _ => None
  }

  /** The generated code reads a basic argument with the accessor of exactly the kind the runtime decodes its code to. */
  lemma BasicAccessorIsRuntimeAccessor(c: char)
    requires BasicType(c).Some?
    ensures BasicType(c).value.accessor == TypeName(SingleType(c))
    ensures BasicType(c).value.isPrimitive <==> c in "bynqiuxtd"
  {
  }

  /** sourceIncludes[group].append(header). */
  function AddInclude(includes: map<string, seq<string>>, group: string, header: string): (r: map<string, seq<string>>)
    ensures r.Keys == includes.Keys + {group}
    ensures r[group] == Get(includes, group) + [header]
    ensures forall g :: g in includes && g != group ==> r[g] == includes[g]
  {
    includes[group := Get(includes, group) + [header]]
  }

  /** A group's list, empty when the group is absent (TQMap's operator[]). */
  function Get(includes: map<string, seq<string>>, group: string): seq<string>
  {
    if group in includes then includes[group] else []
  }

  function AddIncludes(includes: map<string, seq<string>>, hs: seq<(string, string)>): map<string, seq<string>>
    decreases |hs|
  {
    if hs == [] then includes else AddIncludes(AddInclude(includes, hs[0].0, hs[0].1), hs[1..])
  }

  /** `into[group] += from[group]` for every group of `from`. */
  function MergeIncludes(into: map<string, seq<string>>, from: map<string, seq<string>>): (r: map<string, seq<string>>)
    ensures r.Keys == into.Keys + from.Keys
    ensures forall g :: g in r ==> r[g] == Get(into, g) + Get(from, g)
  {
    map g | g in into.Keys + from.Keys :: Get(into, g) + Get(from, g)
  }

  /** The include-merging loop: walk the groups of `from`, appending each list to `into`'s. */
  method MergeIncludesLoop(into: map<string, seq<string>>, from: map<string, seq<string>>) returns (r: map<string, seq<string>>)
    ensures r == MergeIncludes(into, from)
  {
    r := into;
    var todo := from.Keys;
    while todo != {}
      invariant todo <= from.Keys
      invariant r.Keys == into.Keys + (from.Keys - todo)
      invariant forall g :: g in r ==> r[g] == Get(into, g) + (if g in todo then [] else Get(from, g))
      decreases todo
    {
      var g :| g in todo;
      r := r[g := Get(r, g) + from[g]];
      todo := todo - {g};
    }
    assert r.Keys == MergeIncludes(into, from).Keys;
  }

  predicate StartsWith(s: string, prefix: string) {
    |prefix| <= |s| && s[..|prefix|] == prefix
  }

  /** The position of the last `c` in `s`, -1 when there is none (TQString::findRev). */
  function FindLast(s: string, c: char): (i: int)
    ensures -1 <= i < |s|
    ensures i >= 0 ==> s[i] == c && forall j :: i < j < |s| ==> s[j] != c
    ensures i == -1 ==> forall j :: 0 <= j < |s| ==> s[j] != c
  {
    if s == [] then -1
    else if s[|s| - 1] == c then |s| - 1
    else FindLast(s[..|s| - 1], c)
  }

  /** The result of parseDBusSignature: whether it succeeded, and the argument as left behind. */
  datatype Parsed = Parsed(ok: bool, arg: Argument)

  /** The map a{kv…} becomes when the value gives no sub-accessor, or is not understood, or the entry starts with `oa`. */
  function DataMapOf(arg: Argument, key: Argument): Argument
  {
    arg.(isPrimitive := false,
         containerClass := "TQT_DBusDataMap< " + key.signature + " >",
         signature := "TQT_DBusDataMap< " + key.signature + " >",
         accessor := key.accessor + "KeyMap",
         forwardDeclarations := arg.forwardDeclarations + ["template <typename K> class TQT_DBusDataMap"] + key.forwardDeclarations,
         sourceIncludes := AddInclude(AddInclude(key.sourceIncludes, "tqdbus", "<tqdbusdata.h>"), "tqdbus", "<tqdbusdatamap.h>"))
  }

  /** The map a{kv…} becomes when the value is understood and has no sub-accessor: a TQMap of key and value type. */
  function TypedMapOf(arg: Argument, key: Argument, value: Argument): Argument
  {
    arg.(isPrimitive := false,
         containerClass := "TQT_DBusDataMap< " + key.signature + " >",
         signature := "TQMap< " + key.signature + ", " + value.signature + " >",
         accessor := key.accessor + "KeyMap",
         subAccessor := value.accessor + "Map",
         forwardDeclarations := arg.forwardDeclarations + ["template <typename K, typename V> class TQMap"]
                                + key.forwardDeclarations + value.forwardDeclarations,
         sourceIncludes := MergeIncludes(AddInclude(AddInclude(AddInclude(key.sourceIncludes, "TQt", "<tqmap.h>"),
                                                               "tqdbus", "<tqdbusdata.h>"), "tqdbus", "<tqdbusdatamap.h>"),
                                         value.sourceIncludes))
  }

  /** The list aT becomes when T is understood and is not itself an array: a TQValueList of T. */
  function TypedListOf(arg: Argument, item: Argument): (r: Argument)
    ensures Covers(r, item)
  {
    arg.(isPrimitive := false,
         signature := "TQValueList< " + item.signature + " >",
         accessor := "List",
         subAccessor := item.accessor + "List",
         containerClass := "TQT_DBusDataList",
         forwardDeclarations := arg.forwardDeclarations + ["class TQT_DBusDataList", "template <typename T> class TQValueList"]
                                + item.forwardDeclarations,
         sourceIncludes := MergeIncludes(AddInclude(AddInclude(arg.sourceIncludes, "TQt", "<tqvaluelist.h>"),
                                                    "tqdbus", "<tqdbusdatalist.h>"),
                                         item.sourceIncludes))
  }

  /** Every forward declaration and every include `inner` needs is also in `outer`. */
  predicate Covers(outer: Argument, inner: Argument)
  {
    (forall f :: f in inner.forwardDeclarations ==> f in outer.forwardDeclarations)
    && forall g :: g in inner.sourceIncludes ==>
         g in outer.sourceIncludes && forall h :: h in inner.sourceIncludes[g] ==> h in outer.sourceIncludes[g]
  }

  /** Any other array: a generic TQT_DBusDataList. */
  function DataListOf(arg: Argument): Argument
  {
    arg.(signature := "TQT_DBusDataList",
         accessor := "List",
         isPrimitive := false,
         forwardDeclarations := arg.forwardDeclarations + ["class TQT_DBusDataList"],
         sourceIncludes := AddInclude(arg.sourceIncludes, "tqdbus", "<tqdbusdatalist.h>"))
  }

  /** A one-character signature: understood exactly when it is a code of the table. */
  function ParseBasic(arg: Argument, c: char): (r: Parsed)
    ensures r.ok <==> BasicType(c).Some?
    ensures r.ok ==> r.arg.accessor == BasicType(c).value.accessor && r.arg.signature == BasicType(c).value.cppType
                     && r.arg.isPrimitive == BasicType(c).value.isPrimitive
    ensures !r.ok ==> r.arg == arg
    ensures r.arg.dbusSignature == arg.dbusSignature && r.arg.name == arg.name
    ensures r.arg.direction == arg.direction && r.arg.annotatedType == arg.annotatedType
  {
    match BasicType(c)
    case None => Parsed(false, arg)
    case Some(b) =>
      Parsed(true, arg.(signature := b.cppType, accessor := b.accessor, isPrimitive := b.isPrimitive,
                        forwardDeclarations := arg.forwardDeclarations + b.forward,
                        sourceIncludes := AddIncludes(arg.sourceIncludes, b.includes)))
  }

  /**
   * parseDBusSignature(signature, argument).  The argument always records
   * the signature; a failure changes nothing else about it; a success
   * always gives it an accessor.  A signature other than a single code
   * must start with `a`, and every array that is not a map is understood.
   */
  function ParseDBusSignature(signature: string, arg: Argument): (r: Parsed)
    decreases |signature|, 1
    ensures r.arg.dbusSignature == signature
    ensures r.arg.name == arg.name && r.arg.direction == arg.direction && r.arg.annotatedType == arg.annotatedType
    ensures !r.ok ==> r.arg == arg.(dbusSignature := signature)
    ensures r.ok ==> r.arg.accessor != ""
    ensures |signature| == 1 ==> (r.ok <==> BasicType(signature[0]).Some?)
    ensures |signature| == 1 && r.ok ==> r.arg.accessor == BasicType(signature[0]).value.accessor
                                         && r.arg.isPrimitive == BasicType(signature[0]).value.isPrimitive
                                         && r.arg.signature == BasicType(signature[0]).value.cppType
    ensures |signature| != 1 && !StartsWith(signature, "a") ==> !r.ok
    ensures |signature| >= 2 && signature[0] == 'a' && signature[1] != '{' ==> r.ok
  {
    var arg := arg.(dbusSignature := signature);
    if |signature| == 1 then
      ParseBasic(arg, signature[0])
    else if !StartsWith(signature, "a") then
      Parsed(false, arg)
    else if signature == "as" then
      Parsed(true, arg.(signature := "TQStringList", accessor := "List", subAccessor := "TQStringList", isPrimitive := false,
                        forwardDeclarations := arg.forwardDeclarations + ["class TQStringList"],
                        sourceIncludes := AddInclude(AddInclude(arg.sourceIncludes, "tqdbus", "<tqdbusdatalist.h>"),
                                                     "TQt", "<tqstringlist.h>")))
    else if StartsWith(signature, "a{") then
      ParseMap(signature, arg)
    else
      ParseArray(signature, arg)
  }

  /** The a{…} branch: the text between the first `{` and the last `}` is a one-character key followed by the value. */
  function ParseMap(signature: string, arg: Argument): (r: Parsed)
    requires StartsWith(signature, "a{")
    decreases |signature|, 0
    ensures !r.ok ==> r.arg == arg
    ensures r.ok <==> FindLast(signature, '}') >= 4 && BasicType(signature[2]).Some?
    ensures r.ok ==> r.arg.accessor == BasicType(signature[2]).value.accessor + "KeyMap"
    ensures r.arg.dbusSignature == arg.dbusSignature && r.arg.name == arg.name
    ensures r.arg.direction == arg.direction && r.arg.annotatedType == arg.annotatedType
  {
    var from, to := 1, FindLast(signature, '}');
    if to == -1 || to - from - 1 < 2 then
      Parsed(false, arg)
    else
      var dict := signature[from + 1..to];
      assert dict[..1] == [signature[2]];
      var key := ParseDBusSignature(dict[..1], Blank);
      if !key.ok then
        Parsed(false, arg)
      else
        var value := ParseDBusSignature(dict[1..], Blank);
        if value.ok && !StartsWith(dict, "oa") then
          if value.arg.subAccessor != "" then
            Parsed(true, DataMapOf(arg, key.arg))
          else
            Parsed(true, TypedMapOf(arg, key.arg, value.arg))
        else
          Parsed(true, DataMapOf(arg, key.arg))
  }

  /** Any other array: a TQValueList of an understood non-array element, a TQT_DBusDataList otherwise; never a failure. */
  function ParseArray(signature: string, arg: Argument): (r: Parsed)
    requires |signature| >= 1
    decreases |signature|, 0
    ensures r.ok && r.arg.accessor == "List"
    ensures var item := ParseDBusSignature(signature[1..], Blank);
            if item.ok && !StartsWith(signature[1..], "a")
            then r.arg == TypedListOf(arg, item.arg)
            else r.arg.signature == "TQT_DBusDataList"
    ensures r.arg.dbusSignature == arg.dbusSignature && r.arg.name == arg.name
    ensures r.arg.direction == arg.direction && r.arg.annotatedType == arg.annotatedType
  {
    var itemSignature := signature[1..];
    var item := ParseDBusSignature(itemSignature, Blank);
    if item.ok && !StartsWith(itemSignature, "a") then
      Parsed(true, TypedListOf(arg, item.arg))
    else
      Parsed(true, DataListOf(arg))
  }

  /** Each primitive code gives its fixed-width C++ type, primitive, read with the runtime's accessor for that code. */
  lemma PrimitiveCodes(c: char, arg: Argument)
    requires c in "bynqiuxtd"
    ensures var r := ParseDBusSignature([c], arg);
            r.ok && r.arg.isPrimitive && r.arg.accessor == TypeName(SingleType(c))
  {
    BasicAccessorIsRuntimeAccessor(c);
  }

  /** `as` is a TQStringList read with toList().toTQStringList(). */
  lemma StringListSignature(arg: Argument)
    ensures var r := ParseDBusSignature("as", arg);
            r.ok && r.arg.signature == "TQStringList" && r.arg.accessor == "List" && r.arg.subAccessor == "TQStringList"
  {
  }

  /**
   * A map signature is understood exactly when at least two characters
   * stand between the `{` and the last `}` and the first of them is a
   * basic code; it is read through that key's accessor followed by "KeyMap".
   */
  lemma MapSignature(signature: string, arg: Argument)
    requires StartsWith(signature, "a{")
    ensures var r := ParseDBusSignature(signature, arg);
            (r.ok <==> FindLast(signature, '}') >= 4 && BasicType(signature[2]).Some?)
            && (r.ok ==> r.arg.accessor == BasicType(signature[2]).value.accessor + "KeyMap")
  {
    assert signature != "as" by { assert signature[1] == '{'; }
  }

  /** An array that is neither `as` nor a map is parsed by the array branch. */
  lemma ArrayBranch(signature: string, arg: Argument)
    requires |signature| >= 2 && signature[0] == 'a' && signature[1] != '{' && signature != "as"
    ensures ParseDBusSignature(signature, arg) == ParseArray(signature, arg.(dbusSignature := signature))
  {
    assert StartsWith(signature, "a") && !StartsWith(signature, "a{");
  }

  /** `a` with an understood element that is not an array gives TQValueList of it, read with the element accessor + "List". */
  lemma ListSignature(signature: string, arg: Argument)
    requires |signature| >= 2 && signature[0] == 'a' && signature[1] != '{' && signature[1] != 'a' && signature != "as"
    requires ParseDBusSignature(signature[1..], Blank).ok
    ensures var r := ParseDBusSignature(signature, arg);
            var item := ParseDBusSignature(signature[1..], Blank);
            r.ok && r.arg.signature == "TQValueList< " + item.arg.signature + " >"
            && r.arg.accessor == "List" && r.arg.subAccessor == item.arg.accessor + "List"
  {
    assert signature[1..][..1][0] == signature[1];
    ArrayBranch(signature, arg);
  }

  /** Such a list's declarations and includes contain every one its element needs. */
  lemma ListIncludesElementNeeds(signature: string, arg: Argument)
    requires |signature| >= 2 && signature[0] == 'a' && signature[1] != '{' && signature[1] != 'a' && signature != "as"
    requires ParseDBusSignature(signature[1..], Blank).ok
    ensures Covers(ParseDBusSignature(signature, arg).arg, ParseDBusSignature(signature[1..], Blank).arg)
  {
    assert signature[1..][..1][0] == signature[1];
    ArrayBranch(signature, arg);
  }

  /** Any other array, an array of arrays included, still succeeds, as a generic TQT_DBusDataList. */
  lemma OtherArraySignature(signature: string, arg: Argument)
    requires |signature| >= 2 && signature[0] == 'a' && signature[1] != '{' && signature != "as"
    requires !ParseDBusSignature(signature[1..], Blank).ok || signature[1] == 'a'
    ensures var r := ParseDBusSignature(signature, arg);
            r.ok && r.arg.signature == "TQT_DBusDataList" && r.arg.accessor == "List"
  {
    assert signature[1] == 'a' ==> StartsWith(signature[1..], "a");
    ArrayBranch(signature, arg);
  }
}
