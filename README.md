# tde-dbus-1-tqt in Dafny

A model of the core of tde-dbus-1-tqt, the TQt binding of the D-Bus
message bus, together with the transforms of its code generator
dbusxml2qt3.

- **Values** (`Keys`, `Data`, `ObjectPaths`, `DataLists`, `DataMaps`):
  TQDBusData as a recursive datatype. It has scalars, strings, object paths,
  Unix file descriptors, lists, structs, variants and maps keyed by one of
  the scalar key kinds. Object-path validation is included. The accessors
  (fromX/toX) are a single pair of functions indexed by the value kind.
  TQDBusDataList and TQDBusDataMap are classes whose element sequence and
  key-sorted entry sequence are fields. Their methods refuse an element or
  value whose kind or signature does not match, as the source does.
- **Signatures and marshalling** (`Signatures`, `Marshall`):
  - building a value's D-Bus signature;
  - parsing a signature into prototype values, with a recursive
    specification and an imperative parser proved against it;
  - encoding and decoding values over an abstract wire tree that stands for
    libdbus's message iterator. The round trip is proved for the corrected
    writer and parser on every marshallable value, and for the code as
    written on the marshallable values it handles as intended
    (`Marshall.AsWrittenSafe`).
- **Errors and messages** (`Errors`, `Messages`): TQDBusError's standard
  error names and validity rules, and TQDBusMessage with its kinds, serials,
  reply creation and argument list.
- **Converters and proxy** (`Converters`, `Proxies`): the geometry
  converters (rectangle, point, size) to and from structs of Int32
  values, and TQDBusProxy's fixed peer, call building and signal
  filtering.
- **Connections and integration** (`Connections`, `Integrator`): the
  bookkeeping of the connection manager and the connection private. This
  covers named connections, watches, timeouts, pending asynchronous calls,
  reply matching by serial and the object-destroyed cleanup.
- **Generator** (`MethodGen`, `ClassGen`, `Options`): dbusxml2qt3's mapping
  of D-Bus types to TQt types, the class-splitting transforms and its
  command-line parsing.

## Model

| member | source | states |
|---|---|---|
| Keys.KeyLessIrreflexive | tde-dbus-1-tqt/src/tqdbusdatamap.h:73 | no key of a TQMap is below itself |
| Keys.KeyLessTransitive | tde-dbus-1-tqt/src/tqdbusdatamap.h:73 | the key order of the underlying TQMap is transitive |
| Keys.KeyLessTotal | tde-dbus-1-tqt/src/tqdbusdatamap.h:73 | any two distinct keys are ordered one way or the other, so iteration order is determined |
| Keys.StrLessIrreflexive | tde-dbus-1-tqt/src/tqdbusdatamap.h:73 | string and object-path keys: no string precedes itself |
| Keys.StrLessTransitive | tde-dbus-1-tqt/src/tqdbusdatamap.h:73 | string and object-path keys: the lexicographic order is transitive |
| Keys.StrLessTotal | tde-dbus-1-tqt/src/tqdbusdatamap.h:73 | string and object-path keys: two different strings are ordered |
| Data.PayloadType | tde-dbus-1-tqt/src/tqdbusdata.cpp:355-733 | the kind a fromX call gives is always a non-container kind other than Invalid |
| Data.KeyTypeOf | tde-dbus-1-tqt/src/tqdbusdata.cpp:322-327 | keyType() is Invalid for every kind except Map, and a Map's key kind otherwise |
| Data.TypeName | tde-dbus-1-tqt/src/tqdbusdata.cpp:329-353 | typeName() is never empty and names the enumerator |
| Data.TypeNameInjective | tde-dbus-1-tqt/src/tqdbusdata.cpp:329-353 | two different kinds never get the same name |
| Data.TypeCode | tde-dbus-1-tqt/src/tqdbusdata.cpp:987-1023 | qDBusTypeForTQT_DBusType gives a code of at most one character, and no code (a null string) exactly for Invalid and the three container kinds |
| Data.TypeCodeInjective | tde-dbus-1-tqt/src/tqdbusdata.cpp:987-1023 | two different non-container kinds never share a type code |
| Data.SignatureShape | tde-dbus-1-tqt/src/tqdbusdata.cpp:1034-1129 | buildDBusSignature is empty exactly for Invalid; a scalar gives its one-character code; a list or map starts with "a", a map continues with "{" and is at least three long, a struct is wrapped in "(" and ")" |
| Data.DefaultPayload | tde-dbus-1-tqt/src/tqdbusdata.cpp:365-376 | the value toX returns on failure has the kind asked for |
| Data.FromPayload | tde-dbus-1-tqt/src/tqdbusdata.cpp:355-363 | fromX gives an Invalid value exactly when the argument is rejected (an invalid object path or descriptor); otherwise its kind is the payload's (also lines 585-596, 611-622) |
| Data.ToPayload | tde-dbus-1-tqt/src/tqdbusdata.cpp:365-468 | toX sets ok exactly when the value has kind X, and on failure returns that kind's default |
| Data.PayloadRoundTrip | tde-dbus-1-tqt/src/tqdbusdata.cpp:447-468 | for every accepted payload, fromX(v).toX(&ok) returns v with ok == true |
| Data.PayloadMismatch | tde-dbus-1-tqt/src/tqdbusdata.cpp:457-463 | toX on a value of another kind gives ok == false and the kind's default (0, false, empty string, …) (also lines 572-578) |
| Data.FromList | tde-dbus-1-tqt/src/tqdbusdata.cpp:637-647 | fromList of an Invalid-typed list is Invalid; otherwise a List value |
| Data.ToList | tde-dbus-1-tqt/src/tqdbusdata.cpp:649-660 | toList succeeds exactly on a List value and otherwise returns an empty Invalid list |
| Data.ListRoundTrip | tde-dbus-1-tqt/src/tqdbusdata.cpp:637-660 | a typed list comes back unchanged through fromList and toList |
| Data.ToValueList | tde-dbus-1-tqt/src/tqdbusdata.cpp:667-679 | toTQValueList returns the list's elements for a List value (leaving the caller's flag as it was) and an empty list with ok == false for any other kind |
| Data.FromStruct | tde-dbus-1-tqt/src/tqdbusdata.cpp:681-696 | fromStruct is Invalid exactly when some member is Invalid; an empty member list still gives a Struct holding exactly the members |
| Data.ToStruct | tde-dbus-1-tqt/src/tqdbusdata.cpp:698-709 | toStruct succeeds exactly on a Struct value, and otherwise gives an empty member list |
| Data.StructRoundTrip | tde-dbus-1-tqt/src/tqdbusdata.cpp:681-709 | members without an Invalid one come back unchanged through fromStruct and toStruct |
| Data.FromKeyMap | tde-dbus-1-tqt/src/tqdbusdata.cpp:742-751 | fromXKeyMap always gives a Map value whose keyType() is the map's key kind |
| Data.ToKeyMap | tde-dbus-1-tqt/src/tqdbusdata.cpp:753-764 | the corrected toXKeyMap succeeds exactly for a Map keyed by X, and otherwise returns an empty Invalid map keyed by X |
| Data.ToKeyMapAsWritten | tde-dbus-1-tqt/src/tqdbusdata.cpp:753-764 | the toXKeyMap guard as written agrees with the corrected one on every non-Map value |
| Data.ToKeyMapGuardAcceptsOtherKey | tde-dbus-1-tqt/src/tqdbusdata.cpp:755 | as written, toStringKeyMap accepts a map keyed by Int32 and hands back its Int32-keyed map; the corrected accessor refuses it |
| Data.KeyMapRoundTrip | tde-dbus-1-tqt/src/tqdbusdata.cpp:742-764 | a map comes back unchanged through fromXKeyMap and toXKeyMap |
| Data.GetAsVariantData | tde-dbus-1-tqt/src/tqdbusdata.cpp:734-740 | getAsVariantData gives a Variant whose toVariant holds the value under the value's own buildDBusSignature |
| Data.ListNotEqualIsNegation | tde-dbus-1-tqt/src/tqdbusdatalist.cpp:405-447 | list != is exactly the negation of list == |
| Data.EqualReflexive | tde-dbus-1-tqt/src/tqdbusdata.cpp:205-210 | every value is equal to itself, recursively through lists, structs, variants and maps |
| Data.EqualSymmetric | tde-dbus-1-tqt/src/tqdbusdata.cpp:205-310 | operator== is symmetric |
| Data.EqualSameSignature | tde-dbus-1-tqt/src/tqdbusdata.cpp:211-306 | equal values have the same kind, the same key kind and the same D-Bus signature |
| Data.MemberSignaturesEqual | tde-dbus-1-tqt/src/tqdbusdata.cpp:1056-1071 | struct members with pairwise equal signatures give the same concatenated signature |
| Data.UInt32EqualAsWrittenFails | tde-dbus-1-tqt/src/tqdbusdata.cpp:234 | as written, two UInt32 values holding the same number compare unequal once the other side's 64-bit word has a non-zero upper half; the corrected equality holds |
| ObjectPaths.LastIndexOf | tde-dbus-1-tqt/src/tqdbusobjectpath.cpp:60 | findRev gives -1 or an index holding the character, with no later occurrence |
| ObjectPaths.Validate | tde-dbus-1-tqt/src/tqdbusobjectpath.cpp:73-88 | validate gives -1 exactly for a non-empty path starting with "/" that does not end in "/" (unless it is "/"); 0 exactly for an empty path or one not starting with "/"; otherwise the last index, which holds a "/" |
| ObjectPaths.ParentNode | tde-dbus-1-tqt/src/tqdbusobjectpath.cpp:53-71 | parentNode is empty for a one-character path or a path without "/"; "/" when the only "/" is the leading one of a longer path; otherwise the prefix that ends just before the last "/" |
| ObjectPaths.Child | tde-dbus-1-tqt/src/tqdbusobjectpath.cpp:38-46 | the child path starts with the parent and ends with the node name, with a "/" right after the parent unless the parent is one character long |
| ObjectPaths.ChildIsValid | tde-dbus-1-tqt/src/tqdbusobjectpath.cpp:38-51 | a valid parent and a non-empty node name without "/" give a valid child |
| ObjectPaths.ParentOfChild | tde-dbus-1-tqt/src/tqdbusobjectpath.cpp:38-71 | for a valid parent and a node name without "/", parentNode(child) is the parent |
| ObjectPaths.EmptySegmentAccepted | tde-dbus-1-tqt/src/tqdbusobjectpath.cpp:73-88 | "/a//b" passes validation while its parent "/a/" does not: only the first and last characters are checked |
| DataLists.ListOfPrototype | tde-dbus-1-tqt/src/tqdbusdatalist.cpp:51-66 | the prototype constructor takes the prototype's kind, keeps the prototype only when it is a container, and has no elements |
| DataLists.ListFromSeq | tde-dbus-1-tqt/src/tqdbusdatalist.cpp:75-112 | from an empty or heterogeneous TQValueList: an empty Invalid list; from a homogeneous one: the first element's kind and prototype, holding exactly the input |
| DataLists.ListFromSeqWellTyped | tde-dbus-1-tqt/src/tqdbusdatalist.cpp:75-112 | for input without Invalid values the list is well-typed, and it holds the whole input exactly when the input is homogeneous |
| DataLists.ListAppend | tde-dbus-1-tqt/src/tqdbusdatalist.cpp:454-490 | operator<< either leaves the list as it was or appends exactly the data, and never appends Invalid data |
| DataLists.ListAppendSpec | tde-dbus-1-tqt/src/tqdbusdatalist.cpp:454-490 | on a typed list, fitting data is appended and anything else leaves the list unchanged; an Invalid list adopts the data's kind (and prototype) and appends it; Invalid data is ignored; the list stays well-typed |
| DataLists.ListClear | tde-dbus-1-tqt/src/tqdbusdatalist.cpp:449-452 | clear removes every element and keeps the element type and prototype |
| DataLists.ListClearWellTyped | tde-dbus-1-tqt/src/tqdbusdatalist.cpp:449-452 | clearing keeps a well-typed list well-typed |
| DataLists.ListFromPayloads | tde-dbus-1-tqt/src/tqdbusdatalist.cpp:115-127 | a typed constructor fixes the element type even for empty input and wraps every input element with fromX, in order |
| DataLists.ListToPayloads | tde-dbus-1-tqt/src/tqdbusdatalist.cpp:519-539 | toXList succeeds exactly when the element type is X, gives an empty result otherwise, and on success unwraps every element in order |
| DataLists.PayloadListRoundTrip | tde-dbus-1-tqt/src/tqdbusdatalist.cpp:115-127 | a typed list built from accepted values is well-typed and toXList gives back the same values (also lines 519-539) |
| DataLists.CheckElements | tde-dbus-1-tqt/src/tqdbusdatalist.cpp:83-109 | the element loop accepts exactly the inputs whose elements all have the first one's kind and, for containers, its signature |
| DataLists.TypedListKeepsRejectedItems | tde-dbus-1-tqt/src/tqdbusdatalist.cpp:270-283 | a typed object-path list keeps a path that fails validation, as an Invalid element |
| DataLists.DataList.FillFrom | tde-dbus-1-tqt/src/tqdbusdatalist.cpp:316-361 | after the shared construct/assign body, the list's state is exactly ListFromSeq of the input |
| DataLists.DataList.Assign | tde-dbus-1-tqt/src/tqdbusdatalist.cpp:305-314 | assignment copies the other list's type, prototype and elements; self-assignment changes nothing |
| DataLists.DataList.AssignSeq | tde-dbus-1-tqt/src/tqdbusdatalist.cpp:316-361 | assignment from a TQValueList gives the state ListFromSeq describes |
| DataLists.DataList.AssignStrings | tde-dbus-1-tqt/src/tqdbusdatalist.cpp:363-377 | assignment from a TQStringList gives a well-typed String list holding the strings in order |
| DataLists.DataList.Append | tde-dbus-1-tqt/src/tqdbusdatalist.cpp:454-490 | operator<< changes the state exactly as ListAppend |
| DataLists.DataList.Clear | tde-dbus-1-tqt/src/tqdbusdatalist.cpp:449-452 | clear changes the state exactly as ListClear |
| DataLists.DataList.ToPayloadList | tde-dbus-1-tqt/src/tqdbusdatalist.cpp:519-539 | the element-by-element loop returns what ListToPayloads specifies |
| DataLists.DataList.constructor | tde-dbus-1-tqt/src/tqdbusdatalist.cpp:42-44 | the default list is empty and Invalid |
| DataLists.DataList.OfType | tde-dbus-1-tqt/src/tqdbusdatalist.cpp:46-49 | the simple-type constructor sets the element type and nothing else |
| DataLists.DataList.OfPrototype | tde-dbus-1-tqt/src/tqdbusdatalist.cpp:51-66 | the prototype constructor gives the state ListOfPrototype describes |
| DataLists.DataList.Copy | tde-dbus-1-tqt/src/tqdbusdatalist.cpp:68-73 | the copy has the other list's state |
| DataLists.DataList.FromSeq | tde-dbus-1-tqt/src/tqdbusdatalist.cpp:75-112 | construction from a TQValueList gives the state ListFromSeq describes |
| DataLists.DataList.FromPayloads | tde-dbus-1-tqt/src/tqdbusdatalist.cpp:115-127 | a typed constructor gives the state ListFromPayloads describes |
| DataMaps.Lookup | tde-dbus-1-tqt/src/tqdbusdatamap.h:73 | finding a key in the underlying TQMap succeeds exactly when some pair has that key |
| DataMaps.PutSpec | tde-dbus-1-tqt/src/tqdbusdatamap.h:906-928 | the TQMap insert that insert() calls keeps the keys ascending, finds the new value under its key, leaves every other key's value alone and stores nothing but the new pair and the old ones |
| DataMaps.PutLookup | tde-dbus-1-tqt/src/tqdbusdatamap.h:906-928 | after the TQMap insert the key finds the new value (replacing an old one) and every other key finds what it found before |
| DataMaps.LookupIndex | tde-dbus-1-tqt/src/tqdbusdatamap.h:73 | in a key-ordered map, looking up the key of the i-th pair finds the i-th value |
| DataMaps.MapOfPrototype | tde-dbus-1-tqt/src/tqdbusdatamap.h:117-121 | the prototype constructor takes the prototype's kind, keeps the prototype only for a container kind, and is empty |
| DataMaps.MapInsert | tde-dbus-1-tqt/src/tqdbusdatamap.h:895-931 | insert returns false exactly for Invalid data (and true even when it refuses a mismatched value); it either leaves the map unchanged or performs the TQMap insert of the pair; the key kind never changes |
| DataMaps.MapInsertSpec | tde-dbus-1-tqt/src/tqdbusdatamap.h:895-931 | on a typed map a fitting value is stored and any other leaves the map unchanged; an Invalid map adopts the value's kind (and prototype) and stores it; the map stays well-typed |
| DataMaps.InsertAllAppends | tde-dbus-1-tqt/src/tqdbusdatamap.h:895-931 | inserting, in ascending key order above all present keys, values that fit a typed map or are Invalid appends exactly the non-Invalid pairs |
| DataMaps.MapFromEntries | tde-dbus-1-tqt/src/tqdbusdatamap.h:150-187 | from an empty or heterogeneous TQMap: an empty Invalid map; from a homogeneous one: the first value's kind and prototype, holding exactly the input pairs |
| DataMaps.CheckValues | tde-dbus-1-tqt/src/tqdbusdatamap.h:165-186 | the value loop accepts exactly the inputs whose values all have the first one's kind and, for containers, its signature |
| DataMaps.MapFromEntriesWellTyped | tde-dbus-1-tqt/src/tqdbusdatamap.h:150-187 | for key-ordered input without Invalid values the map is well-typed, and holds all pairs exactly when the input is homogeneous |
| DataMaps.WrapPayloads | tde-dbus-1-tqt/src/tqdbusdatamap.h:201-210 | the typed constructors wrap each value with fromX and keep its key, pair for pair |
| DataMaps.TypedMapEntries | tde-dbus-1-tqt/src/tqdbusdatamap.h:201-210 | a typed constructor fixes the value type even for empty input and holds, in key order, every pair whose fromX value is valid; the result is well-typed (also lines 895-931) |
| DataMaps.DropInvalidElements | tde-dbus-1-tqt/src/tqdbusdatamap.h:897 | the pairs insert keeps are pairs of the input whose value is not Invalid |
| DataMaps.DropInvalidSorted | tde-dbus-1-tqt/src/tqdbusdatamap.h:897 | dropping the refused pairs keeps the keys ascending |
| DataMaps.MapToPayloads | tde-dbus-1-tqt/src/tqdbusdatamap.h:956-976 | toXMap succeeds exactly when the value type is X, gives an empty map otherwise, and on success unwraps every value in key order under its key |
| DataMaps.PayloadMapRoundTrip | tde-dbus-1-tqt/src/tqdbusdatamap.h:201-210 | a typed map built from accepted values gives back exactly the same pairs through toXMap (also lines 956-976) |
| DataMaps.WrapMaps | tde-dbus-1-tqt/src/tqdbusdatamap.h:493-503 | the map-of-maps constructors wrap each inner map with fromXKeyMap under its key |
| DataMaps.MapOfMapsAsWrittenIsEmpty | tde-dbus-1-tqt/src/tqdbusdatamap.h:493-503 | as written, a map-of-maps constructor has value type Map but no prototype, so every insert is refused and the result is empty |
| DataMaps.RefusedByMissingPrototype | tde-dbus-1-tqt/src/tqdbusdatamap.h:917-923 | a Map-typed map without a prototype refuses every Map value it is given |
| DataMaps.MapOfMapsKeepsAll | tde-dbus-1-tqt/src/tqdbusdatamap.h:493-503 | as intended, key-ordered inner maps of one signature all land in the map, in order, and the map is well-typed |
| DataMaps.MapOfMapsFinding | tde-dbus-1-tqt/src/tqdbusdatamap.h:493-503 | a single pair already shows the difference: empty as written, one pair as intended |
| DataMaps.DataMap.FillFrom | tde-dbus-1-tqt/src/tqdbusdatamap.h:150-187 | after the shared construct/assign body, the map's state is exactly MapFromEntries of the input |
| DataMaps.DataMap.Assign | tde-dbus-1-tqt/src/tqdbusdatamap.h:658-666 | assignment copies value type, prototype and pairs |
| DataMaps.DataMap.AssignEntries | tde-dbus-1-tqt/src/tqdbusdatamap.h:682-724 | assignment from a TQMap gives the state MapFromEntries describes |
| DataMaps.DataMap.Insert | tde-dbus-1-tqt/src/tqdbusdatamap.h:895-931 | insert returns and changes the state exactly as MapInsert |
| DataMaps.DataMap.Clear | tde-dbus-1-tqt/src/tqdbusdatamap.h:855 | clear removes every pair and keeps value type and prototype |
| DataMaps.DataMap.ToPayloadMap | tde-dbus-1-tqt/src/tqdbusdatamap.h:956-976 | the pair-by-pair loop returns what MapToPayloads specifies |
| DataMaps.DataMap.constructor | tde-dbus-1-tqt/src/tqdbusdatamap.h:89-90 | the default map is empty and Invalid |
| DataMaps.DataMap.OfType | tde-dbus-1-tqt/src/tqdbusdatamap.h:104-105 | the simple-type constructor sets the value type and nothing else |
| DataMaps.DataMap.OfPrototype | tde-dbus-1-tqt/src/tqdbusdatamap.h:117-121 | the prototype constructor gives the state MapOfPrototype describes |
| DataMaps.DataMap.Copy | tde-dbus-1-tqt/src/tqdbusdatamap.h:130-132 | the copy has the other map's state |
| DataMaps.DataMap.FromEntries | tde-dbus-1-tqt/src/tqdbusdatamap.h:150-187 | construction from a TQMap gives the state MapFromEntries describes |
| DataMaps.DataMap.FromPayloads | tde-dbus-1-tqt/src/tqdbusdatamap.h:201-210 | a typed constructor gives the state of one insert per pair into a map of that value type |
| Signatures.SingleType | tde-dbus-1-tqt/src/tqdbusmarshall.cpp:49-73 | qSingleTypeForDBusSignature gives a kind other than Invalid exactly for the fourteen codes b y n q i u x t d s o g v h, and that kind is always a basic payload kind |
| Signatures.SingleTypeOfCode | tde-dbus-1-tqt/src/tqdbusmarshall.cpp:49-73 | reading back the code buildDBusSignature writes for a basic kind gives that kind, and that code opens no container |
| Signatures.At | tde-dbus-1-tqt/src/tqdbusmarshall.cpp:96-99 | indexing the signature past its end reads the terminating NUL |
| Signatures.Drop | tde-dbus-1-tqt/src/tqdbusmarshall.cpp:148-152 | mid(n) drops the first n characters, leaving nothing past the end |
| Signatures.Zero | tde-dbus-1-tqt/src/tqdbusmarshall.cpp:239-299 | a basic code yields fromX(0) or fromString(""); Double and Variant have no case, and the default object path and descriptor are rejected, so those give Invalid |
| Signatures.ParseSeq | tde-dbus-1-tqt/src/tqdbusmarshall.cpp:75-303 | parsing one level stops at the end of the signature or at ")" or "}", which it leaves in place, and never lengthens the signature |
| Signatures.ParseItem | tde-dbus-1-tqt/src/tqdbusmarshall.cpp:82-300 | one pass of the loop yields at most one prototype and always consumes at least one character |
| Signatures.ParseStruct | tde-dbus-1-tqt/src/tqdbusmarshall.cpp:84-91 | "(" yields exactly one struct prototype and consumes input |
| Signatures.ParseDictEntry | tde-dbus-1-tqt/src/tqdbusmarshall.cpp:93-209 | "{" yields at most one map prototype (none for an unsupported key kind) and consumes input |
| Signatures.ParseArray | tde-dbus-1-tqt/src/tqdbusmarshall.cpp:211-237 | "a" yields exactly one prototype and consumes input |
| Signatures.First | tde-dbus-1-tqt/src/tqdbusmarshall.cpp:155-161 | element [0] of the parsed prototypes, Invalid when there are none |
| Signatures.ParseSignature | tde-dbus-1-tqt/src/tqdbusmarshall.cpp:75-303 | the while loop over the top level returns the prototypes and the unconsumed rest that ParseSeq describes |
| Signatures.ParseSeqStep | tde-dbus-1-tqt/src/tqdbusmarshall.cpp:80-302 | when the level has not ended, its prototypes are the first item's followed by those of the rest |
| Signatures.Proto | tde-dbus-1-tqt/src/tqdbusmarshall.cpp:75-303 | the prototype the parser builds for a value's type has, when it is not Invalid, the value's kind |
| Signatures.SignatureHead | tde-dbus-1-tqt/src/tqdbusdata.cpp:1034-1129 | a valid value's signature is non-empty, never starts with ")", "}" or "{", and for a container never starts with a basic code |
| Signatures.ParseDescribed | tde-dbus-1-tqt/src/tqdbusmarshall.cpp:75-303 | either parser reads the signature of a describable value back as that value's prototype, consuming exactly the signature: the corrected parser whatever follows, the parser as written when the type is ParseSafe and an array of containers ends its level |
| Signatures.ParseListSignature | tde-dbus-1-tqt/src/tqdbusmarshall.cpp:211-237 | an array signature reads back as the list's prototype, under the same conditions as ParseDescribed |
| Signatures.ParseStructSignature | tde-dbus-1-tqt/src/tqdbusmarshall.cpp:84-91 | a struct signature reads back as the struct of its members' prototypes, under the same conditions as ParseDescribed |
| Signatures.ParseMapSignature | tde-dbus-1-tqt/src/tqdbusmarshall.cpp:211-237 | "a{…}" reads back as the map prototype itself, under the same conditions as ParseDescribed |
| Signatures.ParseDictEntrySignature | tde-dbus-1-tqt/src/tqdbusmarshall.cpp:93-209 | under either parser (as written, for a ParseSafe value type) the "{" key value "}" part of a map's signature reads back as the map's prototype, consuming the closing brace |
| Signatures.ParseMembers | tde-dbus-1-tqt/src/tqdbusmarshall.cpp:80-302 | a level made of describable members reads back as their prototypes, in order, stopping at the level's end; under the parser as written, when only the last member may be an array of containers |
| Signatures.ParseSignatureOfValues | tde-dbus-1-tqt/src/tqdbusmarshall.cpp:75-303 | a whole signature made of describable types reads back as their prototypes, with nothing left over; under the parser as written, when the level is safe |
| Signatures.ParseContainerList | tde-dbus-1-tqt/src/tqdbusmarshall.cpp:221-235 | an array of containers reads back as the list of its element's prototype; as written only when nothing follows on its level |
| Signatures.LevelOfOne | tde-dbus-1-tqt/src/tqdbusmarshall.cpp:80-302 | a type whose parse ends its level is the only type the level yields |
| Signatures.MapPrototypeIsEmpty | tde-dbus-1-tqt/src/tqdbusmarshall.cpp:93-237 | under either parser a map's signature reads back as a map prototype without entries, whatever its kinds |
| Signatures.PlainProtoIsExact | tde-dbus-1-tqt/src/tqdbusmarshall.cpp:239-299 | types built from codes with a zero value are describable and their prototype has the same signature |
| Signatures.InexactPrototypes | tde-dbus-1-tqt/src/tqdbusmarshall.cpp:274-277 | a struct holding a Double has no prototype, so a map of such structs gets a prototype whose signature "a{s}" lacks the value part of "a{s(d)}" |
| Signatures.ParseBasicCode | tde-dbus-1-tqt/src/tqdbusmarshall.cpp:239-299 | a basic or unknown code yields one zero prototype and consumes one character, under both parsers |
| Signatures.StructStep | tde-dbus-1-tqt/src/tqdbusmarshall.cpp:84-91 | "(" parses the inner level into one struct and consumes the closing character |
| Signatures.ParseBasicDictEntry | tde-dbus-1-tqt/src/tqdbusmarshall.cpp:99-148 | "{k v}" with a basic value code yields an empty map of value kind v for a supported key kind, nothing otherwise, and consumes all four characters |
| Signatures.ParseBasicArray | tde-dbus-1-tqt/src/tqdbusmarshall.cpp:213-220 | "a" followed by a basic code yields an empty list of that kind and consumes two characters |
| Signatures.ArrayStepAsWritten | tde-dbus-1-tqt/src/tqdbusmarshall.cpp:221-235 | as written, "a" before a container code parses the whole rest of the level and keeps only its first prototype |
| Signatures.PairThenString | tde-dbus-1-tqt/src/tqdbusmarshall.cpp:80-302 | "(ii)s" reads as the pair struct followed by a String prototype |
| Signatures.ArrayBranchAsWritten | tde-dbus-1-tqt/src/tqdbusmarshall.cpp:221-235 | as written, "(a(ii)s)" reads as a struct holding only the array: the String member is lost |
| Signatures.ArrayBranchCorrected | tde-dbus-1-tqt/src/tqdbusmarshall.cpp:221-235 | as intended, "(a(ii)s)" reads as a struct of the array of pairs and the String |
| Signatures.ArrayBranchSwallowsSiblings | tde-dbus-1-tqt/src/tqdbusmarshall.cpp:221-235 | the two parsers differ on "(a(ii)s)" whatever follows it |
| Marshall.KeyPayload | tde-dbus-1-tqt/src/tqdbusmarshall.cpp:743-750 | a map key is written as a basic item of the map's key kind, carrying exactly that key when it lies in the kind's range (also lines 977-982) |
| Marshall.KeyKindOf | tde-dbus-1-tqt/src/tqdbusmarshall.cpp:439-524 | the first entry's key item selects the map kind of its own type |
| Marshall.Encode | tde-dbus-1-tqt/src/tqdbusmarshall.cpp:1066-1235 | qDBusDataToIterator appends at most one item for a value, and nothing for an Invalid one |
| Marshall.EncodeAll | tde-dbus-1-tqt/src/tqdbusmarshall.cpp:1236-1247 | qListToIterator appends nothing for an empty list and never more items than values |
| Marshall.KeyItems | tde-dbus-1-tqt/src/tqdbusmarshall.cpp:743-753 | with the corrected writers every dict entry starts with its key item (also lines 977-987) |
| Marshall.DecodeAll | tde-dbus-1-tqt/src/tqdbusmarshall.cpp:632-645 | messageToList decodes every item, one value per item, in order |
| Marshall.FetchMap | tde-dbus-1-tqt/src/tqdbusmarshall.cpp:429-437 | an array without entries gives the prototype back |
| Marshall.DecodeEntries | tde-dbus-1-tqt/src/tqdbusmarshall.cpp:312-427 | each dict entry is read by the entry reader of the map's key kind, one entry per item, in order |
| Marshall.PrototypeOfSignature | tde-dbus-1-tqt/src/tqdbusmarshall.cpp:557-560 | the prototype parsed from the signature an array was written with is the prototype of the written value: always for the corrected parser, for the parser as written when the type is ParseSafe |
| Marshall.AppendAllFits | tde-dbus-1-tqt/src/tqdbusmarshall.cpp:570-576 | appending values that fit a typed list grows it by exactly those values |
| Marshall.RoundTripAll | tde-dbus-1-tqt/src/tqdbusmarshall.cpp:632-645 | with the corrected writer and parser, each marshallable value of a list is written as one item, and each item reads back equal to its value (also lines 1236-1247) |
| Marshall.RoundTrip | tde-dbus-1-tqt/src/tqdbusmarshall.cpp:528-631 | with the corrected writer and parser, writing a marshallable value gives one item, which qFetchParameter reads back as a value equal to it (also lines 1066-1235) |
| Marshall.RoundTripScalar | tde-dbus-1-tqt/src/tqdbusmarshall.cpp:528-556 | with the corrected writer and parser, the round trip for basic values (also lines 1066-1126) |
| Marshall.RoundTripVariant | tde-dbus-1-tqt/src/tqdbusmarshall.cpp:581-592 | with the corrected writer and parser, the round trip for a variant keeps its signature and a value equal to its own (also lines 1190-1202) |
| Marshall.RoundTripStruct | tde-dbus-1-tqt/src/tqdbusmarshall.cpp:593-607 | with the corrected writer and parser, the round trip for a struct gives members equal to its own, in order (also lines 1203-1228) |
| Marshall.ReadAsList | tde-dbus-1-tqt/src/tqdbusmarshall.cpp:557-579 | a list is written as one array tagged with its element signature, and read back on its own prototype (also lines 1127-1149) |
| Marshall.AppendToPrototype | tde-dbus-1-tqt/src/tqdbusdatalist.cpp:454-490 | a list prototype with an element kind takes every value that fits it |
| Marshall.ListRebuilt | tde-dbus-1-tqt/src/tqdbusmarshall.cpp:567-579 | appending values equal to a list's items to its prototype rebuilds a list equal to it |
| Marshall.RoundTripList | tde-dbus-1-tqt/src/tqdbusmarshall.cpp:557-579 | with the corrected writer and parser, the round trip for a list gives a list equal to it (also lines 1127-1149) |
| Marshall.ReadAsMap | tde-dbus-1-tqt/src/tqdbusmarshall.cpp:557-566 | a map is written as one array of dict entries and read back by qFetchMap on its own prototype (also lines 1150-1189) |
| Marshall.DecodeKeyedEntries | tde-dbus-1-tqt/src/tqdbusmarshall.cpp:312-427 | an entry holding a key item and a value's item reads back as that key and the value's decoding |
| Marshall.MapPrototypeValue | tde-dbus-1-tqt/src/tqdbusmarshall.cpp:93-209 | the prototype read back for a map has the map's kinds, its value prototype and no entries |
| Marshall.InsertIntoPrototype | tde-dbus-1-tqt/src/tqdbusmarshall.cpp:440-446 | inserting, in key order, values that fit a map prototype stores exactly those entries |
| Marshall.InsertIntoEmpty | tde-dbus-1-tqt/src/tqdbusdatamap.h:895-931 | a map prototype without a value kind takes the first value's kind and the value itself as its prototype |
| Marshall.MapRebuilt | tde-dbus-1-tqt/src/tqdbusmarshall.cpp:439-524 | inserting a map's keys with values equal to its own into its prototype rebuilds a map equal to it |
| Marshall.RoundTripMap | tde-dbus-1-tqt/src/tqdbusmarshall.cpp:429-527 | with the corrected writer and parser, the round trip for a map gives a map equal to it (also lines 725-1065) |
| Marshall.MessageRoundTrip | tde-dbus-1-tqt/src/tqdbusmarshall.cpp:632-645 | with the corrected writer and parser, listToMessage followed by messageToList gives back as many values as were written, each equal to its source (also lines 1248-1253) |
| Marshall.EncodeAgrees | tde-dbus-1-tqt/src/tqdbusmarshall.cpp:1066-1235 | on an AsWrittenSafe value the writer as written appends the same items as the corrected one, since every non-empty map in it has String or ObjectPath keys |
| Marshall.DecodeAgrees | tde-dbus-1-tqt/src/tqdbusmarshall.cpp:528-631 | on the item written for a marshallable, AsWrittenSafe value the parser as written reads the same value as the corrected one |
| Marshall.FetchMapAgrees | tde-dbus-1-tqt/src/tqdbusmarshall.cpp:429-527 | qFetchMap gives the same map under both rules when each entry's key and value items read alike |
| Marshall.PrototypesAgree | tde-dbus-1-tqt/src/tqdbusmarshall.cpp:557-560 | both parsers read the signature of a ParseSafe type as the same prototype |
| Marshall.RoundTripAsWritten | tde-dbus-1-tqt/src/tqdbusmarshall.cpp:528-631 | with the writer and parser as written, a marshallable, AsWrittenSafe value is written as one item that reads back as a value equal to it (also lines 1066-1235) |
| Marshall.MessageRoundTripAsWritten | tde-dbus-1-tqt/src/tqdbusmarshall.cpp:632-645 | with the writer and parser as written, the arguments of a message that are marshallable and AsWrittenSafe read back as many and each equal to its source (also lines 1248-1253) |
| Marshall.InsertAllInvalid | tde-dbus-1-tqt/src/tqdbusdatamap.h:895-931 | inserting only Invalid values leaves a map unchanged |
| Marshall.FetchKeylessEntries | tde-dbus-1-tqt/src/tqdbusmarshall.cpp:429-527 | under either parser, dict entries holding at most one item read back as a map with no entries |
| Marshall.EncodeAsWrittenLosesEntries | tde-dbus-1-tqt/src/tqdbusmarshall.cpp:743-753 | as written, a non-empty map keyed by an integer kind or by descriptors is written with entries holding only the value; the parser as written reads it back without entries, so it differs from the map that was written |
| Marshall.EncodeAllAppend | tde-dbus-1-tqt/src/tqdbusmarshall.cpp:1236-1247 | writing two lists one after the other writes their items one after the other |
| Marshall.DataToIterator | tde-dbus-1-tqt/src/tqdbusmarshall.cpp:1066-1235 | appends exactly the items Encode describes after what the iterator already holds |
| Marshall.KeyMapToIterator | tde-dbus-1-tqt/src/tqdbusmarshall.cpp:725-1065 | the ten key-map writers append the single dict-entry array Encode describes |
| Marshall.ListToIterator | tde-dbus-1-tqt/src/tqdbusmarshall.cpp:1236-1253 | appends every value's items, in order, after what the iterator already holds |
| Marshall.FetchParameter | tde-dbus-1-tqt/src/tqdbusmarshall.cpp:528-631 | reads one item as the value Decode describes |
| Marshall.FetchListItems | tde-dbus-1-tqt/src/tqdbusmarshall.cpp:567-579 | the array loop appends every item's value to the prototype's list, in order |
| Marshall.FetchStructMembers | tde-dbus-1-tqt/src/tqdbusmarshall.cpp:593-607 | the struct loop reads every member, in order |
| Marshall.FetchMapEntries | tde-dbus-1-tqt/src/tqdbusmarshall.cpp:429-527 | qFetchMap returns the map FetchMap describes |
| Marshall.InsertEntries | tde-dbus-1-tqt/src/tqdbusmarshall.cpp:440-446 | the do-while loop inserts every entry, read by the key kind's entry reader, in turn |
| Marshall.FetchMapEntry | tde-dbus-1-tqt/src/tqdbusmarshall.cpp:312-427 | one entry reader gives the key and the value DecodeEntry describes |
| Marshall.MessageToList | tde-dbus-1-tqt/src/tqdbusmarshall.cpp:632-645 | appends the decoding of every argument, in order, after what the list already holds |
| Errors.NameForType | tde-dbus-1-tqt/src/tqdbuserror.cpp:34-92 | qDBusErrorNameForType gives a non-empty name exactly for the standard kinds |
| Errors.SuffixInjective | tde-dbus-1-tqt/src/tqdbuserror.cpp:38-85 | the standard kinds' name suffixes are pairwise distinct |
| Errors.NameForTypeInjective | tde-dbus-1-tqt/src/tqdbuserror.cpp:34-92 | no two standard kinds share an error name |
| Errors.Index | tde-dbus-1-tqt/src/tqdbuserror.cpp:96-100 | every standard kind occurs, once, in the range between InvalidError and UserDefined the table is filled from |
| Errors.TableOfSpec | tde-dbus-1-tqt/src/tqdbuserror.cpp:94-101 | after filling the table from a run of standard kinds, each kind's name maps to it, and every entry maps a standard kind's own name to that kind |
| Errors.NameTable | tde-dbus-1-tqt/src/tqdbuserror.cpp:94-101 | the full table maps every standard name to its kind and holds nothing else |
| Errors.SetupNameMapping | tde-dbus-1-tqt/src/tqdbuserror.cpp:94-101 | the loop over Failed…InvalidSignature builds the full name table |
| Errors.TypeForName | tde-dbus-1-tqt/src/tqdbuserror.cpp:103-114 | InvalidError exactly for the empty name, the standard kind for a standard name, UserDefined exactly for a non-empty name that is no standard kind's |
| Errors.TypeNameRoundTrip | tde-dbus-1-tqt/src/tqdbuserror.cpp:34-114 | classifying a standard kind's name gives the kind back |
| Errors.ErrorNames.constructor | tde-dbus-1-tqt/src/tqdbuserror.cpp:31-32 | the static name table starts empty |
| Errors.ErrorNames.TypeFor | tde-dbus-1-tqt/src/tqdbuserror.cpp:103-114 | returns the TypeForName classification; the table is filled on the first lookup of a non-empty name and left alone for the empty name |
| Errors.FromCError | tde-dbus-1-tqt/src/tqdbuserror.cpp:120-129 | a null or unset libdbus error gives the default error; a set one gives its name and message with the kind classified from the name |
| Errors.FromNameAndMessage | tde-dbus-1-tqt/src/tqdbuserror.cpp:131-135 | stores the name and the message and classifies the kind from the name |
| Errors.FromType | tde-dbus-1-tqt/src/tqdbuserror.cpp:142-146 | stores the kind and the message, and a standard kind's own name |
| Errors.Std | tde-dbus-1-tqt/src/tqdbuserror.cpp:148-216 | stdX builds kind X with X's standard name and the message, and is valid exactly when the message is not empty |
| Errors.FromTypeValid | tde-dbus-1-tqt/src/tqdbuserror.cpp:137-146 | an error built from a kind is valid exactly for a standard kind and a non-empty message |
| Errors.NameAndMessageAgreesWithType | tde-dbus-1-tqt/src/tqdbuserror.cpp:131-146 | building from a standard kind's name gives the same error as building from the kind |
| Errors.NamedErrorValid | tde-dbus-1-tqt/src/tqdbuserror.cpp:131-140 | an error built from a name and a message is valid exactly when both are non-empty |
| Messages.TypeOfCode | tde-dbus-1-tqt/src/tqdbusmessage.cpp:248-262 | type() maps the four libdbus kind codes to their kinds and every other code to InvalidMessage |
| Messages.CodeOf | tde-dbus-1-tqt/src/tqdbusmessage.cpp:50-102 | the code a factory stores is the invalid code exactly for InvalidMessage |
| Messages.CodeRoundTrip | tde-dbus-1-tqt/src/tqdbusmessage.cpp:248-262 | type() reads back the kind whose code a factory stored |
| Messages.Message.constructor | tde-dbus-1-tqt/src/tqdbusmessage.cpp:104-107 | a default message is an InvalidMessage with empty fields, the default error, timeout -1, no libdbus message and no arguments |
| Messages.Message.SerialNumber | tde-dbus-1-tqt/src/tqdbusmessage.cpp:226-231 | 0 without a libdbus message, that message's serial otherwise |
| Messages.Message.ReplySerialNumber | tde-dbus-1-tqt/src/tqdbusmessage.cpp:241-246 | 0 without a libdbus message, the serial it replies to otherwise |
| Messages.Message.SetTimeout | tde-dbus-1-tqt/src/tqdbusmessage.cpp:212-220 | timeout() then returns ms and nothing else changes |
| Messages.Message.Append | tde-dbus-1-tqt/src/tqdbusmessage.h:115 | `message << data` adds one argument at the end and changes nothing else |
| Messages.Signal | tde-dbus-1-tqt/src/tqdbusmessage.cpp:50-60 | a fresh SignalMessage with exactly the given path, interface and member, no service, no arguments and the default error |
| Messages.MethodCall | tde-dbus-1-tqt/src/tqdbusmessage.cpp:62-73 | a fresh MethodCallMessage carrying the service, path, interface and method name, with the default error |
| Messages.MethodReply | tde-dbus-1-tqt/src/tqdbusmessage.cpp:75-84 | for a message read from libdbus, a fresh ReplyMessage answering it, with no arguments and the default error |
| Messages.MethodError | tde-dbus-1-tqt/src/tqdbusmessage.cpp:86-102 | an ErrorMessage carrying the error and answering the original when the error is valid, the default InvalidMessage otherwise |
| Converters.Int32Members | tde-dbus-1-tqt/src/tqdbusdataconverter.cpp:35-38 | a value is accepted exactly when it is a struct with the expected member count, and then the result holds the members' Int32 values |
| Converters.ReadInt32Members | tde-dbus-1-tqt/src/tqdbusdataconverter.cpp:40-49 | the member loop succeeds exactly when every member is Int32, and then fills the array with the members' values |
| Converters.RectToData | tde-dbus-1-tqt/src/tqdbusdataconverter.cpp:56-69 | convertTo always gives the struct of the four Int32 values x, y, width, height |
| Converters.ConvertFromRect | tde-dbus-1-tqt/src/tqdbusdataconverter.cpp:32-54 | Success exactly for a struct of four Int32 values, giving the rectangle they describe; otherwise InvalidSignature with the rectangle untouched |
| Converters.RectRoundTrip | tde-dbus-1-tqt/src/tqdbusdataconverter.cpp:32-69 | a rectangle converted to a value converts back to itself, and a value that converts to a rectangle is the one that rectangle gives |
| Converters.PointToData | tde-dbus-1-tqt/src/tqdbusdataconverter.cpp:95-106 | convertTo gives the struct of the Int32 values x, y |
| Converters.ConvertFromPoint | tde-dbus-1-tqt/src/tqdbusdataconverter.cpp:71-93 | Success exactly for a struct of two Int32 values, giving that point; otherwise InvalidSignature with the point untouched |
| Converters.PointRoundTrip | tde-dbus-1-tqt/src/tqdbusdataconverter.cpp:71-106 | a point survives conversion to a value and back, and a value that converts is the one the point gives |
| Converters.SizeToData | tde-dbus-1-tqt/src/tqdbusdataconverter.cpp:132-143 | convertTo gives the struct of the Int32 values width, height |
| Converters.ConvertFromSize | tde-dbus-1-tqt/src/tqdbusdataconverter.cpp:108-130 | Success exactly for a struct of two Int32 values, giving that size; otherwise InvalidSignature with the size untouched |
| Converters.SizeRoundTrip | tde-dbus-1-tqt/src/tqdbusdataconverter.cpp:108-143 | a size survives conversion to a value and back, and a value that converts is the one the size gives |
| Proxies.Proxy.constructor | tde-dbus-1-tqt/src/tqdbusproxy.cpp:57-63 | a proxy on a connection starts unbound, with the flag off, no error and nothing emitted |
| Proxies.Proxy.Bound | tde-dbus-1-tqt/src/tqdbusproxy.cpp:65-77 | the bound constructor stores service, path and interface and sets the flag by checkCanSend |
| Proxies.Proxy.SetService | tde-dbus-1-tqt/src/tqdbusproxy.cpp:98-102 | stores the service, recomputes the flag and changes nothing else |
| Proxies.Proxy.SetPath | tde-dbus-1-tqt/src/tqdbusproxy.cpp:109-113 | stores the path, recomputes the flag and changes nothing else |
| Proxies.Proxy.SetInterface | tde-dbus-1-tqt/src/tqdbusproxy.cpp:120-124 | stores the interface, recomputes the flag and changes nothing else |
| Proxies.Proxy.SetConnection | tde-dbus-1-tqt/src/tqdbusproxy.cpp:84-91 | the proxy now uses a connection in the given state; the binding is kept |
| Proxies.Proxy.CanSend | tde-dbus-1-tqt/src/tqdbusproxy.cpp:131-134 | holds exactly when service, path and interface are all set and the connection is up |
| Proxies.Proxy.CallFor | tde-dbus-1-tqt/src/tqdbusproxy.cpp:136-145 | no call when the proxy cannot send or the method is empty; otherwise a call to the bound service, path and interface |
| Proxies.Proxy.Send | tde-dbus-1-tqt/src/tqdbusproxy.cpp:136-146 | false when refused; otherwise the call is made and the connection's answer returned |
| Proxies.Proxy.SendWithReply | tde-dbus-1-tqt/src/tqdbusproxy.cpp:148-165 | a new InvalidMessage, lastError untouched, when refused; otherwise the connection's answer is returned, and lastError changes only when the connection wrote a bus error through the pointer, becoming that error while the reply is an InvalidMessage |
| Proxies.Proxy.SendWithAsyncReply | tde-dbus-1-tqt/src/tqdbusproxy.cpp:167-178 | 0 when refused; otherwise the call is made and the serial the connection hands out returned |
| Proxies.Proxy.HandleDBusSignal | tde-dbus-1-tqt/src/tqdbusproxy.cpp:185-200 | the signal is emitted exactly when the bound path, a unique bound service and the bound interface all match; nothing else changes |
| Proxies.Proxy.HandleAsyncReply | tde-dbus-1-tqt/src/tqdbusproxy.cpp:202-207 | the reply's error becomes lastError and the reply is emitted with its reply serial |
| Proxies.WellKnownNameIgnoresSender | tde-dbus-1-tqt/src/tqdbusproxy.cpp:187-199 | a proxy bound to a well-known name filters signals by path and interface only |
| Proxies.UniqueNameFiltersSender | tde-dbus-1-tqt/src/tqdbusproxy.cpp:193-194 | a proxy bound to a unique name accepts only signals whose sender is that name |
| Proxies.CallNeedsBinding | tde-dbus-1-tqt/src/tqdbusproxy.cpp:131-146 | a call is made exactly when service, path, interface and method are all non-empty and the connection is up |
| Connections.DBusNameFlags | tde-dbus-1-tqt/src/tqdbusconnection.cpp:397-401 | the bus gets the replacement flag exactly when AllowReplace is requested and the replace-existing flag exactly when ReplaceExisting is, and no other flag |
| Connections.NameFlagsKeepLowBits | tde-dbus-1-tqt/src/tqdbusconnection.cpp:397-401 | the flags handed to the bus are the two low bits of the requested mode |
| Connections.ConnectionManager.constructor | tde-dbus-1-tqt/src/tqdbusconnection.cpp:39-55 | the manager starts with no default connection and no named ones |
| Connections.ConnectionManager.Lookup | tde-dbus-1-tqt/src/tqdbusconnection.cpp:66-74 | the default name resolves to the default slot, every other name through the hash, to nothing when unknown |
| Connections.ConnectionManager.SetConnection | tde-dbus-1-tqt/src/tqdbusconnection.cpp:135-141 | afterwards the name resolves to the given private and every other name as before |
| Connections.ConnectionManager.RemoveConnection | tde-dbus-1-tqt/src/tqdbusconnection.cpp:76-92 | afterwards the name resolves to nothing and every other name as before; its private loses one reference and is deleted when none is left |
| Connections.Connection.constructor | tde-dbus-1-tqt/src/tqdbusconnection.cpp:144-146 | a default handle refers to no private |
| Connections.Connection.Named | tde-dbus-1-tqt/src/tqdbusconnection.cpp:148-153 | a handle by name refers to the manager's private for it, which gains one reference |
| Connections.Connection.Copy | tde-dbus-1-tqt/src/tqdbusconnection.cpp:155-160 | a copy refers to the same private, which gains one reference |
| Connections.Connection.Release | tde-dbus-1-tqt/src/tqdbusconnection.cpp:162-166 | the destructor drops one reference and deletes the private when none is left |
| Connections.Connection.Assign | tde-dbus-1-tqt/src/tqdbusconnection.cpp:168-181 | the new private gains its reference before the old one loses one, so self-assignment changes no count and deletes nothing |
| Connections.Connection.Send | tde-dbus-1-tqt/src/tqdbusconnection.cpp:252-264 | true exactly when there is a connection, the message converts and libdbus sends it |
| Connections.Connection.SendWithAsyncReply | tde-dbus-1-tqt/src/tqdbusconnection.cpp:266-273 | 0 and no pending call without a connection; otherwise the private's sendWithReplyAsync, which registers exactly one pending call on success |
| Connections.Connection.SendWithReply | tde-dbus-1-tqt/src/tqdbusconnection.cpp:275-301 | a new InvalidMessage and no change without a connection or when the message does not convert; otherwise handleError turns the bus error into lastError and clears it, the error is reported exactly when valid, and the result is a new InvalidMessage when libdbus set an error and its reply otherwise |
| Connections.Connection.RegisterObject | tde-dbus-1-tqt/src/tqdbusconnection.cpp:344-356 | refused without a connection, for a null object, an empty path or a path already registered; otherwise exactly that path is added for that object |
| Connections.Connection.UnregisterObject | tde-dbus-1-tqt/src/tqdbusconnection.cpp:358-368 | exactly the path leaves the table; nothing changes without a connection or for an empty path |
| Connections.Connection.RequestName | tde-dbus-1-tqt/src/tqdbusconnection.cpp:387-407 | false and no request without a connection or for negative flags; otherwise the mapped flags go to the bus, the result is that the bus reported no valid error, and lastError is that error unless a read watcher exists, in which case it is the default error |
| Connections.RequestNameHidesBusError | tde-dbus-1-tqt/src/tqdbusconnection.cpp:403-406 | as written, with a read watcher a refused name leaves lastError() holding no valid error, not the bus error |
| Connections.RequestNameReportsBusError | tde-dbus-1-tqt/src/tqdbusconnection.cpp:403-406 | as intended, lastError() after requestName is the bus error, valid exactly when requestName reports failure |
| Connections.AddConnection | tde-dbus-1-tqt/src/tqdbusconnection.cpp:193-239 | a handle to the known private when the name is taken; otherwise a new private, registered under the name and referenced by the manager and the handle, whose lastError is the error setConnection recorded (the connect error, or the add_match error once connected) and which is in ClientMode exactly when it holds a connection |
| Integrator.Atomic.constructor | tde-dbus-1-tqt/src/tqdbusintegrator.cpp:34-36 | the counter starts at the given value |
| Integrator.Atomic.Ref | tde-dbus-1-tqt/src/tqdbusintegrator.cpp:38-41 | ref() adds one |
| Integrator.Atomic.Deref | tde-dbus-1-tqt/src/tqdbusintegrator.cpp:43-47 | deref() takes one away and answers whether the count is still above zero |
| Integrator.SurvivorsSpec | tde-dbus-1-tqt/src/tqdbusintegrator.cpp:427-446 | after objectDestroyed no remaining call waits for that object or for a vanished receiver, every other call stays untouched, and a second destruction of the same object changes nothing |
| Integrator.Without | tde-dbus-1-tqt/src/tqdbusintegrator.cpp:83-91 | removing a timeout from pendingTimeouts never lengthens the list |
| Integrator.WithoutSpec | tde-dbus-1-tqt/src/tqdbusintegrator.cpp:83-91 | afterwards the timeout does not occur at all, every other timeout occurs as often as before, and a list without it is unchanged |
| Integrator.Live | tde-dbus-1-tqt/src/tqdbusintegrator.cpp:463-473 | purging a watcher list never lengthens it |
| Integrator.LiveSpec | tde-dbus-1-tqt/src/tqdbusintegrator.cpp:463-473 | a purged list holds exactly the watchers with a notifier, and a list of live watchers is unchanged |
| Integrator.PurgedSpec | tde-dbus-1-tqt/src/tqdbusintegrator.cpp:459-483 | after purging, every descriptor left has at least one watcher, and its watchers are exactly its live ones |
| Integrator.PurgeAsWrittenHangs | tde-dbus-1-tqt/src/tqdbusintegrator.cpp:466-473 | as written, however many times the inner loop runs, a list holding a live watcher keeps one and never empties: the loop does not end |
| Integrator.PurgeAsWrittenStalls | tde-dbus-1-tqt/src/tqdbusintegrator.cpp:466-473 | as written, a live watcher at the front makes the loop body change nothing |
| Integrator.Find | tde-dbus-1-tqt/src/tqdbusintegrator.cpp:623 | find gives end() exactly for a call the table does not know, and otherwise that call |
| Integrator.ResultForUnknownCallErasesEnd | tde-dbus-1-tqt/src/tqdbusintegrator.cpp:623-646 | as written, for an unknown call the closing lines dereference and erase end(); for a known one they drop exactly that call |
| Integrator.ConnectionPrivate.constructor | tde-dbus-1-tqt/src/tqdbusintegrator.cpp:274-290 | a new private holds one reference, is in InvalidMode without a connection, and has nothing registered, pending or queued |
| Integrator.ConnectionPrivate.SetConnection | tde-dbus-1-tqt/src/tqdbusintegrator.cpp:576-617 | without a libdbus connection only the error is recorded; with one the private enters ClientMode, and falls back to InvalidMode without a connection when adding the match rules fails |
| Integrator.ConnectionPrivate.CloseConnection | tde-dbus-1-tqt/src/tqdbusintegrator.cpp:310-332 | the mode becomes InvalidMode, and a client connection is dropped |
| Integrator.ConnectionPrivate.Dispatch | tde-dbus-1-tqt/src/tqdbusintegrator.cpp:491-510 | nothing happens while a dispatch runs; otherwise one dispatch in ClientMode only, stopping the timer unless data remains, and the guard is clear afterwards |
| Integrator.ConnectionPrivate.HandleSignal | tde-dbus-1-tqt/src/tqdbusintegrator.cpp:534-549 | the message joins the end of pendingMessages, the emission timer is armed, and the signal counts as handled |
| Integrator.ConnectionPrivate.TransmitMessageEmissionQueue | tde-dbus-1-tqt/src/tqdbusintegrator.cpp:512-521 | every pending message is emitted once, front to back, and the queue is left empty |
| Integrator.ConnectionPrivate.TransmitResultEmissionQueue | tde-dbus-1-tqt/src/tqdbusintegrator.cpp:693-708 | every queued result is delivered once, front to back, and the queue is left empty |
| Integrator.ConnectionPrivate.HandleObjectCall | tde-dbus-1-tqt/src/tqdbusintegrator.cpp:523-532 | a call is handled exactly when an object is registered at its path and answers it |
| Integrator.ConnectionPrivate.SendWithReplyAsync | tde-dbus-1-tqt/src/tqdbusintegrator.cpp:649-679 | 0 and no change for a null receiver or slot, a failed hook, a message that does not convert or is not sent; otherwise exactly one pending call under its handle, and the serial returned |
| Integrator.ConnectionPrivate.ResultReceived | tde-dbus-1-tqt/src/tqdbusintegrator.cpp:619-647 | the reply's error becomes lastError; a known call has its reply queued for its receiver, the result timer armed and its entry erased; an unknown call changes nothing else |
| Integrator.ConnectionPrivate.ObjectDestroyed | tde-dbus-1-tqt/src/tqdbusintegrator.cpp:427-446 | the pending calls become the survivors, and the cancelled ones are exactly those dropped |
| Integrator.ConnectionPrivate.AddTimeout | tde-dbus-1-tqt/src/tqdbusintegrator.cpp:51-73 | a disabled timeout registers nothing; without an application it waits in pendingTimeouts; otherwise a started timer drives it, and the call fails when no timer starts |
| Integrator.ConnectionPrivate.RemoveTimeout | tde-dbus-1-tqt/src/tqdbusintegrator.cpp:75-103 | every occurrence leaves pendingTimeouts, and every timer driving it is killed and leaves the timer table |
| Integrator.ConnectionPrivate.PurgeRemovedWatches | tde-dbus-1-tqt/src/tqdbusintegrator.cpp:448-484 | nothing happens without removed watches; otherwise they are forgotten and the watcher table becomes the purged one |
| Integrator.ConnectionPrivate.HandleError | tde-dbus-1-tqt/src/tqdbusintegrator.cpp:334-340 | lastError becomes the pending libdbus error, the pending error is cleared, and the result says whether it was a valid error |
| Integrator.ConnectionPrivate.SocketRead | tde-dbus-1-tqt/src/tqdbusintegrator.cpp:395-410 | in ClientMode a dispatch is scheduled; nothing else the model tracks changes |
| Integrator.ConnectionPrivate.HandleUnreadMessages | tde-dbus-1-tqt/src/tqdbusintegrator.cpp:342-362 | nothing changes and the result is true without a read watcher; otherwise the pending error is cleared, the result is false exactly when it was a valid error, and lastError is that error after one read watcher and the default error after two or more |
| Integrator.ConnectionPrivate.ReadList | tde-dbus-1-tqt/src/tqdbusintegrator.cpp:349-358 | the watcher loop of one descriptor adds one socketRead and handleError round exactly for each watcher with a read notifier |
| Integrator.DropDoomed | tde-dbus-1-tqt/src/tqdbusintegrator.cpp:430-445 | the loop leaves the survivors, and reports as cancelled exactly the calls it dropped |
| Integrator.EraseTimeout | tde-dbus-1-tqt/src/tqdbusintegrator.cpp:83-91 | the loop leaves the list without the timeout |
| Integrator.KillTimers | tde-dbus-1-tqt/src/tqdbusintegrator.cpp:93-102 | the loop leaves the table without the timeout's timers, and kills exactly those |
| Integrator.PurgeWatchers | tde-dbus-1-tqt/src/tqdbusintegrator.cpp:459-483 | the descriptor loop leaves the purged table |
| Integrator.LiveWatchers | tde-dbus-1-tqt/src/tqdbusintegrator.cpp:466-473 | the corrected inner loop leaves exactly the live watchers, in order |
| MethodGen.BasicType | tde-dbus-1-tqt/src/tools/dbusxml2qt3/methodgen.cpp:34-127 | the one-character signatures understood are exactly the runtime's basic codes other than `g` |
| MethodGen.BasicAccessorIsRuntimeAccessor | tde-dbus-1-tqt/src/tools/dbusxml2qt3/methodgen.cpp:34-127 | a basic argument is read with the accessor of exactly the kind the runtime decodes its code to, and is primitive exactly for b y n q i u x t d |
| MethodGen.AddInclude | tde-dbus-1-tqt/src/tools/dbusxml2qt3/methodgen.cpp:140-141 | appending a header adds it at the end of its group (creating the group) and leaves the other groups alone |
| MethodGen.MergeIncludes | tde-dbus-1-tqt/src/tools/dbusxml2qt3/methodgen.cpp:190-241 | after merging, every group of either side holds the first side's headers followed by the second's |
| MethodGen.MergeIncludesLoop | tde-dbus-1-tqt/src/tools/dbusxml2qt3/methodgen.cpp:190-241 | the loop over the groups produces the merged includes |
| MethodGen.FindLast | tde-dbus-1-tqt/src/tools/dbusxml2qt3/methodgen.cpp:147 | findRev gives the position of the last occurrence, or -1 when there is none |
| MethodGen.TypedListOf | tde-dbus-1-tqt/src/tools/dbusxml2qt3/methodgen.cpp:226-241 | the list argument declares and includes everything its element does |
| MethodGen.ParseBasic | tde-dbus-1-tqt/src/tools/dbusxml2qt3/methodgen.cpp:34-127 | a single code is understood exactly when it is in the table, then with its C++ type and accessor; otherwise the argument is unchanged |
| MethodGen.ParseDBusSignature | tde-dbus-1-tqt/src/tools/dbusxml2qt3/methodgen.cpp:30-259 | the argument always records the signature; a failure changes nothing else and a success always sets an accessor; a longer signature not starting with `a` fails; an array other than a map never fails |
| MethodGen.ParseMap | tde-dbus-1-tqt/src/tools/dbusxml2qt3/methodgen.cpp:143-212 | a{…} is understood exactly when at least two characters stand between the braces and the first is a known code; the accessor is the key's followed by "KeyMap" |
| MethodGen.ParseArray | tde-dbus-1-tqt/src/tools/dbusxml2qt3/methodgen.cpp:214-253 | any other array succeeds with accessor List: a TQValueList of an understood non-array element, a TQT_DBusDataList otherwise |
| MethodGen.PrimitiveCodes | tde-dbus-1-tqt/src/tools/dbusxml2qt3/methodgen.cpp:34-89 | each of b y n q i u x t d is understood, primitive, and read with the runtime's accessor for that code |
| MethodGen.StringListSignature | tde-dbus-1-tqt/src/tools/dbusxml2qt3/methodgen.cpp:131-142 | `as` is a TQStringList with accessor List and sub-accessor TQStringList |
| MethodGen.MapSignature | tde-dbus-1-tqt/src/tools/dbusxml2qt3/methodgen.cpp:143-212 | a whole signature starting with a{ is understood exactly under the map rule, with the key accessor followed by "KeyMap" |
| MethodGen.ArrayBranch | tde-dbus-1-tqt/src/tools/dbusxml2qt3/methodgen.cpp:129-214 | an array that is neither `as` nor a map goes to the array branch |
| MethodGen.ListSignature | tde-dbus-1-tqt/src/tools/dbusxml2qt3/methodgen.cpp:218-229 | `a` with an understood non-array element is a TQValueList of the element type, accessor List and sub-accessor the element's followed by "List" |
| MethodGen.ListIncludesElementNeeds | tde-dbus-1-tqt/src/tools/dbusxml2qt3/methodgen.cpp:231-241 | such a list declares and includes everything its element needs |
| MethodGen.OtherArraySignature | tde-dbus-1-tqt/src/tools/dbusxml2qt3/methodgen.cpp:243-251 | any other array, arrays of arrays included, still succeeds as a TQT_DBusDataList with accessor List |
| ClassGen.WithAll | tde-dbus-1-tqt/src/tools/dbusxml2qt3/classgen.cpp:45-54 | after inserting a list the keys are the old keys and the list's strings, every listed string mapped to true and every other key as before |
| ClassGen.WithAllIdempotent | tde-dbus-1-tqt/src/tools/dbusxml2qt3/classgen.cpp:45-54 | inserting a list twice is inserting it once, and only which strings it holds matters, not their order or repetition |
| ClassGen.Set.constructor | tde-dbus-1-tqt/src/tools/dbusxml2qt3/classgen.cpp:32 | a new Set is empty |
| ClassGen.Set.InsertString | tde-dbus-1-tqt/src/tools/dbusxml2qt3/classgen.cpp:35-38 | the key is present, mapped to true, and nothing else changes |
| ClassGen.Set.RemoveString | tde-dbus-1-tqt/src/tools/dbusxml2qt3/classgen.cpp:40-43 | the key is absent and nothing else changes |
| ClassGen.Set.InsertStringList | tde-dbus-1-tqt/src/tools/dbusxml2qt3/classgen.cpp:45-54 | the loop leaves the set with every string of the list inserted |
| ClassGen.IdArgument | tde-dbus-1-tqt/src/tools/dbusxml2qt3/classgen.cpp:821-886 | the id argument is asyncCallId, of type int, primitive, in the given direction |
| ClassGen.Ins | tde-dbus-1-tqt/src/tools/dbusxml2qt3/classgen.cpp:860-915 | the arguments sent to the call are among the original ones and none is Out |
| ClassGen.Outs | tde-dbus-1-tqt/src/tools/dbusxml2qt3/classgen.cpp:851-912 | the arguments sent to the reply are among the original ones and all are Out |
| ClassGen.AsIn | tde-dbus-1-tqt/src/tools/dbusxml2qt3/classgen.cpp:855-909 | the reply's arguments are the Out ones, each unchanged except for its direction, now In |
| ClassGen.InsOutsPartition | tde-dbus-1-tqt/src/tools/dbusxml2qt3/classgen.cpp:847-916 | every original argument lands in exactly one of the two lists |
| ClassGen.SplitArguments | tde-dbus-1-tqt/src/tools/dbusxml2qt3/classgen.cpp:843-916 | the argument loop gives the call the id followed by the In arguments, and the reply the In id followed by the Out arguments retyped to In |
| ClassGen.AsyncOnly | tde-dbus-1-tqt/src/tools/dbusxml2qt3/classgen.cpp:835-889 | only asynchronous methods of the class are split |
| ClassGen.AsyncCalls | tde-dbus-1-tqt/src/tools/dbusxml2qt3/classgen.cpp:864-920 | one call per asynchronous method |
| ClassGen.AsyncReplies | tde-dbus-1-tqt/src/tools/dbusxml2qt3/classgen.cpp:868-926 | one reply per asynchronous method |
| ClassGen.AsyncPairs | tde-dbus-1-tqt/src/tools/dbusxml2qt3/classgen.cpp:821-931 | each asynchronous method gives a call and a reply at the same position with its name and kind, each starting with its id, and between them they carry every original argument once |
| ClassGen.NoAsyncNothingSplit | tde-dbus-1-tqt/src/tools/dbusxml2qt3/classgen.cpp:835-889 | a class without asynchronous methods gives no calls and no replies |
| ClassGen.ProxyAndInterfaceCallsAgree | tde-dbus-1-tqt/src/tools/dbusxml2qt3/classgen.cpp:821-931 | the proxy and the interface make the same call from a method except that the id is Out for the proxy and In for the interface |
| ClassGen.ClassData.constructor | tde-dbus-1-tqt/src/tools/dbusxml2qt3/methodgen.h:81-101 | a class description holds its methods and nothing derived yet |
| ClassGen.SplitAll | tde-dbus-1-tqt/src/tools/dbusxml2qt3/classgen.cpp:831-931 | the method loop gives, in order, the call and the reply of every asynchronous method |
| ClassGen.SplitAsyncProxyMethods | tde-dbus-1-tqt/src/tools/dbusxml2qt3/classgen.cpp:819-874 | appends the calls, with an Out id, to asyncMethods and the replies to asyncReplySignals |
| ClassGen.SplitAsyncInterfaceMethods | tde-dbus-1-tqt/src/tools/dbusxml2qt3/classgen.cpp:876-932 | appends the calls, with an In id, to asyncMethods and the replies to asyncReplyMethods |
| ClassGen.FindFirst | tde-dbus-1-tqt/src/tools/dbusxml2qt3/classgen.cpp:991 | the position of the first occurrence, or -1 when there is none |
| ClassGen.SplitDots | tde-dbus-1-tqt/src/tools/dbusxml2qt3/classgen.cpp:991 | splitting at dots gives non-empty pieces without dots |
| ClassGen.SplitJoin | tde-dbus-1-tqt/src/tools/dbusxml2qt3/classgen.cpp:991 | splitting the dot-joined non-empty, dot-free parts gives them back |
| ClassGen.ClassName | tde-dbus-1-tqt/src/tools/dbusxml2qt3/classgen.cpp:991-997 | no class for a name with fewer than two parts; otherwise the namespaces followed by the class name are the parts |
| ClassGen.ClassNameRoundTrip | tde-dbus-1-tqt/src/tools/dbusxml2qt3/classgen.cpp:991-997 | an interface name built from namespaces and a class name gives back exactly those |
| ClassGen.NoDotNoClass | tde-dbus-1-tqt/src/tools/dbusxml2qt3/classgen.cpp:993 | a name without a dot is refused |
| ClassGen.ExtractClass | tde-dbus-1-tqt/src/tools/dbusxml2qt3/classgen.cpp:982-1000 | the D-Bus name is always recorded; the class name and namespaces are set exactly when the name has at least two parts |
| Options.OptionFor | tde-dbus-1-tqt/src/tools/dbusxml2qt3/main.cpp:541-665 | the recognised options store under known keys, and only -c/--class demands a value |
| Options.TestAndSetOption | tde-dbus-1-tqt/src/tools/dbusxml2qt3/main.cpp:507-517 | inserts and answers true exactly when the option is absent; otherwise answers false and leaves the map unchanged |
| Options.SecondSetRefused | tde-dbus-1-tqt/src/tools/dbusxml2qt3/main.cpp:507-517 | setting an option twice keeps the first value and refuses the second |
| Options.ParseOptions | tde-dbus-1-tqt/src/tools/dbusxml2qt3/main.cpp:519-688 | pops the arguments off the front and ends as Parse describes from an empty map |
| Options.ParseOutcome | tde-dbus-1-tqt/src/tools/dbusxml2qt3/main.cpp:519-688 | parsing ends with exit status 0 or 1, or with a map that keeps every option already set, with its value, and adds only known keys |
| Options.HelpExitsZero | tde-dbus-1-tqt/src/tools/dbusxml2qt3/main.cpp:536-540 | any dash argument ending in "help" ends parsing with status 0 |
| Options.SecondFileNameExits | tde-dbus-1-tqt/src/tools/dbusxml2qt3/main.cpp:675-685 | a second file name ends parsing with status 1 |
| Options.ClassNeedsValue | tde-dbus-1-tqt/src/tools/dbusxml2qt3/main.cpp:637-647 | -c or --class with no next argument, or with a dash-prefixed one, ends parsing with status 1 |
| Options.OptionalValue | tde-dbus-1-tqt/src/tools/dbusxml2qt3/main.cpp:541-636 | for each of -p, -i, -n and -N (long forms too) the next argument is the value exactly when it does not start with a dash; otherwise the value is empty |
| Options.RepeatedOptionSkipped | tde-dbus-1-tqt/src/tools/dbusxml2qt3/main.cpp:541-665 | any table option given again is skipped with its value, and parsing goes on with the first value |
| Options.OptionIsNotHelp | tde-dbus-1-tqt/src/tools/dbusxml2qt3/main.cpp:534-541 | every option of the table starts with a dash and does not end in "help", so it never reaches the help exit |
| Options.Generate | tde-dbus-1-tqt/src/tools/dbusxml2qt3/main.cpp:137-142 | everything is generated when none of proxy, interface or node was requested; otherwise exactly what was requested |
| Options.GenerateSomething | tde-dbus-1-tqt/src/tools/dbusxml2qt3/main.cpp:137-142 | main always generates something |

## Left out

- libdbus itself is not modelled. The message iterator is an abstract wire tree, and every answer from the bus is a parameter.
- Marshall.FetchMap: under the as-written rule it takes the prototype's map with the corrected accessor Data.ToKeyMap, not with the guard Data.ToKeyMapAsWritten that qFetchMap goes through (tqdbusdata.cpp:755). The two differ only when the first entry's key item has a different kind from the map signature's key. The source then reads the prototype's map as a map of the other key kind, which is undefined behaviour. libdbus never delivers such an entry; the key-less entries the as-written writers produce hit this case. FetchKeylessEntries and EncodeAsWrittenLosesEntries read a map with no entries, and they hold with either accessor. The same applies to Marshall.FetchMapEntries.
- Byte-level wire encoding, alignment and endianness are left out. They are done by libdbus and not by this binding.
- Connections.ConnectionManager.RemoveConnection: removing the default name while no default connection is set dereferences a null private at tqdbusconnection.cpp:90. This happens when closeConnection is called for the default name before it was opened, or twice. The model does nothing in that case instead of modelling the crash.
- Integrator.ConnectionPrivate.SocketRead: the dbus_watch_handle calls for the enabled read notifiers belong to libdbus and are left out. Only the scheduled dispatch is modelled.
- The TQt event loop, socket notifiers, timers and signal emission are left out. Where the source emits a signal or registers a notifier, the model records it in a log or a boolean field.
- Double payloads are opaque values. Floating-point arithmetic is not modelled, and the signature parser gives Double no prototype, as the source does.
- UTF-8 conversion between TQString and char* is left out. Strings are sequences of characters.
- The implicit sharing of TQDBusData and its containers is left out. Values are immutable datatypes, so copy-on-write is not observable.
- tqdbusunixfd.cpp is not part of this model. A Unix file descriptor is a number, with -1 meaning invalid.
- tqdbusserver.cpp and the bus-activation code are not part of this model.
- tqdbusconnection.h is not part of this model. The request-name modes are taken as NoReplace = 0, AllowReplace = 1 and ReplaceExisting = 2.
- The message conversions toDBusMessage and fromDBusMessage are modelled only through `Marshall`. The libdbus message object and its header fields are not modelled, and neither are the reference counts in the message copy constructor and assignment.
- The message `<<` operator is inherited from TQValueList and is modelled as appending to the argument list.
- Marshall.RoundTrip: proved with the corrected writer and parser only. The code as written round-trips the values that are AsWrittenSafe (`Marshall.RoundTripAsWritten`). As written, a non-empty integer-keyed map loses its entries. An array of containers followed by a sibling inside an array's element signature gives the wrong prototype. Both are listed under Findings.
- Marshall.RoundTripAll: proved with the corrected writer and parser only; see Marshall.RoundTrip.
- Marshall.RoundTripScalar: proved with the corrected writer and parser only; see Marshall.RoundTrip.
- Marshall.RoundTripVariant: proved with the corrected writer and parser only; see Marshall.RoundTrip.
- Marshall.RoundTripStruct: proved with the corrected writer and parser only; see Marshall.RoundTrip.
- Marshall.RoundTripList: proved with the corrected writer and parser only; see Marshall.RoundTrip.
- Marshall.RoundTripMap: proved with the corrected writer and parser only; see Marshall.RoundTrip.
- Marshall.MessageRoundTrip: proved with the corrected writer and parser only. With the code as written it holds for AsWrittenSafe arguments (`Marshall.MessageRoundTripAsWritten`).
- Proxies.Proxy.SendWithReply: the connection's answer is a parameter. It is required to be an InvalidMessage whenever an error was written, as Connections.Connection.SendWithReply guarantees.
- The decoder has no case for maps keyed by Unix file descriptors. Such a map decodes to its empty prototype, so the round-trip theorem leaves it out.
- toUnixFdMap declares the wrong return type, and DataMap's `operator=(TQMap)` calls `->buildSignature()` on a value. Neither template compiles once instantiated, so the model gives both the evidently intended behaviour.
- Object-path validation checks only three things: the path is not empty, it starts with "/", and a path longer than one character does not end in "/". It checks no characters. The model keeps this behaviour, and `ObjectPaths.EmptySegmentAccepted` shows a path with an empty segment that passes validation. The Valid Object Paths rules of the D-Bus Specification are not enforced.
- The generator's text output (writing headers and sources, indentation, include lists such as headerIncludes) and its file I/O are left out. Only the transforms on the introspection data are modelled.
- extractMethods and the XML parsing of introspection data are left out. `ClassGen.ExtractClass` models only the splitting of the interface name into namespaces and class name.
- Generator annotations are left out.
- A default-constructed generator Argument gets direction In and isPrimitive false.
- main's reading of the introspection file, its usage and error messages, and its exits are left out. These are status 1 when no file name was given, and status 2, 3 and 4. parseOptions is modelled up to its exit status.

## Findings

| source | as written | input that shows it | evidently intended | confidence | as-written member | corrected member |
|---|---|---|---|---|---|---|
| tde-dbus-1-tqt/src/tqdbusdata.cpp:234 | UInt32 equality compares the other side's whole 64-bit union word with the 32-bit value | two UInt32 data holding the same number, where the other's upper word half is not zero | compare the 32-bit fields | not executed | Data.UInt32EqualAsWrittenFails | Data.EqualReflexive |
| tde-dbus-1-tqt/src/tqdbusdata.cpp:755 | the key-map accessors test `type != Map && keyType != K`, so they accept a map with another key kind | an Int32-keyed map read with toStringKeyMap | refuse unless it is a map with key kind K (the two tests joined by "or") | not executed | Data.ToKeyMapGuardAcceptsOtherKey | Data.ToKeyMap |
| tde-dbus-1-tqt/src/tqdbusdatamap.h:493-503 | the map-of-maps constructors set the value type to Map but never set a prototype, so every insert is refused | a TQMap holding one key and one inner map | the map holds every pair | not executed | DataMaps.MapOfMapsAsWrittenIsEmpty | DataMaps.MapOfMapsKeepsAll |
| tde-dbus-1-tqt/src/tqdbusmarshall.cpp:221-235 | the array branch of parseSignature parses the rest of the signature as the element type | the signature "(a(ii)s)" | the element type is the single complete type after 'a' | not executed | Signatures.ArrayBranchSwallowsSiblings | Signatures.ArrayBranchCorrected |
| tde-dbus-1-tqt/src/tqdbusmarshall.cpp:743-753 | in the key-map writers for non-string keys the key is appended to the outer iterator, not to the dict entry | a non-empty map keyed by Int32 | the key is the first item of each dict entry | not executed | Marshall.EncodeAsWrittenLosesEntries | Marshall.RoundTripMap |
| tde-dbus-1-tqt/src/tqdbusintegrator.cpp:623, 644-646 | qDBusResultReceived dereferences and erases the found iterator even when the call is unknown | a reply whose pending call is not in the table | return when the call is not found | not executed | Integrator.ResultForUnknownCallErasesEnd | Integrator.ConnectionPrivate.ResultReceived |
| tde-dbus-1-tqt/src/tqdbusconnection.cpp:403-406 | requestName runs handleError on the bus error and then handleUnreadMessages, whose handleError calls for read watchers find the error cleared and reset lastError to the default error | a bus refusing the name on a connection with a read watcher | lastError() keeps the bus error after requestName returns false | not executed | Connections.RequestNameHidesBusError | Connections.RequestNameReportsBusError |
| tde-dbus-1-tqt/src/tqdbusintegrator.cpp:466-473 | the inner loop of purgeRemovedWatches advances only when it erases, so a live watcher makes it loop forever | a watcher list holding a live watcher | advance past live watchers | not executed | Integrator.PurgeAsWrittenHangs | Integrator.LiveWatchers |
