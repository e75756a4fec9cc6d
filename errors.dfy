/**
 * TQT_DBusError: an error kind, the D-Bus error name and a message.  The
 * standard kinds carry the names libdbus defines (DBUS_ERROR_* of
 * dbus-protocol.h, which is not part of this model): the common prefix
 * "org.freedesktop.DBus.Error." followed by the kind's own name.
 */
module Errors {
  import opened Wrappers

  datatype ErrorType =
    | InvalidError
    | Failed | NoMemory | ServiceUnknown | NameHasNoOwner | NoReply | IOError | BadAddress
    | NotSupported | LimitsExceeded | AccessDenied | AuthFailed | NoServer | Timeout
    | NoNetwork | Disconnected | InvalidArgs | FileNotFound | FileExists | UnknownMethod
    | TimedOut | InvalidSignature
    | UserDefined

  /** The kinds strictly between InvalidError and UserDefined, which have a standard name. */
  predicate Standard(t: ErrorType) {
    !t.InvalidError? && !t.UserDefined?
  }

  /** The standard kinds in declaration order, as qDBusErrorSetupNameMapping walks them. */
  const StandardTypes: seq<ErrorType> :=
    [Failed, NoMemory, ServiceUnknown, NameHasNoOwner, NoReply, IOError, BadAddress,
     NotSupported, LimitsExceeded, AccessDenied, AuthFailed, NoServer, Timeout,
     NoNetwork, Disconnected, InvalidArgs, FileNotFound, FileExists, UnknownMethod,
     TimedOut, InvalidSignature]

  const ErrorPrefix: string := "org.freedesktop.DBus.Error."

  function Suffix(t: ErrorType): string {
    match t
    case Failed => "Failed"
    case NoMemory => "NoMemory"
    case ServiceUnknown => "ServiceUnknown"
    case NameHasNoOwner => "NameHasNoOwner"
    case NoReply => "NoReply"
    case IOError => "IOError"
    case BadAddress => "BadAddress"
    case NotSupported => "NotSupported"
    case LimitsExceeded => "LimitsExceeded"
    case AccessDenied => "AccessDenied"
    case AuthFailed => "AuthFailed"
    case NoServer => "NoServer"
    case Timeout => "Timeout"
    case NoNetwork => "NoNetwork"
    case Disconnected => "Disconnected"
    case InvalidArgs => "InvalidArgs"
    case FileNotFound => "FileNotFound"
    case FileExists => "FileExists"
    case UnknownMethod => "UnknownMethod"
    case TimedOut => "TimedOut"
    case InvalidSignature => "InvalidSignature"
    case _ => ""
  }

  /**
   * qDBusErrorNameForType: the standard name of a standard kind; the
   * empty string (after a failed debug assertion) for InvalidError and
   * UserDefined.
   */
  function NameForType(t: ErrorType): (name: string)
    ensures name != "" <==> Standard(t)
  {
    if Standard(t) then ErrorPrefix + Suffix(t) else ""
  }

  /** Distinct standard kinds have distinct suffixes. */
  lemma SuffixInjective(a: ErrorType, b: ErrorType)
    requires Standard(a) && Standard(b) && Suffix(a) == Suffix(b)
    ensures a == b
  {
    // The length and two characters tell every suffix apart.
    var s := Suffix(a);
    assert |s| == |Suffix(b)| && s[0] == Suffix(b)[0];
    if |s| <= 9 {
      assert s[|s| - 1] == Suffix(b)[|s| - 1];
    } else {
      assert s[2] == Suffix(b)[2] && s[3] == Suffix(b)[3];
    }
  }

  /** No two standard kinds share a name. */
  lemma NameForTypeInjective(a: ErrorType, b: ErrorType)
    requires Standard(a) && Standard(b) && NameForType(a) == NameForType(b)
    ensures a == b
  {
    var n := |ErrorPrefix|;
    assert Suffix(a) == NameForType(a)[n..];
    assert Suffix(b) == NameForType(b)[n..];
    SuffixInjective(a, b);
  }

  /** The position of a standard kind in StandardTypes. */
  function Index(t: ErrorType): (i: nat)
    requires Standard(t)
    ensures i < |StandardTypes| && StandardTypes[i] == t
  {
    match t
    case Failed => 0
    case NoMemory => 1
    case ServiceUnknown => 2
    case NameHasNoOwner => 3
    case NoReply => 4
    case IOError => 5
    case BadAddress => 6
    case NotSupported => 7
    case LimitsExceeded => 8
    case AccessDenied => 9
    case AuthFailed => 10
    case NoServer => 11
    case Timeout => 12
    case NoNetwork => 13
    case Disconnected => 14
    case InvalidArgs => 15
    case FileNotFound => 16
    case FileExists => 17
    case UnknownMethod => 18
    case TimedOut => 19
    case InvalidSignature => 20
  }

  /** The table after mapping the name of each kind of `ts` to it, in order. */
  function TableOf(ts: seq<ErrorType>): map<string, ErrorType>
  {
    if ts == [] then map[] else TableOf(ts[..|ts| - 1])[NameForType(ts[|ts| - 1]) := ts[|ts| - 1]]
  }

  /** For standard kinds, the table maps exactly their names, each to its own kind. */
  lemma {:induction false} TableOfSpec(ts: seq<ErrorType>)
    requires forall j :: 0 <= j < |ts| ==> Standard(ts[j])
    ensures forall j :: 0 <= j < |ts| ==> NameForType(ts[j]) in TableOf(ts) && TableOf(ts)[NameForType(ts[j])] == ts[j]
    ensures forall n :: n in TableOf(ts) ==> Standard(TableOf(ts)[n]) && NameForType(TableOf(ts)[n]) == n
  {
    if ts != [] {
      var init, last := ts[..|ts| - 1], ts[|ts| - 1];
      TableOfSpec(init);
      forall j | 0 <= j < |ts|
        ensures NameForType(ts[j]) in TableOf(ts) && TableOf(ts)[NameForType(ts[j])] == ts[j]
      {
        if j < |ts| - 1 {
          assert ts[j] == init[j];
          if NameForType(ts[j]) == NameForType(last) {
            NameForTypeInjective(ts[j], last);
          }
        }
      }
    }
  }

  /** The name table qDBusErrorSetupNameMapping fills: every standard name mapped to its kind. */
  function NameTable(): (table: map<string, ErrorType>)
    ensures forall t :: Standard(t) ==> NameForType(t) in table && table[NameForType(t)] == t
    ensures forall n :: n in table ==> Standard(table[n]) && NameForType(table[n]) == n
  {
    TableOfSpec(StandardTypes);
    assert forall t :: Standard(t) ==> StandardTypes[Index(t)] == t;
    TableOf(StandardTypes)
  }

  /**
   * qDBusErrorSetupNameMapping: for every kind from Failed to
   * InvalidSignature, in order, map its name to it.
   */
  method SetupNameMapping() returns (table: map<string, ErrorType>)
    ensures table == NameTable()
  {
    table := map[];
    var i := 0;
    while i < |StandardTypes|
      invariant 0 <= i <= |StandardTypes|
      invariant table == TableOf(StandardTypes[..i])
    {
      var t := StandardTypes[i];
      assert StandardTypes[..i + 1][..i] == StandardTypes[..i];
      table := table[NameForType(t) := t];
      i := i + 1;
    }
    assert StandardTypes[..i] == StandardTypes;
  }

  /**
   * qDBusErrorTypeForName: InvalidError for the empty name, the kind of
   * a standard name, and UserDefined for any other name.
   */
  function TypeForName(name: string): (t: ErrorType)
    ensures t.InvalidError? <==> name == ""
    ensures Standard(t) ==> NameForType(t) == name
    ensures t.UserDefined? <==> name != "" && forall s :: Standard(s) ==> NameForType(s) != name
  {
    if name == "" then InvalidError
    else if name in NameTable() then NameTable()[name]
    else UserDefined
  }

  /** Type to name to type is the identity on the standard kinds. */
  lemma TypeNameRoundTrip(t: ErrorType)
    requires Standard(t)
    ensures TypeForName(NameForType(t)) == t
  {
  }

  /**
   * The lazily filled name table of qDBusErrorTypeForName: empty until the
   * first lookup of a non-empty name, the full table from then on.
   */
  class ErrorNames {
    var byName: map<string, ErrorType>

    ghost predicate Valid()
      reads this
    {
      byName == map[] || byName == NameTable()
    }

    constructor ()
      ensures Valid() && byName == map[]
    {
      byName := map[];
    }

    /** qDBusErrorTypeForName, filling the table on first use. */
    method TypeFor(name: string) returns (t: ErrorType)
      requires Valid()
      modifies this
      ensures Valid()
      ensures t == TypeForName(name)
      ensures name == "" ==> byName == old(byName)
      ensures name != "" ==> byName == NameTable()
    {
      if name == "" {
        return InvalidError;
      }
      if byName == map[] {
        byName := SetupNameMapping();
      }
      if name in byName {
        t := byName[name];
      } else {
        t := UserDefined;
      }
    }
  }

  /** TQT_DBusError: the kind, the name and the message. */
  datatype DBusError = DBusError(errorType: ErrorType, name: string, message: string)

  /** The default error: InvalidError with empty name and message. */
  const DefaultError := DBusError(InvalidError, "", "")

  /** isValid: a kind other than InvalidError, and a name and a message. */
  predicate IsValid(e: DBusError) {
    !e.errorType.InvalidError? && e.name != "" && e.message != ""
  }

  /** A libdbus DBusError as the constructor sees it: absent or unset, or set with a name and a message. */
  datatype CError = CError(isSet: bool, name: string, message: string)

  /** dbus_error_is_set on a possibly absent error. */
  predicate ErrorSet(error: Option<CError>)
  {
    error.Some? && error.value.isSet
  }

  /**
   * TQT_DBusError(const DBusError*): the default error for a null or
   * unset libdbus error; otherwise its name and message, the kind
   * classified from the name.
   */
  function FromCError(error: Option<CError>): (e: DBusError)
    ensures (error.None? || !error.value.isSet) ==> e == DefaultError
    ensures error.Some? && error.value.isSet ==>
              e.name == error.value.name && e.message == error.value.message
              && e.errorType == TypeForName(error.value.name)
  {
    if error.None? || !error.value.isSet then DefaultError
    else DBusError(TypeForName(error.value.name), error.value.name, error.value.message)
  }

  /** TQT_DBusError(name, message): both stored, the kind classified from the name. */
  function FromNameAndMessage(name: string, message: string): (e: DBusError)
    ensures e.name == name && e.message == message
    ensures e.errorType == TypeForName(name)
  {
    DBusError(TypeForName(name), name, message)
  }

  /** TQT_DBusError(type, message): the kind, its standard name and the message. */
  function FromType(t: ErrorType, message: string): (e: DBusError)
    ensures e.errorType == t && e.message == message
    ensures Standard(t) ==> e.name == NameForType(t)
  {
    DBusError(t, NameForType(t), message)
  }

  /** The kinds that have a stdX factory (stdFailed … stdInvalidSignature). */
  const StdFactoryTypes: set<ErrorType> :=
    {Failed, NoMemory, NoReply, IOError, NotSupported, LimitsExceeded, AccessDenied,
     AuthFailed, Timeout, InvalidArgs, FileNotFound, FileExists, UnknownMethod, InvalidSignature}

  /** stdX(message): kind X, X's standard name, the message; valid exactly when the message is not empty. */
  function Std(t: ErrorType, message: string): (e: DBusError)
    requires t in StdFactoryTypes
    ensures e.errorType == t && e.name == NameForType(t) && e.message == message
    ensures IsValid(e) <==> message != ""
  {
    FromType(t, message)
  }

  /** An error built from a kind is valid exactly for a standard kind and a non-empty message. */
  lemma FromTypeValid(t: ErrorType, message: string)
    ensures IsValid(FromType(t, message)) <==> Standard(t) && message != ""
  {
  }

  /** Building from a standard kind's name classifies back to the same error as building from the kind. */
  lemma NameAndMessageAgreesWithType(t: ErrorType, message: string)
    requires Standard(t)
    ensures FromNameAndMessage(NameForType(t), message) == FromType(t, message)
  {
    TypeNameRoundTrip(t);
  }

  /** An error is valid when built from a non-empty name and a non-empty message, whatever the name. */
  lemma NamedErrorValid(name: string, message: string)
    ensures IsValid(FromNameAndMessage(name, message)) <==> name != "" && message != ""
  {
  }
}
