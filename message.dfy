/**
 * TQT_DBusMessage: a message kind with its routing fields, an error, a
 * timeout, the libdbus message it was read from or replies to, and its
 * argument list.  libdbus messages are opaque handles that only answer
 * their serial numbers.
 */
module Messages {
  import opened Wrappers
  import opened Data
  import opened Errors

  /** The message kind codes of libdbus (DBUS_MESSAGE_TYPE_*). */
  const TypeInvalidCode := 0
  const MethodCallCode := 1
  const MethodReturnCode := 2
  const ErrorCode := 3
  const SignalCode := 4

  datatype MessageType = InvalidMessage | MethodCallMessage | ReplyMessage | ErrorMessage | SignalMessage

  /** type(): the four libdbus codes to their kinds, any other code to InvalidMessage. */
  function TypeOfCode(code: int): (t: MessageType)
    ensures t.InvalidMessage? <==> code !in {MethodCallCode, MethodReturnCode, ErrorCode, SignalCode}
  {
    if code == MethodCallCode then MethodCallMessage
    else if code == MethodReturnCode then ReplyMessage
    else if code == ErrorCode then ErrorMessage
    else if code == SignalCode then SignalMessage
    else InvalidMessage
  }

  /** The code the factories store for a kind. */
  function CodeOf(t: MessageType): (code: int)
    ensures t.InvalidMessage? <==> code == TypeInvalidCode
  {
    match t
    case InvalidMessage => TypeInvalidCode
    case MethodCallMessage => MethodCallCode
    case ReplyMessage => MethodReturnCode
    case ErrorMessage => ErrorCode
    case SignalMessage => SignalCode
  }

  /** Code and kind correspond one to one on the five kinds. */
  lemma CodeRoundTrip(t: MessageType)
    ensures TypeOfCode(CodeOf(t)) == t
  {
  }

  /** A libdbus message as this model sees it: its serial and the serial it replies to. */
  datatype RawMessage = RawMessage(serial: int, replySerial: int)

  class Message {
    var typeCode: int
    var service: string
    var path: string
    var iface: string
    var member: string
    var sender: string
    var error: DBusError
    var timeout: int
    /** The libdbus message this one was read from (`msg`). */
    var raw: Option<RawMessage>
    /** The libdbus message a reply or an error answers (`reply`). */
    var replyTo: Option<RawMessage>
    /** The argument list (the message is a TQValueList of values). */
    var args: seq<Data>

    /** The default message: an InvalidMessage with timeout -1, no libdbus message and no arguments. */
    constructor ()
      ensures typeCode == TypeInvalidCode && Type() == InvalidMessage
      ensures service == "" && path == "" && iface == "" && member == "" && sender == ""
      ensures error == DefaultError && timeout == -1
      ensures raw.None? && replyTo.None? && args == []
    {
      typeCode := TypeInvalidCode;
      service, path, iface, member, sender := "", "", "", "", "";
      error := DefaultError;
      timeout := -1;
      raw, replyTo := None, None;
      args := [];
    }

    function Type(): (t: MessageType)
      reads this
    {
      TypeOfCode(typeCode)
    }

    /** serialNumber: 0 until there is a libdbus message, then that message's serial. */
    function SerialNumber(): (n: int)
      reads this
      ensures raw.None? ==> n == 0
      ensures raw.Some? ==> n == raw.value.serial
    {
      if raw.None? then 0 else raw.value.serial
    }

    /** replySerialNumber: 0 without a libdbus message, then the serial it replies to. */
    function ReplySerialNumber(): (n: int)
      reads this
      ensures raw.None? ==> n == 0
      ensures raw.Some? ==> n == raw.value.replySerial
    {
      if raw.None? then 0 else raw.value.replySerial
    }

    method SetTimeout(ms: int)
      modifies this
      ensures timeout == ms
      ensures typeCode == old(typeCode) && service == old(service) && path == old(path)
      ensures iface == old(iface) && member == old(member) && sender == old(sender)
      ensures error == old(error) && raw == old(raw) && replyTo == old(replyTo) && args == old(args)
    {
      timeout := ms;
    }

    /** `message << data`: one more argument at the end. */
    method Append(d: Data)
      modifies this
      ensures args == old(args) + [d]
      ensures typeCode == old(typeCode) && service == old(service) && path == old(path)
      ensures iface == old(iface) && member == old(member) && sender == old(sender)
      ensures error == old(error) && timeout == old(timeout) && raw == old(raw) && replyTo == old(replyTo)
    {
      args := args + [d];
    }
  }

  /** signal(path, interface, member): a SignalMessage with exactly those fields and no service. */
  method Signal(path: string, iface: string, member: string) returns (m: Message)
    ensures fresh(m)
    ensures m.Type() == SignalMessage
    ensures m.path == path && m.iface == iface && m.member == member
    ensures m.service == "" && m.sender == "" && m.timeout == -1 && m.error == DefaultError
    ensures m.raw.None? && m.replyTo.None? && m.args == []
  {
    m := new Message();
    m.typeCode := SignalCode;
    m.path, m.iface, m.member := path, iface, member;
  }

  /** methodCall(service, path, interface, method): a MethodCallMessage addressed to those. */
  method MethodCall(service: string, path: string, iface: string, methodName: string) returns (m: Message)
    ensures fresh(m)
    ensures m.Type() == MethodCallMessage
    ensures m.service == service && m.path == path && m.iface == iface && m.member == methodName
    ensures m.sender == "" && m.timeout == -1 && m.error == DefaultError
    ensures m.raw.None? && m.replyTo.None? && m.args == []
  {
    m := new Message();
    m.typeCode := MethodCallCode;
    m.service, m.path, m.iface, m.member := service, path, iface, methodName;
  }

  /** methodReply(other): a ReplyMessage answering the libdbus message `other` was read from. */
  method MethodReply(other: Message) returns (m: Message)
    requires other.raw.Some?
    ensures fresh(m)
    ensures m.Type() == ReplyMessage && m.replyTo == other.raw
    ensures m.raw.None? && m.timeout == -1 && m.args == [] && m.error == DefaultError
  {
    m := new Message();
    m.typeCode := MethodReturnCode;
    m.replyTo := other.raw;
  }

  /**
   * methodError(other, error): an ErrorMessage carrying the error and
   * answering `other`, or the default InvalidMessage when the error is
   * not valid.
   */
  method MethodError(other: Message, error: DBusError) returns (m: Message)
    requires other.raw.Some?
    ensures fresh(m)
    ensures IsValid(error) ==> m.Type() == ErrorMessage && m.error == error && m.replyTo == other.raw
    ensures !IsValid(error) ==> m.Type() == InvalidMessage && m.error == DefaultError && m.replyTo.None?
    ensures m.raw.None? && m.timeout == -1 && m.args == []
  {
    m := new Message();
    if !IsValid(error) {
      return;
    }
    m.typeCode := ErrorCode;
    m.replyTo := other.raw;
    m.error := error;
  }
}
