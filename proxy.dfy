/**
 * TQT_DBusProxy: a binding to one service, object path and interface on
 * a connection.  The connection is represented by whether it is
 * connected; what the bus does with a call is a parameter.  Emitted Qt
 * signals are appended to logs.
 */
module Proxies {
  import opened Wrappers
  import opened Data
  import opened Errors
  import opened Messages

  /** The method call a proxy sends: methodCall(service, path, interface, method) with the parameters appended. */
  datatype Call = Call(service: string, path: string, iface: string, member: string, args: seq<Data>)

  predicate StartsWith(s: string, prefix: string) {
    |prefix| <= |s| && s[..|prefix|] == prefix
  }

  class Proxy {
    var service: string
    var path: string
    var iface: string
    /** Private::canSend, recomputed by checkCanSend after every change of the binding. */
    var canSendFlag: bool
    /** The connection's isConnected(). */
    var connected: bool
    /** lastError(). */
    var error: DBusError
    /** The dbusSignal emissions, in order. */
    var signalLog: seq<Message>
    /** The asyncReply emissions: the reply serial and the reply, in order. */
    var replyLog: seq<(int, Message)>

    /** checkCanSend: the flag holds exactly when service, path and interface are all set. */
    ghost predicate Valid()
      reads this
    {
      canSendFlag <==> service != "" && path != "" && iface != ""
    }

    /** TQT_DBusProxy(connection): nothing bound, so nothing can be sent. */
    constructor (connected: bool)
      ensures Valid() && !canSendFlag
      ensures service == "" && path == "" && iface == "" && this.connected == connected
      ensures error == DefaultError && signalLog == [] && replyLog == []
    {
      service, path, iface := "", "", "";
      canSendFlag := false;
      this.connected := connected;
      error := DefaultError;
      signalLog, replyLog := [], [];
    }

    /** TQT_DBusProxy(service, path, interface, connection). */
    constructor Bound(service: string, path: string, iface: string, connected: bool)
      ensures Valid()
      ensures this.service == service && this.path == path && this.iface == iface && this.connected == connected
      ensures error == DefaultError && signalLog == [] && replyLog == []
    {
      this.service, this.path, this.iface := service, path, iface;
      this.connected := connected;
      canSendFlag := service != "" && path != "" && iface != "";
      error := DefaultError;
      signalLog, replyLog := [], [];
    }

    method SetService(service: string)
      requires Valid()
      modifies this
      ensures Valid()
      ensures this.service == service && path == old(path) && iface == old(iface)
      ensures connected == old(connected) && error == old(error)
      ensures signalLog == old(signalLog) && replyLog == old(replyLog)
    {
      this.service := service;
      canSendFlag := this.service != "" && path != "" && iface != "";
    }

    method SetPath(path: string)
      requires Valid()
      modifies this
      ensures Valid()
      ensures this.path == path && service == old(service) && iface == old(iface)
      ensures connected == old(connected) && error == old(error)
      ensures signalLog == old(signalLog) && replyLog == old(replyLog)
    {
      this.path := path;
      canSendFlag := service != "" && this.path != "" && iface != "";
    }

    method SetInterface(iface: string)
      requires Valid()
      modifies this
      ensures Valid()
      ensures this.iface == iface && service == old(service) && path == old(path)
      ensures connected == old(connected) && error == old(error)
      ensures signalLog == old(signalLog) && replyLog == old(replyLog)
    {
      this.iface := iface;
      canSendFlag := service != "" && path != "" && this.iface != "";
    }

    /** setConnection: the binding now uses a connection in the given state. */
    method SetConnection(connected: bool)
      requires Valid()
      modifies this
      ensures Valid()
      ensures this.connected == connected && service == old(service) && path == old(path) && iface == old(iface)
      ensures error == old(error) && signalLog == old(signalLog) && replyLog == old(replyLog)
    {
      this.connected := connected;
    }

    /** canSend(): the flag, and the connection up. */
    function CanSend(): (r: bool)
      reads this
      requires Valid()
      ensures r <==> service != "" && path != "" && iface != "" && connected
    {
      canSendFlag && connected
    }

    /**
     * The call send, sendWithReply and sendWithAsyncReply put on the bus:
     * none when the proxy cannot send or the method name is empty;
     * otherwise one to the bound service, path and interface, carrying
     * the parameters in order.
     */
    function CallFor(methodName: string, params: seq<Data>): (c: Option<Call>)
      reads this
      requires Valid()
      ensures c.None? <==> !CanSend() || methodName == ""
      ensures c.Some? ==> c.value.service == service && c.value.path == path && c.value.iface == iface
                          && c.value.member == methodName && c.value.args == params
    {
      if !canSendFlag || methodName == "" || !connected then None
      else Some(Call(service, path, iface, methodName, params))
    }

    /** send: false when refused, otherwise whatever the connection answers (`delivered`). */
    method Send(methodName: string, params: seq<Data>, delivered: bool) returns (sent: bool, call: Option<Call>)
      requires Valid()
      ensures call == CallFor(methodName, params)
      ensures sent <==> call.Some? && delivered
    {
      call := CallFor(methodName, params);
      if call.None? {
        return false, call;
      }
      sent := delivered;
    }

    /**
     * sendWithReply: an InvalidMessage when refused; otherwise the answer
     * of the connection's sendWithReply, which is given as `reply` and
     * `busError`: the message it returns and the error it writes through
     * the pointer to lastError, when it writes one (it writes one only for
     * a bus error, and then returns an InvalidMessage).
     */
    method SendWithReply(methodName: string, params: seq<Data>, reply: Message, busError: Option<DBusError>)
      returns (result: Message, call: Option<Call>)
      requires Valid()
      requires busError.Some? ==> reply.Type() == InvalidMessage
      modifies this
      ensures Valid()
      ensures call == old(CallFor(methodName, params))
      ensures call.None? ==> fresh(result) && result.Type() == InvalidMessage && error == old(error)
      ensures call.Some? ==> result == reply
      ensures call.Some? && busError.None? ==> error == old(error)
      ensures call.Some? && busError.Some? ==> error == busError.value && result.Type() == InvalidMessage
      ensures service == old(service) && path == old(path) && iface == old(iface) && connected == old(connected)
      ensures signalLog == old(signalLog) && replyLog == old(replyLog)
    {
      call := CallFor(methodName, params);
      if call.None? {
        result := new Message();
        return;
      }
      if busError.Some? {
        error := busError.value;
      }
      result := reply;
    }

    /** sendWithAsyncReply: 0 when refused, otherwise the serial the connection hands out. */
    method SendWithAsyncReply(methodName: string, params: seq<Data>, serial: int) returns (id: int, call: Option<Call>)
      requires Valid()
      ensures call == CallFor(methodName, params)
      ensures call.None? ==> id == 0
      ensures call.Some? ==> id == serial
    {
      call := CallFor(methodName, params);
      if call.None? {
        return 0, call;
      }
      id := serial;
    }

    /**
     * The signal filter of handleDBusSignal: a bound path must match, a
     * unique (":"-prefixed) bound service must be the sender, and a bound
     * interface must match.
     */
    predicate AcceptsSignal(m: Message)
      reads this, m
    {
      (path == "" || path == m.path)
      && (!StartsWith(service, ":") || service == m.sender)
      && (iface == "" || iface == m.iface)
    }

    /** handleDBusSignal: the message is emitted exactly when it passes the filter. */
    method HandleDBusSignal(m: Message)
      modifies this
      ensures AcceptsSignal(m) ==> signalLog == old(signalLog) + [m]
      ensures !AcceptsSignal(m) ==> signalLog == old(signalLog)
      ensures service == old(service) && path == old(path) && iface == old(iface)
      ensures canSendFlag == old(canSendFlag) && connected == old(connected)
      ensures error == old(error) && replyLog == old(replyLog)
    {
      if path != "" && path != m.path {
        return;
      }
      if StartsWith(service, ":") && service != m.sender {
        return;
      }
      if iface != "" && iface != m.iface {
        return;
      }
      signalLog := signalLog + [m];
    }

    /** handleAsyncReply: the reply's error becomes lastError and (replySerialNumber, reply) is emitted. */
    method HandleAsyncReply(m: Message)
      modifies this
      ensures error == m.error
      ensures replyLog == old(replyLog) + [(m.ReplySerialNumber(), m)]
      ensures service == old(service) && path == old(path) && iface == old(iface)
      ensures canSendFlag == old(canSendFlag) && connected == old(connected) && signalLog == old(signalLog)
    {
      error := m.error;
      replyLog := replyLog + [(m.ReplySerialNumber(), m)];
    }
  }

  /** A proxy bound to a well-known (not unique) name filters by path and interface only. */
  lemma WellKnownNameIgnoresSender(p: Proxy, m: Message)
    requires p.service == "" || p.service[0] != ':'
    ensures p.AcceptsSignal(m) <==> (p.path == "" || p.path == m.path) && (p.iface == "" || p.iface == m.iface)
  {
  }

  /** A proxy bound to a unique name accepts only signals whose sender is that name. */
  lemma UniqueNameFiltersSender(p: Proxy, m: Message)
    requires p.service != "" && p.service[0] == ':'
    ensures p.AcceptsSignal(m) ==> m.sender == p.service
  {
    assert StartsWith(p.service, ":");
  }

  /** A call is only ever made with a complete binding on a live connection, and then for every non-empty method. */
  lemma CallNeedsBinding(p: Proxy, methodName: string, params: seq<Data>)
    requires p.Valid()
    ensures p.CallFor(methodName, params).Some? <==>
              p.service != "" && p.path != "" && p.iface != "" && p.connected && methodName != ""
  {
  }
}
