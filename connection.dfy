/**
 * TQT_DBusConnection and its connection manager.  A connection handle
 * points at a reference-counted TQT_DBusConnectionPrivate (or at none);
 * the manager knows the privates by name, the default connection in a
 * slot of its own.  What libdbus answers (whether a bus connection was
 * made, the errors it reports, whether a message was sent) is a
 * parameter.
 */
module Connections {
  import opened Wrappers
  import opened Errors
  import opened Messages
  import opened Integrator

  const DefaultConnectionName: string := "qt_dbus_default_connection"

  /**
   * The NameRequestMode flags.  tqdbusconnection.h, which declares them,
   * is not part of this model: the values are taken to be those of the
   * bus flags they are mapped to.
   */
  const AllowReplace: nat := 1
  const ReplaceExisting: nat := 2

  /** DBUS_NAME_FLAG_ALLOW_REPLACEMENT and DBUS_NAME_FLAG_REPLACE_EXISTING (RequestName, D-Bus Specification). */
  const NameFlagAllowReplacement: nat := 1
  const NameFlagReplaceExisting: nat := 2

  /** `flags & bit` is non-zero, for a single-bit flag. */
  predicate HasFlag(flags: nat, bit: nat)
    requires bit == 1 || bit == 2
  {
    (flags / bit) % 2 == 1
  }

  /** The flags requestName hands to the bus: each requested mode becomes its bus flag, nothing else is passed. */
  function DBusNameFlags(modeFlags: nat): (f: nat)
    ensures HasFlag(f, NameFlagAllowReplacement) <==> HasFlag(modeFlags, AllowReplace)
    ensures HasFlag(f, NameFlagReplaceExisting) <==> HasFlag(modeFlags, ReplaceExisting)
    ensures f < 4
  {
    (if HasFlag(modeFlags, AllowReplace) then NameFlagAllowReplacement else 0)
    + (if HasFlag(modeFlags, ReplaceExisting) then NameFlagReplaceExisting else 0)
  }

  /** With these values the mapping keeps exactly the two low bits of the mode. */
  lemma NameFlagsKeepLowBits(modeFlags: nat)
    ensures DBusNameFlags(modeFlags) == modeFlags % 4
  {
    var q := modeFlags / 4;
    var r := modeFlags % 4;
    assert modeFlags == 4 * q + r;
    assert modeFlags / 2 == 2 * q + r / 2;
    assert (modeFlags / 2) % 2 == r / 2;
    assert modeFlags % 2 == r % 2;
  }

  /** The reference count of a private, if there is one. */
  function RefsOf(d: ConnectionPrivate?): set<Atomic> {
    if d == null then {} else {d.ref}
  }

  /** The private itself, if there is one. */
  function PrivatesOf(d: ConnectionPrivate?): set<ConnectionPrivate> {
    if d == null then {} else {d}
  }

  class ConnectionManager {
    var defaultConnection: ConnectionPrivate?
    var connectionHash: map<string, ConnectionPrivate?>

    constructor ()
      ensures defaultConnection == null && connectionHash == map[]
    {
      defaultConnection := null;
      connectionHash := map[];
    }

    /** connection(name): the default slot for the default name, the named entry otherwise, none when unknown. */
    function Lookup(name: string): (d: ConnectionPrivate?)
      reads this
      ensures name == DefaultConnectionName ==> d == defaultConnection
      ensures name != DefaultConnectionName ==> d == if name in connectionHash then connectionHash[name] else null
    {
      if name == DefaultConnectionName then defaultConnection
      else if name in connectionHash then connectionHash[name]
      else null
    }

    /** setConnection(name, c): afterwards the name resolves to c and every other name as before. */
    method SetConnection(name: string, c: ConnectionPrivate?)
      modifies this
      ensures forall n :: Lookup(n) == if n == name then c else old(Lookup(n))
    {
      if name == DefaultConnectionName {
        defaultConnection := c;
      } else {
        connectionHash := connectionHash[name := c];
      }
    }

    /**
     * removeConnection(name): afterwards the name resolves to nothing and
     * every other name as before; the private it named loses one
     * reference and is deleted when none is left.
     */
    method RemoveConnection(name: string)
      modifies this, RefsOf(Lookup(name)), PrivatesOf(Lookup(name))`deleted
      ensures forall n :: Lookup(n) == if n == name then null else old(Lookup(n))
      ensures var d := old(Lookup(name));
              d != null ==> d.ref.value == old(d.ref.value) - 1 && d.deleted == (old(d.deleted) || d.ref.value <= 0)
    {
      var d: ConnectionPrivate?;
      if name == DefaultConnectionName {
        d := defaultConnection;
        defaultConnection := null;
      } else {
        if name !in connectionHash {
          return;
        }
        d := connectionHash[name];
        connectionHash := connectionHash - {name};
      }
      if d != null {
        var alive := d.ref.Deref();
        if !alive {
          d.deleted := true;
        }
      }
    }
  }

  class Connection {
    var d: ConnectionPrivate?

    /** TQT_DBusConnection(): a handle to nothing. */
    constructor ()
      ensures d == null
    {
      d := null;
    }

    /** TQT_DBusConnection(name): the manager's private for the name, with one more reference. */
    constructor Named(manager: ConnectionManager, name: string)
      modifies RefsOf(manager.Lookup(name))
      ensures d == manager.Lookup(name)
      ensures var p := manager.Lookup(name); p != null ==> p.ref.value == old(p.ref.value) + 1
    {
      var p := manager.Lookup(name);
      d := p;
      if p != null {
        p.ref.Ref();
      }
    }

    /** The copy constructor: the same private, with one more reference. */
    constructor Copy(other: Connection)
      modifies RefsOf(other.d)
      ensures d == other.d
      ensures var p := other.d; p != null ==> p.ref.value == old(p.ref.value) + 1
    {
      var p := other.d;
      d := p;
      if p != null {
        p.ref.Ref();
      }
    }

    /** The destructor: one reference less, the private deleted when none is left. */
    method Release()
      modifies RefsOf(d), PrivatesOf(d)`deleted
      ensures d != null ==> d.ref.value == old(d.ref.value) - 1 && d.deleted == (old(d.deleted) || d.ref.value <= 0)
    {
      if d != null {
        var alive := d.ref.Deref();
        if !alive {
          d.deleted := true;
        }
      }
    }

    /**
     * operator=: the other private gains its reference before the old one
     * loses one, so assigning a handle to the same private changes no
     * count and deletes nothing that was referenced.  (Each private owns
     * its counter, as the requires says of the two involved.)
     */
    method Assign(other: Connection)
      requires d != null && other.d != null && d != other.d ==> d.ref != other.d.ref
      modifies this, RefsOf(other.d), RefsOf(d), PrivatesOf(d)`deleted
      ensures d == old(other.d)
      ensures var o, n := old(d), old(other.d);
              n != null && n != o ==> n.ref.value == old(n.ref.value) + 1
      ensures var o, n := old(d), old(other.d);
              o != null ==> o.ref.value == old(o.ref.value) - (if o == n then 0 else 1)
                            && o.deleted == (old(o.deleted) || o.ref.value <= 0)
    {
      if other.d != null {
        other.d.ref.Ref();
      }
      var previous := d;
      d := other.d;
      if previous != null {
        var alive := previous.ref.Deref();
        if !alive {
          previous.deleted := true;
        }
      }
    }

    /** The guard of send, sendWithReply and sendWithAsyncReply: a private with a libdbus connection. */
    predicate Usable()
      reads this, d
    {
      d != null && d.hasConnection
    }

    /** send: false without a connection or when the message does not convert, otherwise what libdbus answers. */
    method Send(converts: bool, delivered: bool) returns (ok: bool)
      ensures ok <==> Usable() && converts && delivered
    {
      if d == null || !d.hasConnection {
        return false;
      }
      if !converts {
        return false;
      }
      ok := delivered;
    }

    /** sendWithAsyncReply: 0 without a connection, otherwise the private's sendWithReplyAsync. */
    method SendWithAsyncReply(receiver: Option<ObjectId>, slot: Option<string>, hooked: bool,
                              converts: bool, sent: bool, pending: PendingHandle, serial: int)
      returns (id: int)
      modifies PrivatesOf(d)`pendingCalls
      ensures !Usable() ==> id == 0 && (d != null ==> d.pendingCalls == old(d.pendingCalls))
      ensures Usable() && (receiver.None? || slot.None? || !hooked || !converts || !sent) ==>
                id == 0 && d.pendingCalls == old(d.pendingCalls)
      ensures Usable() && receiver.Some? && slot.Some? && hooked && converts && sent ==>
                id == serial && d.pendingCalls == old(d.pendingCalls)[pending := PendingCall(receiver, slot.value)]
    {
      if d == null || !d.hasConnection {
        return 0;
      }
      id := d.SendWithReplyAsync(receiver, slot, hooked, converts, sent, pending, serial);
    }

    /**
     * sendWithReply: an InvalidMessage without a connection or when the
     * message does not convert.  Otherwise the message is sent and the
     * call blocks; `busError` is the error libdbus reports, and `reply`
     * the reply it returns when it reports none (it returns no reply,
     * read as an InvalidMessage, exactly when it reports one).  The error
     * goes through handleError into lastError and, when valid, is
     * reported.
     */
    method SendWithReply(converts: bool, reply: Message, busError: Option<CError>)
      returns (result: Message, error: Option<DBusError>)
      modifies PrivatesOf(d)`lastError, PrivatesOf(d)`error
      ensures !Usable() || !converts ==>
                fresh(result) && result.Type() == InvalidMessage && error.None?
                && (d != null ==> d.lastError == old(d.lastError) && d.error == old(d.error))
      ensures Usable() && converts ==>
                d.lastError == FromCError(busError) && d.error == None
                && error == (if IsValid(FromCError(busError)) then Some(FromCError(busError)) else None)
      ensures Usable() && converts && ErrorSet(busError) ==> fresh(result) && result.Type() == InvalidMessage
      ensures Usable() && converts && !ErrorSet(busError) ==> result == reply && error.None?
    {
      if d == null || !d.hasConnection || !converts {
        result := new Message();
        return result, None;
      }
      d.error := busError;
      var failed := d.HandleError();
      error := if failed then Some(d.lastError) else None;
      if ErrorSet(busError) {
        result := new Message();
      } else {
        result := reply;
      }
    }

    /**
     * registerObject: refused without a connection, for a null object,
     * an empty path or a path already taken; otherwise exactly that path
     * is added, for that object.
     */
    method RegisterObject(path: string, obj: Option<ObjectId>) returns (ok: bool)
      modifies PrivatesOf(d)`registeredObjects
      ensures ok <==> Usable() && obj.Some? && path != "" && path !in old(d.registeredObjects)
      ensures ok ==> d.registeredObjects == old(d.registeredObjects)[path := obj.value]
      ensures !ok && d != null ==> d.registeredObjects == old(d.registeredObjects)
    {
      if d == null || !d.hasConnection || obj.None? || path == "" {
        return false;
      }
      if path in d.registeredObjects {
        return false;
      }
      d.registeredObjects := d.registeredObjects[path := obj.value];
      ok := true;
    }

    /** unregisterObject: exactly the path leaves the table; nothing changes without a connection or for an empty path. */
    method UnregisterObject(path: string)
      modifies PrivatesOf(d)`registeredObjects
      ensures d != null ==>
                d.registeredObjects == if Usable() && path != "" then old(d.registeredObjects) - {path}
                                       else old(d.registeredObjects)
    {
      if d == null || !d.hasConnection || path == "" {
        return;
      }
      if path !in d.registeredObjects {
        return;
      }
      d.registeredObjects := d.registeredObjects - {path};
    }

    /**
     * requestName: false, asking nothing, without a connection or for
     * negative flags.  Otherwise the mapped flags go to the bus, whose
     * error handleError takes into lastError; the result is that it was
     * no valid error.  handleUnreadMessages then reads every read watcher,
     * and since the error is already cleared its handleError calls reset
     * lastError to the default error (see ErrorAfterRequestName).
     */
    method RequestName(name: string, modeFlags: int, busError: Option<CError>)
      returns (ok: bool, requested: Option<nat>)
      modifies PrivatesOf(d)`lastError, PrivatesOf(d)`error, PrivatesOf(d)`dispatcherActive
      ensures !Usable() || modeFlags < 0 ==>
                !ok && requested.None?
                && (d != null ==> d.lastError == old(d.lastError) && d.error == old(d.error)
                                  && d.dispatcherActive == old(d.dispatcherActive))
      ensures Usable() && modeFlags >= 0 ==>
                requested == Some(DBusNameFlags(modeFlags))
                && (ok <==> !IsValid(FromCError(busError)))
                && d.lastError == ErrorAfterRequestName(busError, HasReader(d.watchers), AsWritten)
                && d.error == None
                && d.dispatcherActive == (old(d.dispatcherActive) || (HasReader(d.watchers) && d.mode == ClientMode))
    {
      if d == null || !d.hasConnection {
        return false, None;
      }
      if modeFlags < 0 {
        return false, None;
      }
      var flags := DBusNameFlags(modeFlags);
      requested := Some(flags);
      d.error := busError;
      var failed := d.HandleError();
      ok := !failed;
      var unread, calls := d.HandleUnreadMessages();
      ok := ok && unread;
    }
  }

  /**
   * lastError after a requestName that reached the bus.  As written, every
   * read watcher makes handleUnreadMessages call handleError once more
   * with the error already cleared, which leaves the default error; the
   * evidently intended outcome keeps the bus error for lastError().
   */
  function ErrorAfterRequestName(busError: Option<CError>, readers: bool, rule: Rule): DBusError
  {
    if readers && rule == AsWritten then DefaultError else FromCError(busError)
  }

  /** As written, with a read watcher a refused name leaves lastError() reporting no error. */
  lemma RequestNameHidesBusError(busError: Option<CError>)
    requires IsValid(FromCError(busError))
    ensures !IsValid(ErrorAfterRequestName(busError, true, AsWritten))
    ensures ErrorAfterRequestName(busError, true, AsWritten) != FromCError(busError)
  {
  }

  /** As intended, lastError() is a valid error exactly when requestName reports failure, whatever the watchers. */
  lemma RequestNameReportsBusError(busError: Option<CError>, readers: bool)
    ensures IsValid(ErrorAfterRequestName(busError, readers, Corrected)) <==> IsValid(FromCError(busError))
    ensures ErrorAfterRequestName(busError, readers, Corrected) == FromCError(busError)
  {
  }

  /**
   * addConnection (for a bus type or an address): a handle to the known
   * private when the name is taken; otherwise a new private, connected
   * as libdbus allows, is registered under the name and a handle to it
   * returned (the manager and the handle hold one reference each).
   */
  method AddConnection(manager: ConnectionManager, name: string, dbc: bool,
                       error: Option<CError>, matchError: Option<CError>)
    returns (c: Connection)
    modifies manager, RefsOf(manager.Lookup(name))
    ensures fresh(c)
    ensures var p := old(manager.Lookup(name));
            p != null ==> c.d == p && p.ref.value == old(p.ref.value) + 1
                          && forall n :: manager.Lookup(n) == old(manager.Lookup(n))
    ensures old(manager.Lookup(name)) == null ==>
              c.d != null && fresh(c.d) && fresh(c.d.ref) && c.d.ref.value == 2 && !c.d.deleted
              && c.d.hasConnection == (dbc && !IsValid(FromCError(matchError)))
              && c.d.lastError == (if dbc then FromCError(matchError) else FromCError(error))
              && c.d.mode == (if c.d.hasConnection then ClientMode else InvalidMode)
              && forall n :: manager.Lookup(n) == if n == name then c.d else old(manager.Lookup(n))
  {
    var d := manager.Lookup(name);
    if d != null {
      c := new Connection.Named(manager, name);
      return;
    }
    d := new ConnectionPrivate();
    d.SetConnection(dbc, error, matchError);
    manager.SetConnection(name, d);
    c := new Connection.Named(manager, name);
  }
}
