/**
 * TQT_DBusConnectionPrivate: the bookkeeping behind one bus connection.
 * libdbus is reduced to opaque handles (pending calls, timeouts, watches
 * and socket descriptors as integers); whatever the bus answers is a
 * parameter.  Qt timers are booleans (armed or not) and emitted Qt
 * signals are appended to logs.
 */
module Integrator {
  import opened Wrappers
  import opened Errors
  import opened Messages

  /** Atomic: the connection's plain (unsynchronised) reference count. */
  class Atomic {
    var value: int

    constructor (value: int)
      ensures this.value == value
    {
      this.value := value;
    }

    /** ref(): one more reference. */
    method Ref()
      modifies this
      ensures value == old(value) + 1
    {
      value := value + 1;
    }

    /** deref(): one reference less; whether any remain. */
    method Deref() returns (alive: bool)
      modifies this
      ensures value == old(value) - 1
      ensures alive <==> value > 0
    {
      value := value - 1;
      alive := value > 0;
    }
  }

  datatype ConnectionMode = InvalidMode | ServerMode | ClientMode

  /** A libdbus DBusPendingCall* or DBusTimeout*, by identity. */
  datatype PendingHandle = PendingHandle(id: int)
  datatype TimeoutHandle = TimeoutHandle(id: int)
  /** A Qt timer id (startTimer gives 0 for failure). */
  datatype TimerId = TimerId(id: int)
  /** A socket descriptor. */
  datatype Fd = Fd(fd: int)
  /** A (non-null) TQObject, by identity. */
  type ObjectId = int

  /**
   * TQT_DBusPendingCall: the receiver (a guarded pointer, None once the
   * object is gone) and the slot to deliver the reply to.
   */
  datatype PendingCall = PendingCall(receiver: Option<ObjectId>, slot: string)

  /** TQT_DBusResultInfo: a reply waiting to be delivered to receiver and slot. */
  datatype ResultInfo = ResultInfo(message: Message, receiver: Option<ObjectId>, slot: string)

  /** Watcher: a libdbus watch and whether its read and write notifiers exist. */
  datatype Watcher = Watcher(watch: int, read: bool, write: bool)

  /** A watcher whose notifiers were both dropped by qDBusRemoveWatch. */
  predicate Dead(w: Watcher) {
    !w.read && !w.write
  }

  /** objectDestroyed(object) drops a call whose receiver is that object or already gone. */
  predicate Doomed(c: PendingCall, obj: ObjectId) {
    c.receiver.None? || c.receiver == Some(obj)
  }

  /** The pending calls left after objectDestroyed(object). */
  function Survivors(calls: map<PendingHandle, PendingCall>, obj: ObjectId): map<PendingHandle, PendingCall>
  {
    map h | h in calls && !Doomed(calls[h], obj) :: calls[h]
  }

  /** After objectDestroyed no call waits for that object or for a vanished one, and no other call is touched. */
  lemma SurvivorsSpec(calls: map<PendingHandle, PendingCall>, obj: ObjectId)
    ensures forall h :: h in Survivors(calls, obj) ==>
              h in calls && Survivors(calls, obj)[h] == calls[h]
              && Survivors(calls, obj)[h].receiver.Some? && Survivors(calls, obj)[h].receiver != Some(obj)
    ensures forall h :: h in calls && !Doomed(calls[h], obj) ==> h in Survivors(calls, obj)
    ensures Survivors(Survivors(calls, obj), obj) == Survivors(calls, obj)
  {
  }

  /** The list `s` with every occurrence of `t` taken out, the others in order. */
  function Without(s: seq<TimeoutHandle>, t: TimeoutHandle): (r: seq<TimeoutHandle>)
    ensures |r| <= |s|
  {
    if s == [] then []
    else (if s[0] == t then [] else [s[0]]) + Without(s[1..], t)
  }

  /** Removing a timeout leaves no occurrence of it and keeps every other one, as often as it was there. */
  lemma {:induction false} WithoutSpec(s: seq<TimeoutHandle>, t: TimeoutHandle)
    ensures t !in Without(s, t)
    ensures forall x :: x != t ==> multiset(Without(s, t))[x] == multiset(s)[x]
    ensures t !in s ==> Without(s, t) == s
  {
    if s != [] {
      WithoutSpec(s[1..], t);
      assert s == [s[0]] + s[1..];
    }
  }

  /** The timer table after qDBusRemoveTimeout(t): every timer running t is gone. */
  function TimersWithout(timers: map<TimerId, TimeoutHandle>, t: TimeoutHandle): map<TimerId, TimeoutHandle>
  {
    map id | id in timers && timers[id] != t :: timers[id]
  }

  /** The live watchers of a list, in order. */
  function Live(ws: seq<Watcher>): (r: seq<Watcher>)
    ensures |r| <= |ws|
  {
    if ws == [] then []
    else (if Dead(ws[0]) then [] else [ws[0]]) + Live(ws[1..])
  }

  /** Live keeps exactly the watchers with a notifier, in order. */
  lemma {:induction false} LiveSpec(ws: seq<Watcher>)
    ensures forall w :: w in Live(ws) <==> w in ws && !Dead(w)
    ensures (forall i :: 0 <= i < |ws| ==> !Dead(ws[i])) ==> Live(ws) == ws
  {
    if ws != [] {
      LiveSpec(ws[1..]);
      assert ws == [ws[0]] + ws[1..];
    }
  }

  /** The watcher table after purgeRemovedWatches: dead watchers dropped, then descriptors with none left. */
  function Purged(watchers: map<Fd, seq<Watcher>>): map<Fd, seq<Watcher>>
  {
    map fd | fd in watchers && Live(watchers[fd]) != [] :: Live(watchers[fd])
  }

  /** After purging, every listed descriptor has watchers and all of them are live. */
  lemma PurgedSpec(watchers: map<Fd, seq<Watcher>>)
    ensures forall fd :: fd in Purged(watchers) ==>
              fd in watchers && Purged(watchers)[fd] != []
              && forall w :: w in Purged(watchers)[fd] <==> w in watchers[fd] && !Dead(w)
  {
    forall fd | fd in Purged(watchers)
      ensures forall w :: w in Purged(watchers)[fd] <==> w in watchers[fd] && !Dead(w)
    {
      LiveSpec(watchers[fd]);
    }
  }

  /** Some watcher of the list has a read notifier. */
  predicate AnyRead(ws: seq<Watcher>) {
    exists i :: 0 <= i < |ws| && ws[i].read
  }

  /** Some descriptor of the table has a watcher with a read notifier. */
  predicate HasReader(watchers: map<Fd, seq<Watcher>>) {
    exists fd :: fd in watchers && AnyRead(watchers[fd])
  }

  /**
   * The state handleUnreadMessages leaves after `calls` rounds of
   * socketRead and handleError, starting from the pending error `error0`,
   * lastError `last0` and dispatch timer `active0`.  The first
   * handleError takes the pending error into lastError and clears it;
   * every later one finds it cleared and resets lastError to the default
   * error.  The result is false only when the first call found a valid
   * error.
   */
  predicate AfterReads(calls: nat, res: bool, error: Option<CError>, lastError: DBusError, active: bool,
                       error0: Option<CError>, last0: DBusError, active0: bool, mode: ConnectionMode)
  {
    if calls == 0 then res && error == error0 && lastError == last0 && active == active0
    else error == None && (res <==> !IsValid(FromCError(error0)))
         && lastError == (if calls == 1 then FromCError(error0) else DefaultError)
         && active == (active0 || mode == ClientMode)
  }

  /**
   * The inner loop of purgeRemovedWatches as written: the iterator
   * stays at the front; a dead watcher there is erased, a live one is
   * left and the iterator does not move.
   */
  function PurgeStepAsWritten(ws: seq<Watcher>): seq<Watcher>
  {
    if ws != [] && Dead(ws[0]) then ws[1..] else ws
  }

  function IterateAsWritten(ws: seq<Watcher>, k: nat): seq<Watcher>
  {
    if k == 0 then ws else IterateAsWritten(PurgeStepAsWritten(ws), k - 1)
  }

  /**
   * A list holding one live watcher is never emptied by the loop as
   * written, so its condition (not at the end) holds forever: the loop
   * does not terminate.
   */
  lemma {:induction false} PurgeAsWrittenHangs(ws: seq<Watcher>, k: nat)
    requires exists i :: 0 <= i < |ws| && !Dead(ws[i])
    ensures IterateAsWritten(ws, k) != []
    ensures exists i :: 0 <= i < |IterateAsWritten(ws, k)| && !Dead(IterateAsWritten(ws, k)[i])
  {
    if k > 0 {
      var i :| 0 <= i < |ws| && !Dead(ws[i]);
      var next := PurgeStepAsWritten(ws);
      if ws != [] && Dead(ws[0]) {
        assert next[i - 1] == ws[i];
      }
      PurgeAsWrittenHangs(next, k - 1);
    }
  }

  /** The single live watcher at the front of a list stops the loop as written for good. */
  lemma PurgeAsWrittenStalls(w: Watcher, rest: seq<Watcher>)
    requires !Dead(w)
    ensures PurgeStepAsWritten([w] + rest) == [w] + rest
  {
  }

  /** A TQMap iterator: at a key, or end(). */
  datatype Iter = At(key: PendingHandle) | End

  /** pendingCalls.find(pending). */
  function Find(calls: map<PendingHandle, PendingCall>, pending: PendingHandle): (it: Iter)
    ensures it.End? <==> pending !in calls
    ensures it.At? ==> it.key == pending
  {
    if pending in calls then At(pending) else End
  }

  /**
   * The closing lines of qDBusResultReceived as written: delete the
   * iterator's call and erase the iterator, found or not.  None stands
   * for dereferencing and erasing end(), which is undefined.
   */
  function ResultReceivedEraseAsWritten(calls: map<PendingHandle, PendingCall>, pending: PendingHandle): Option<map<PendingHandle, PendingCall>>
  {
    match Find(calls, pending)
    case End => None
    case At(k) => Some(calls - {k})
  }

  /** For a call the table does not know, the code as written erases end(); for a known one it drops exactly that call. */
  lemma ResultForUnknownCallErasesEnd(calls: map<PendingHandle, PendingCall>, pending: PendingHandle)
    ensures pending !in calls ==> ResultReceivedEraseAsWritten(calls, pending).None?
    ensures pending in calls ==> ResultReceivedEraseAsWritten(calls, pending) == Some(calls - {pending})
  {
  }

  class ConnectionPrivate {
    const ref: Atomic
    var mode: ConnectionMode
    /** connection != 0: a libdbus connection is attached. */
    var hasConnection: bool
    var lastError: DBusError
    /** The libdbus DBusError the last call into the bus filled in, until handleError clears it. */
    var error: Option<CError>
    /** The object was deleted (its last reference dropped). */
    var deleted: bool
    var registeredObjects: map<string, ObjectId>
    var pendingCalls: map<PendingHandle, PendingCall>
    var pendingMessages: seq<Message>
    var inDispatch: bool
    /** The dispatch timer runs. */
    var dispatcherActive: bool
    /** How often dbus_connection_dispatch was entered. */
    var dispatchCount: nat
    var resultQueue: seq<ResultInfo>
    var resultTimerActive: bool
    var messageTimerActive: bool
    /** Qt timer id to the libdbus timeout it drives. */
    var timeouts: map<TimerId, TimeoutHandle>
    /** Timeouts added before there was an application to start timers. */
    var pendingTimeouts: seq<TimeoutHandle>
    /** Socket descriptor to its watchers. */
    var watchers: map<Fd, seq<Watcher>>
    var removedWatches: seq<Watcher>
    /** The dbusSignal emissions, in order. */
    var signalLog: seq<Message>
    /** The dbusPendingCallReply emissions, each with the receiver and slot connected for it. */
    var replyLog: seq<ResultInfo>

    /** A fresh private: one reference, InvalidMode, no connection, nothing registered or queued. */
    constructor ()
      ensures fresh(ref) && ref.value == 1
      ensures mode == InvalidMode && !hasConnection && lastError == DefaultError && error == None && !deleted
      ensures registeredObjects == map[] && pendingCalls == map[] && pendingMessages == []
      ensures !inDispatch && !dispatcherActive && dispatchCount == 0
      ensures resultQueue == [] && !resultTimerActive && !messageTimerActive
      ensures timeouts == map[] && pendingTimeouts == [] && watchers == map[] && removedWatches == []
      ensures signalLog == [] && replyLog == []
    {
      ref := new Atomic(1);
      mode, hasConnection, lastError, error, deleted := InvalidMode, false, DefaultError, None, false;
      registeredObjects, pendingCalls, pendingMessages := map[], map[], [];
      inDispatch, dispatcherActive, dispatchCount := false, false, 0;
      resultQueue, resultTimerActive, messageTimerActive := [], false, false;
      timeouts, pendingTimeouts, watchers, removedWatches := map[], [], map[], [];
      signalLog, replyLog := [], [];
    }

    /**
     * setConnection(dbc): without a libdbus connection only the error is
     * recorded; otherwise ClientMode on it, closed again (InvalidMode, no
     * connection) when adding the bus match rules fails.
     */
    method SetConnection(dbc: bool, error: Option<CError>, matchError: Option<CError>)
      modifies this`mode, this`hasConnection, this`lastError
      ensures !dbc ==> lastError == FromCError(error) && mode == old(mode) && hasConnection == old(hasConnection)
      ensures dbc ==> lastError == FromCError(matchError)
      ensures dbc && !IsValid(FromCError(matchError)) ==> mode == ClientMode && hasConnection
      ensures dbc && IsValid(FromCError(matchError)) ==> mode == InvalidMode && !hasConnection
    {
      if !dbc {
        lastError := FromCError(error);
        return;
      }
      hasConnection := true;
      mode := ClientMode;
      lastError := FromCError(matchError);
      if IsValid(lastError) {
        CloseConnection();
      }
    }

    /** closeConnection: InvalidMode first, then the connection is dropped. */
    method CloseConnection()
      modifies this`mode, this`hasConnection
      ensures mode == InvalidMode
      ensures old(mode) == ClientMode ==> !hasConnection
      ensures old(mode) != ClientMode ==> hasConnection == old(hasConnection)
    {
      var oldMode := mode;
      mode := InvalidMode;
      if oldMode == ClientMode {
        hasConnection := false;
      }
    }

    /**
     * dispatch: ignored while a dispatch is running; otherwise, in
     * ClientMode, one call into libdbus, stopping the dispatch timer
     * unless data remains.  The guard is clear afterwards.
     */
    method Dispatch(dataRemains: bool)
      modifies this`inDispatch, this`dispatcherActive, this`dispatchCount
      ensures old(inDispatch) ==> inDispatch && dispatchCount == old(dispatchCount) && dispatcherActive == old(dispatcherActive)
      ensures !old(inDispatch) ==> !inDispatch
      ensures !old(inDispatch) && mode == ClientMode ==>
                dispatchCount == old(dispatchCount) + 1 && dispatcherActive == (old(dispatcherActive) && dataRemains)
      ensures !old(inDispatch) && mode != ClientMode ==>
                dispatchCount == old(dispatchCount) && dispatcherActive == old(dispatcherActive)
    {
      if inDispatch {
        return;
      }
      inDispatch := true;
      if mode == ClientMode {
        dispatchCount := dispatchCount + 1;
        if !dataRemains {
          dispatcherActive := false;
        }
      }
      inDispatch := false;
    }

    /** handleSignal: the message waits at the end of pendingMessages, the emission timer armed; always handled. */
    method HandleSignal(msg: Message) returns (handled: bool)
      modifies this`pendingMessages, this`messageTimerActive
      ensures pendingMessages == old(pendingMessages) + [msg]
      ensures messageTimerActive && handled
    {
      pendingMessages := pendingMessages + [msg];
      if !messageTimerActive {
        messageTimerActive := true;
      }
      handled := true;
    }

    /**
     * The message emission timer fires: transmitMessageEmissionQueue
     * takes the messages from the front and emits each, until none is left.
     */
    method TransmitMessageEmissionQueue()
      modifies this`pendingMessages, this`signalLog, this`messageTimerActive
      ensures pendingMessages == [] && !messageTimerActive
      ensures signalLog == old(signalLog) + old(pendingMessages)
    {
      while pendingMessages != []
        invariant signalLog + pendingMessages == old(signalLog) + old(pendingMessages)
        decreases |pendingMessages|
      {
        var msg := pendingMessages[0];
        pendingMessages := pendingMessages[1..];
        signalLog := signalLog + [msg];
      }
      messageTimerActive := false;
    }

    /**
     * The result emission timer fires: transmitResultEmissionQueue takes
     * the results from the front and delivers each to its receiver and
     * slot, until none is left.
     */
    method TransmitResultEmissionQueue()
      modifies this`resultQueue, this`replyLog, this`resultTimerActive
      ensures resultQueue == [] && !resultTimerActive
      ensures replyLog == old(replyLog) + old(resultQueue)
    {
      if resultQueue != [] {
        while resultQueue != []
          invariant replyLog + resultQueue == old(replyLog) + old(resultQueue)
          decreases |resultQueue|
        {
          var result := resultQueue[0];
          resultQueue := resultQueue[1..];
          replyLog := replyLog + [result];
        }
      }
      resultTimerActive := false;
    }

    /** handleObjectCall: unhandled unless an object is registered at the path, then what it answers. */
    function HandleObjectCall(path: string, objectAnswers: bool): (handled: bool)
      reads this
      ensures handled <==> path in registeredObjects && objectAnswers
    {
      if path !in registeredObjects then false else objectAnswers
    }

    /**
     * sendWithReplyAsync: 0 without a receiver or a slot, when the
     * destruction hook cannot be connected, when the message cannot be
     * converted, or when libdbus does not send it; otherwise exactly one
     * pending call is registered under its handle and the serial returned.
     */
    method SendWithReplyAsync(receiver: Option<ObjectId>, slot: Option<string>, hooked: bool,
                              converts: bool, sent: bool, pending: PendingHandle, serial: int)
      returns (id: int)
      modifies this`pendingCalls
      ensures receiver.None? || slot.None? || !hooked || !converts || !sent ==>
                id == 0 && pendingCalls == old(pendingCalls)
      ensures receiver.Some? && slot.Some? && hooked && converts && sent ==>
                id == serial && pendingCalls == old(pendingCalls)[pending := PendingCall(receiver, slot.value)]
    {
      if receiver.None? || slot.None? {
        return 0;
      }
      if !hooked {
        return 0;
      }
      if !converts {
        return 0;
      }
      id := 0;
      if sent {
        pendingCalls := pendingCalls[pending := PendingCall(receiver, slot.value)];
        id := serial;
      }
    }

    /**
     * qDBusResultReceived, with the table entry erased only when the call
     * is known: the reply's error becomes lastError; for a known call the
     * reply is queued for its receiver and slot, the result timer armed
     * and the entry removed; an unknown call changes nothing else.
     */
    method ResultReceived(pending: PendingHandle, reply: Message, replyError: Option<CError>)
      modifies this`lastError, this`resultQueue, this`resultTimerActive, this`pendingCalls
      ensures lastError == FromCError(replyError)
      ensures pending in old(pendingCalls) ==>
                var c := old(pendingCalls)[pending];
                resultQueue == old(resultQueue) + [ResultInfo(reply, c.receiver, c.slot)]
                && resultTimerActive && pendingCalls == old(pendingCalls) - {pending}
      ensures pending !in old(pendingCalls) ==>
                resultQueue == old(resultQueue) && resultTimerActive == old(resultTimerActive)
                && pendingCalls == old(pendingCalls)
    {
      var it := Find(pendingCalls, pending);
      lastError := FromCError(replyError);
      if it.At? {
        var c := pendingCalls[it.key];
        resultQueue := resultQueue + [ResultInfo(reply, c.receiver, c.slot)];
        if !resultTimerActive {
          resultTimerActive := true;
        }
        pendingCalls := pendingCalls - {it.key};
      }
    }

    /**
     * objectDestroyed(object): cancels and drops every pending call whose
     * receiver is that object or already gone; the others stay.
     */
    method ObjectDestroyed(obj: ObjectId) returns (cancelled: set<PendingHandle>)
      modifies this`pendingCalls
      ensures pendingCalls == Survivors(old(pendingCalls), obj)
      ensures cancelled == old(pendingCalls).Keys - pendingCalls.Keys
    {
      pendingCalls, cancelled := DropDoomed(pendingCalls, obj);
    }

    /**
     * qDBusAddTimeout: a disabled timeout registers nothing; without an
     * application it waits in pendingTimeouts; otherwise it is driven by
     * the timer started for it, and the call fails when no timer starts
     * (timer id 0).
     */
    method AddTimeout(t: TimeoutHandle, enabled: bool, haveApp: bool, timerId: int) returns (ok: bool)
      modifies this`pendingTimeouts, this`timeouts
      ensures !enabled ==> ok && pendingTimeouts == old(pendingTimeouts) && timeouts == old(timeouts)
      ensures enabled && !haveApp ==> ok && pendingTimeouts == old(pendingTimeouts) + [t] && timeouts == old(timeouts)
      ensures enabled && haveApp ==> pendingTimeouts == old(pendingTimeouts) && (ok <==> timerId != 0)
      ensures enabled && haveApp && timerId == 0 ==> timeouts == old(timeouts)
      ensures enabled && haveApp && timerId != 0 ==> timeouts == old(timeouts)[TimerId(timerId) := t]
    {
      if !enabled {
        return true;
      }
      if !haveApp {
        pendingTimeouts := pendingTimeouts + [t];
        return true;
      }
      if timerId == 0 {
        return false;
      }
      timeouts := timeouts[TimerId(timerId) := t];
      ok := true;
    }

    /**
     * qDBusRemoveTimeout: every occurrence of the timeout leaves
     * pendingTimeouts, and every timer driving it is killed and
     * leaves the timer table.
     */
    method RemoveTimeout(t: TimeoutHandle) returns (killed: set<TimerId>)
      modifies this`pendingTimeouts, this`timeouts
      ensures pendingTimeouts == Without(old(pendingTimeouts), t)
      ensures timeouts == TimersWithout(old(timeouts), t)
      ensures killed == set id | id in old(timeouts) && old(timeouts)[id] == t
    {
      pendingTimeouts := EraseTimeout(pendingTimeouts, t);
      timeouts, killed := KillTimers(timeouts, t);
    }

    /**
     * purgeRemovedWatches, with the inner loop stepping past live
     * watchers: the removed watchers are forgotten, dead watchers leave
     * every list and descriptors with no watcher left leave the table.
     */
    method PurgeRemovedWatches()
      modifies this`removedWatches, this`watchers
      ensures removedWatches == []
      ensures old(removedWatches) == [] ==> watchers == old(watchers)
      ensures old(removedWatches) != [] ==> watchers == Purged(old(watchers))
    {
      if removedWatches == [] {
        return;
      }
      removedWatches := [];
      watchers := PurgeWatchers(watchers);
    }

    /** handleError: lastError becomes the pending libdbus error, which is cleared; whether it is a valid error. */
    method HandleError() returns (failed: bool)
      modifies this`lastError, this`error
      ensures lastError == FromCError(old(error)) && error == None
      ensures failed <==> IsValid(lastError)
    {
      lastError := FromCError(error);
      error := None;
      failed := IsValid(lastError);
    }

    /** socketRead(fd): libdbus handles the readable watches; in ClientMode a dispatch is scheduled. */
    method SocketRead(fd: Fd)
      modifies this`dispatcherActive
      ensures dispatcherActive == (old(dispatcherActive) || mode == ClientMode)
    {
      if mode == ClientMode {
        dispatcherActive := true;
      }
    }

    /** The inner loop of handleUnreadMessages over the watchers of one descriptor: one more round per read watcher. */
    method ReadList(fd: Fd, list: seq<Watcher>, res0: bool, ghost calls0: nat,
                    ghost error0: Option<CError>, ghost last0: DBusError, ghost active0: bool)
      returns (res: bool, ghost calls: nat)
      requires AfterReads(calls0, res0, error, lastError, dispatcherActive, error0, last0, active0, mode)
      modifies this`lastError, this`error, this`dispatcherActive
      ensures calls >= calls0 && (calls == calls0 <==> !AnyRead(list))
      ensures AfterReads(calls, res, error, lastError, dispatcherActive, error0, last0, active0, mode)
    {
      res, calls := res0, calls0;
      var i := 0;
      while i < |list|
        invariant 0 <= i <= |list|
        invariant calls >= calls0 && (calls == calls0 <==> forall j :: 0 <= j < i ==> !list[j].read)
        invariant AfterReads(calls, res, error, lastError, dispatcherActive, error0, last0, active0, mode)
      {
        if list[i].read {
          SocketRead(fd);
          var failed := HandleError();
          res := res && !failed;
          calls := calls + 1;
        }
        i := i + 1;
      }
    }

    /**
     * handleUnreadMessages: socketRead and then handleError for every
     * watcher with a read notifier, `calls` times in all.  Without such a
     * watcher nothing changes and the result is true; otherwise the state
     * is as AfterReads describes, so lastError ends as the default error
     * as soon as two watchers read.
     */
    method HandleUnreadMessages() returns (res: bool, ghost calls: nat)
      modifies this`lastError, this`error, this`dispatcherActive
      ensures calls == 0 <==> !HasReader(watchers)
      ensures AfterReads(calls, res, error, lastError, dispatcherActive,
                         old(error), old(lastError), old(dispatcherActive), mode)
    {
      ghost var error0, last0, active0 := error, lastError, dispatcherActive;
      res, calls := true, 0;
      var todo := watchers.Keys;
      while todo != {}
        invariant todo <= watchers.Keys
        invariant calls == 0 <==> forall fd :: fd in watchers && fd !in todo ==> !AnyRead(watchers[fd])
        invariant AfterReads(calls, res, error, lastError, dispatcherActive, error0, last0, active0, mode)
        decreases todo
      {
        var fd :| fd in todo;
        res, calls := ReadList(fd, watchers[fd], res, calls, error0, last0, active0);
        todo := todo - {fd};
      }
    }
  }

  /** The pending-call loop of objectDestroyed: the doomed calls go, and are reported as cancelled. */
  method DropDoomed(calls: map<PendingHandle, PendingCall>, obj: ObjectId)
    returns (r: map<PendingHandle, PendingCall>, cancelled: set<PendingHandle>)
    ensures r == Survivors(calls, obj)
    ensures cancelled == calls.Keys - r.Keys
  {
    var todo := calls.Keys;
    r, cancelled := calls, {};
    while todo != {}
      invariant todo <= calls.Keys
      invariant forall h :: h in r <==> h in calls && (h in todo || !Doomed(calls[h], obj))
      invariant forall h :: h in r ==> r[h] == calls[h]
      invariant cancelled == calls.Keys - r.Keys
      decreases todo
    {
      var h :| h in todo;
      if Doomed(r[h], obj) {
        r := r - {h};
        cancelled := cancelled + {h};
      }
      todo := todo - {h};
    }
    assert r.Keys == Survivors(calls, obj).Keys;
  }

  /** The pendingTimeouts loop of qDBusRemoveTimeout: erase at a match, step on otherwise. */
  method EraseTimeout(list: seq<TimeoutHandle>, t: TimeoutHandle) returns (r: seq<TimeoutHandle>)
    ensures r == Without(list, t)
  {
    r := list;
    var i := 0;
    while i < |r|
      invariant 0 <= i <= |r|
      invariant r[..i] + Without(r[i..], t) == Without(list, t)
      decreases |r| - i
    {
      var s := r;
      WithoutStep(s, i, t);
      if s[i] == t {
        r := s[..i] + s[i + 1..];
        assert r[..i] == s[..i];
        assert r[i..] == s[i + 1..];
      } else {
        i := i + 1;
      }
    }
    assert r[..i] == r;
  }

  /** One step of the erase loop: an erased occurrence or a kept element leaves the prefix plus the rest unchanged. */
  lemma WithoutStep(s: seq<TimeoutHandle>, i: nat, t: TimeoutHandle)
    requires i < |s|
    ensures s[i] == t ==> s[..i] + Without(s[i + 1..], t) == s[..i] + Without(s[i..], t)
    ensures s[i] != t ==> s[..i + 1] + Without(s[i + 1..], t) == s[..i] + Without(s[i..], t)
  {
    assert s[i..][1..] == s[i + 1..];
    assert s[..i + 1] == s[..i] + [s[i]];
  }

  /** The timer loop of qDBusRemoveTimeout: every timer driving `t` is killed and erased. */
  method KillTimers(timers: map<TimerId, TimeoutHandle>, t: TimeoutHandle) returns (r: map<TimerId, TimeoutHandle>, killed: set<TimerId>)
    ensures r == TimersWithout(timers, t)
    ensures killed == set id | id in timers && timers[id] == t
  {
    var todo := timers.Keys;
    r, killed := timers, {};
    while todo != {}
      invariant todo <= timers.Keys
      invariant forall id :: id in r <==> id in timers && (id in todo || timers[id] != t)
      invariant forall id :: id in r ==> r[id] == timers[id]
      invariant killed == set id | id in timers && id !in todo && timers[id] == t
      decreases todo
    {
      var id :| id in todo;
      if r[id] == t {
        r := r - {id};
        killed := killed + {id};
      }
      todo := todo - {id};
    }
    assert r.Keys == TimersWithout(timers, t).Keys;
  }

  /** The descriptor loop of purgeRemovedWatches. */
  method PurgeWatchers(watchers: map<Fd, seq<Watcher>>) returns (r: map<Fd, seq<Watcher>>)
    ensures r == Purged(watchers)
  {
    var todo := watchers.Keys;
    r := watchers;
    while todo != {}
      invariant todo <= watchers.Keys
      invariant forall fd :: fd in r <==> fd in watchers && (fd in todo || Live(watchers[fd]) != [])
      invariant forall fd :: fd in r ==> r[fd] == if fd in todo then watchers[fd] else Live(watchers[fd])
      decreases todo
    {
      var fd :| fd in todo;
      var live := LiveWatchers(r[fd]);
      if live == [] {
        r := r - {fd};
      } else {
        r := r[fd := live];
      }
      todo := todo - {fd};
    }
    assert r.Keys == Purged(watchers).Keys;
  }

  /** The inner loop of purgeRemovedWatches, advancing past live watchers and erasing dead ones. */
  method LiveWatchers(list: seq<Watcher>) returns (r: seq<Watcher>)
    ensures r == Live(list)
  {
    r := list;
    var i := 0;
    while i < |r|
      invariant 0 <= i <= |r|
      invariant r[..i] + Live(r[i..]) == Live(list)
      invariant forall j :: 0 <= j < i ==> !Dead(r[j])
      decreases |r| - i
    {
      var s := r;
      LiveStep(s, i);
      if Dead(s[i]) {
        r := s[..i] + s[i + 1..];
        assert r[..i] == s[..i];
        assert r[i..] == s[i + 1..];
      } else {
        i := i + 1;
      }
    }
    LiveSpec(r[i..]);
    assert r[..i] == r;
  }

  /** One step of the purge loop: an erased dead watcher or a kept live one leaves the prefix plus the rest unchanged. */
  lemma LiveStep(s: seq<Watcher>, i: nat)
    requires i < |s|
    ensures Dead(s[i]) ==> s[..i] + Live(s[i + 1..]) == s[..i] + Live(s[i..])
    ensures !Dead(s[i]) ==> s[..i + 1] + Live(s[i + 1..]) == s[..i] + Live(s[i..])
  {
    assert s[i..][1..] == s[i + 1..];
    assert s[..i + 1] == s[..i] + [s[i]];
  }
}
