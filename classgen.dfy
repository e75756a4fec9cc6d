/**
 * The parts of the dbusxml2qt3 class generator that work on the class
 * description rather than on output text: the string Set the include
 * lists are collected in, the splitting of asynchronous methods into a
 * call and a reply, and deriving the C++ class name and namespaces from
 * the D-Bus interface name.
 */
module ClassGen {
  import opened Wrappers
  import opened MethodGen

  datatype MethodType = MethodKind | SignalKind

  datatype Method = Method(name: string, kind: MethodType, arguments: seq<Argument>, noReply: bool, async: bool)

  // ----- Set -----

  /** `m` with every string of `list` inserted as a key mapped to true. */
  function WithAll(m: map<string, bool>, list: seq<string>): (r: map<string, bool>)
    ensures r.Keys == m.Keys + set s | s in list
    ensures forall k :: k in r ==> r[k] == (k in list || m[k])
  {
    map k | k in m.Keys + (set s | s in list) :: k in list || m[k]
  }

  /** Inserting a list is idempotent, and its order does not matter: only which strings it holds. */
  lemma WithAllIdempotent(m: map<string, bool>, list: seq<string>, other: seq<string>)
    ensures WithAll(WithAll(m, list), list) == WithAll(m, list)
    ensures (forall k :: k in list <==> k in other) ==> WithAll(m, list) == WithAll(m, other)
  {
    assert WithAll(WithAll(m, list), list).Keys == WithAll(m, list).Keys;
    if forall k :: k in list <==> k in other {
      assert WithAll(m, list).Keys == WithAll(m, other).Keys;
    }
  }

  /** Set: a TQMap from string to bool used as a set of strings. */
  class Set {
    var entries: map<string, bool>

    constructor ()
      ensures entries == map[]
    {
      entries := map[];
    }

    method InsertString(key: string)
      modifies this
      ensures entries == old(entries)[key := true]
    {
      entries := entries[key := true];
    }

    method RemoveString(key: string)
      modifies this
      ensures entries == old(entries) - {key}
    {
      entries := entries - {key};
    }

    /** insertStringList: every string of the list becomes a key. */
    method InsertStringList(list: seq<string>)
      modifies this
      ensures entries == WithAll(old(entries), list)
    {
      var i := 0;
      while i < |list|
        invariant 0 <= i <= |list|
        invariant entries == WithAll(old(entries), list[..i])
      {
        assert list[..i + 1] == list[..i] + [list[i]];
        entries := entries[list[i] := true];
        assert entries.Keys == WithAll(old(entries), list[..i + 1]).Keys;
        i := i + 1;
      }
      assert list[..i] == list;
    }
  }

  // ----- Asynchronous methods -----

  /** The asyncCallId argument: an int, primitive, in the given direction. */
  function IdArgument(direction: Direction): (a: Argument)
    ensures a.name == "asyncCallId" && a.signature == "int" && a.isPrimitive && a.direction == direction
  {
    Blank.(name := "asyncCallId", signature := "int", isPrimitive := true, direction := direction)
  }

  /** The arguments that are not Out, in order. */
  function Ins(args: seq<Argument>): (r: seq<Argument>)
    ensures forall a :: a in r ==> a in args && a.direction == In
  {
    if args == [] then []
    else Ins(args[..|args| - 1]) + (if args[|args| - 1].direction == Out then [] else [args[|args| - 1]])
  }

  /** The Out arguments, in order. */
  function Outs(args: seq<Argument>): (r: seq<Argument>)
    ensures forall a :: a in r ==> a in args && a.direction == Out
  {
    if args == [] then []
    else Outs(args[..|args| - 1]) + (if args[|args| - 1].direction == Out then [args[|args| - 1]] else [])
  }

  /** The same arguments retyped to In. */
  function AsIn(args: seq<Argument>): (r: seq<Argument>)
    ensures |r| == |args| && forall i :: 0 <= i < |r| ==> r[i] == args[i].(direction := In)
  {
    seq(|args|, i requires 0 <= i < |args| => args[i].(direction := In))
  }

  /** Every argument goes to exactly one side: the In ones to the call, the Out ones to the reply. */
  lemma {:induction false} InsOutsPartition(args: seq<Argument>)
    ensures multiset(Ins(args)) + multiset(Outs(args)) == multiset(args)
    ensures |Ins(args)| + |Outs(args)| == |args|
  {
    if args != [] {
      var init, last := args[..|args| - 1], args[|args| - 1];
      InsOutsPartition(init);
      assert args == init + [last];
    }
  }

  /** The arguments of an asynchronous call: the id first, then the In arguments. */
  function CallArguments(args: seq<Argument>, idDirection: Direction): seq<Argument>
  {
    [IdArgument(idDirection)] + Ins(args)
  }

  /** The arguments of the reply: an In id first, then the Out arguments retyped to In. */
  function ReplyArguments(args: seq<Argument>): seq<Argument>
  {
    [IdArgument(In)] + AsIn(Outs(args))
  }

  /** The inner loop of the split routines, over one method's arguments. */
  method SplitArguments(args: seq<Argument>, idDirection: Direction) returns (callArgs: seq<Argument>, replyArgs: seq<Argument>)
    ensures callArgs == CallArguments(args, idDirection)
    ensures replyArgs == ReplyArguments(args)
  {
    callArgs := [IdArgument(idDirection)];
    replyArgs := [IdArgument(In)];
    var i := 0;
    while i < |args|
      invariant 0 <= i <= |args|
      invariant callArgs == CallArguments(args[..i], idDirection)
      invariant replyArgs == ReplyArguments(args[..i])
    {
      assert args[..i + 1][..i] == args[..i];
      if args[i].direction == Out {
        replyArgs := replyArgs + [args[i].(direction := In)];
      } else {
        callArgs := callArgs + [args[i]];
      }
      i := i + 1;
    }
    assert args[..i] == args;
  }

  /** The asynchronous methods, in order. */
  function AsyncOnly(ms: seq<Method>): (r: seq<Method>)
    ensures forall m :: m in r ==> m in ms && m.async
    ensures |r| <= |ms|
  {
    if ms == [] then []
    else AsyncOnly(ms[..|ms| - 1]) + (if ms[|ms| - 1].async then [ms[|ms| - 1]] else [])
  }

  /** The call each method becomes: the same method, its arguments CallArguments. */
  function AsyncCalls(ms: seq<Method>, idDirection: Direction): (r: seq<Method>)
    ensures |r| == |ms|
  {
    seq(|ms|, i requires 0 <= i < |ms| => ms[i].(arguments := CallArguments(ms[i].arguments, idDirection)))
  }

  /** The reply each method becomes: the same method, its arguments ReplyArguments. */
  function AsyncReplies(ms: seq<Method>): (r: seq<Method>)
    ensures |r| == |ms|
  {
    seq(|ms|, i requires 0 <= i < |ms| => ms[i].(arguments := ReplyArguments(ms[i].arguments)))
  }

  /**
   * Each asynchronous method gives one call and one reply, at the same
   * position, with the same name, type and flags; between them they carry
   * every original argument once, plus an id each.  A method that is not
   * asynchronous gives neither.
   */
  lemma AsyncPairs(ms: seq<Method>, idDirection: Direction, i: nat)
    requires i < |AsyncOnly(ms)|
    ensures var m, call, reply := AsyncOnly(ms)[i], AsyncCalls(AsyncOnly(ms), idDirection)[i], AsyncReplies(AsyncOnly(ms))[i];
            m.async && m in ms
            && call.name == m.name == reply.name && call.kind == m.kind == reply.kind
            && call.arguments[0] == IdArgument(idDirection) && reply.arguments[0] == IdArgument(In)
            && |call.arguments| + |reply.arguments| == |m.arguments| + 2
            && multiset(call.arguments[1..]) + multiset(Outs(m.arguments)) == multiset(m.arguments)
  {
    var m := AsyncOnly(ms)[i];
    InsOutsPartition(m.arguments);
    assert CallArguments(m.arguments, idDirection)[1..] == Ins(m.arguments);
  }

  /** A list with no asynchronous method gives no calls and no replies. */
  lemma {:induction false} NoAsyncNothingSplit(ms: seq<Method>)
    requires forall m :: m in ms ==> !m.async
    ensures AsyncOnly(ms) == []
  {
    if ms != [] {
      assert ms[..|ms| - 1] <= ms;
      NoAsyncNothingSplit(ms[..|ms| - 1]);
      assert ms[|ms| - 1] in ms;
    }
  }

  /** The proxy and the interface split a method the same way except for the direction of the call's id. */
  lemma ProxyAndInterfaceCallsAgree(ms: seq<Method>, i: nat)
    requires i < |ms|
    ensures AsyncCalls(ms, Out)[i].arguments[1..] == AsyncCalls(ms, In)[i].arguments[1..]
    ensures AsyncCalls(ms, Out)[i].arguments[0].direction == Out && AsyncCalls(ms, In)[i].arguments[0].direction == In
  {
    assert AsyncCalls(ms, Out)[i].arguments[1..] == Ins(ms[i].arguments);
    assert AsyncCalls(ms, In)[i].arguments[1..] == Ins(ms[i].arguments);
  }

  /** Class: the description of one interface the generator writes code for. */
  class ClassData {
    var name: string
    var dbusName: string
    var namespaces: seq<string>
    var methods: seq<Method>
    var msignals: seq<Method>
    var asyncMethods: seq<Method>
    var asyncReplySignals: seq<Method>
    var asyncReplyMethods: seq<Method>

    constructor (methods: seq<Method>)
      ensures this.methods == methods && name == "" && dbusName == "" && namespaces == [] && msignals == []
      ensures asyncMethods == [] && asyncReplySignals == [] && asyncReplyMethods == []
    {
      this.methods := methods;
      name, dbusName, namespaces, msignals := "", "", [], [];
      asyncMethods, asyncReplySignals, asyncReplyMethods := [], [], [];
    }
  }

  lemma CallsStep(done: seq<Method>, m: Method, d: Direction)
    ensures AsyncCalls(done + [m], d) == AsyncCalls(done, d) + [m.(arguments := CallArguments(m.arguments, d))]
    ensures AsyncReplies(done + [m]) == AsyncReplies(done) + [m.(arguments := ReplyArguments(m.arguments))]
  {
  }

  /** One step of the outer loop over the methods: the filtered, split list grows by the new method when it is asynchronous. */
  lemma AsyncStep(ms: seq<Method>, i: nat)
    requires i < |ms|
    ensures AsyncOnly(ms[..i + 1]) == AsyncOnly(ms[..i]) + (if ms[i].async then [ms[i]] else [])
  {
    assert ms[..i + 1][..i] == ms[..i];
  }

  /**
   * The outer loop of both split routines: for each asynchronous method,
   * in order, its call (with an id of the given direction) and its reply.
   */
  method SplitAll(ms: seq<Method>, idDirection: Direction) returns (calls: seq<Method>, replies: seq<Method>)
    ensures calls == AsyncCalls(AsyncOnly(ms), idDirection)
    ensures replies == AsyncReplies(AsyncOnly(ms))
  {
    calls, replies := [], [];
    var i := 0;
    while i < |ms|
      invariant 0 <= i <= |ms|
      invariant calls == AsyncCalls(AsyncOnly(ms[..i]), idDirection)
      invariant replies == AsyncReplies(AsyncOnly(ms[..i]))
    {
      AsyncStep(ms, i);
      if ms[i].async {
        CallsStep(AsyncOnly(ms[..i]), ms[i], idDirection);
        var callArgs, replyArgs := SplitArguments(ms[i].arguments, idDirection);
        var call := ms[i].(arguments := callArgs);
        calls := calls + [call];
        replies := replies + [call.(arguments := replyArgs)];
      }
      i := i + 1;
    }
    assert ms[..i] == ms;
  }

  /**
   * splitAsyncProxyMethods: each asynchronous method is appended to
   * asyncMethods as a call with an Out id, and to asyncReplySignals as a
   * signal with an In id carrying the Out arguments.
   */
  method SplitAsyncProxyMethods(c: ClassData)
    modifies c`asyncMethods, c`asyncReplySignals
    ensures c.asyncMethods == old(c.asyncMethods) + AsyncCalls(AsyncOnly(c.methods), Out)
    ensures c.asyncReplySignals == old(c.asyncReplySignals) + AsyncReplies(AsyncOnly(c.methods))
  {
    var calls, signals := SplitAll(c.methods, Out);
    c.asyncMethods := c.asyncMethods + calls;
    c.asyncReplySignals := c.asyncReplySignals + signals;
  }

  /**
   * splitAsyncInterfaceMethods: each asynchronous method is appended to
   * asyncMethods as a call with an In id, and to asyncReplyMethods as a
   * reply handler with an In id carrying the Out arguments.
   */
  method SplitAsyncInterfaceMethods(c: ClassData)
    modifies c`asyncMethods, c`asyncReplyMethods
    ensures c.asyncMethods == old(c.asyncMethods) + AsyncCalls(AsyncOnly(c.methods), In)
    ensures c.asyncReplyMethods == old(c.asyncReplyMethods) + AsyncReplies(AsyncOnly(c.methods))
  {
    var calls, replies := SplitAll(c.methods, In);
    c.asyncMethods := c.asyncMethods + calls;
    c.asyncReplyMethods := c.asyncReplyMethods + replies;
  }

  // ----- Class names -----

  /** The position of the first `c` in `s`, -1 when there is none. */
  function FindFirst(s: string, c: char): (i: int)
    ensures -1 <= i < |s|
    ensures i >= 0 ==> s[i] == c && forall j :: 0 <= j < i ==> s[j] != c
    ensures i == -1 ==> c !in s
  {
    if s == [] then -1
    else if s[0] == c then 0
    else var k := FindFirst(s[1..], c); if k == -1 then -1 else k + 1
  }

  /** TQStringList::split('.', s): the maximal dot-free pieces of `s`, empty ones dropped. */
  function SplitDots(s: string): (parts: seq<string>)
    decreases |s|
    ensures forall p :: p in parts ==> p != "" && '.' !in p
  {
    if s == [] then []
    else
      var i := FindFirst(s, '.');
      if i == -1 then [s]
      else (if i == 0 then [] else [s[..i]]) + SplitDots(s[i + 1..])
  }

  /** The parts joined with dots. */
  function JoinDots(parts: seq<string>): string
  {
    if parts == [] then "" else if |parts| == 1 then parts[0] else parts[0] + "." + JoinDots(parts[1..])
  }

  /** Splitting undoes joining for non-empty, dot-free parts. */
  lemma {:induction false} SplitJoin(parts: seq<string>)
    requires forall p :: p in parts ==> p != "" && '.' !in p
    ensures SplitDots(JoinDots(parts)) == parts
  {
    if |parts| == 1 {
      assert parts[0] in parts;
      assert FindFirst(parts[0], '.') == -1;
    } else if |parts| > 1 {
      var p, rest := parts[0], JoinDots(parts[1..]);
      var s := p + "." + rest;
      assert p in parts;
      assert s[|p|] == '.';
      forall j | 0 <= j < |p|
        ensures s[j] != '.'
      {
        assert s[j] == p[j] && p[j] in p;
      }
      assert FindFirst(s, '.') == |p|;
      assert s[..|p|] == p && s[|p| + 1..] == rest;
      assert forall q :: q in parts[1..] ==> q in parts;
      SplitJoin(parts[1..]);
      assert SplitDots(s) == [p] + SplitDots(rest);
      assert [p] + parts[1..] == parts;
    }
  }

  /**
   * The class name and namespaces extractClass derives from an interface
   * name: none with fewer than two dot-separated parts; otherwise the last
   * part names the class and the others are its namespaces.
   */
  function ClassName(dbusName: string): (r: Option<(string, seq<string>)>)
    ensures r.None? <==> |SplitDots(dbusName)| < 2
    ensures r.Some? ==> r.value.1 + [r.value.0] == SplitDots(dbusName) && |r.value.1| >= 1
  {
    var parts := SplitDots(dbusName);
    if |parts| < 2 then None else Some((parts[|parts| - 1], parts[..|parts| - 1]))
  }

  /** An interface name made of namespaces and a class name gives back exactly those. */
  lemma ClassNameRoundTrip(namespaces: seq<string>, name: string)
    requires |namespaces| >= 1
    requires forall p :: p in namespaces + [name] ==> p != "" && '.' !in p
    ensures ClassName(JoinDots(namespaces + [name])) == Some((name, namespaces))
  {
    SplitJoin(namespaces + [name]);
    assert (namespaces + [name])[..|namespaces|] == namespaces;
  }

  /** A name without a dot is refused. */
  lemma NoDotNoClass(dbusName: string)
    requires '.' !in dbusName
    ensures ClassName(dbusName).None?
  {
    assert FindFirst(dbusName, '.') == -1;
  }

  /**
   * extractClass, up to the call that extracts the methods: the D-Bus name
   * is always recorded; class name and namespaces are set only when the
   * name has at least two parts.
   */
  method ExtractClass(c: ClassData, interfaceName: string) returns (ok: bool)
    modifies c`dbusName, c`name, c`namespaces
    ensures c.dbusName == interfaceName
    ensures ok <==> ClassName(interfaceName).Some?
    ensures ok ==> c.name == ClassName(interfaceName).value.0 && c.namespaces == ClassName(interfaceName).value.1
    ensures !ok ==> c.name == old(c.name) && c.namespaces == old(c.namespaces)
  {
    c.dbusName := interfaceName;
    var nameParts := SplitDots(c.dbusName);
    if |nameParts| < 2 {
      return false;
    }
    c.name := nameParts[|nameParts| - 1];
    c.namespaces := nameParts[..|nameParts| - 1];
    return true;
  }
}
