/**
 * The command line of dbusxml2qt3: parseOptions turns the arguments into
 * an option map, or ends the program with an exit status; main then
 * decides from the map which kinds of files to generate.
 */
module Options {
  import opened Wrappers

  type OptionMap = map<string, string>

  /** What parseOptions comes to: the options, or exit(status) after a usage message. */
  datatype Outcome = Options(options: OptionMap) | Exit(status: int)

  predicate StartsWithDash(s: string) {
    |s| >= 1 && s[0] == '-'
  }

  predicate EndsWith(s: string, suffix: string) {
    |suffix| <= |s| && s[|s| - |suffix|..] == suffix
  }

  /** The option an argument names and whether it takes a value (None: an unknown option). */
  datatype Spec = Spec(key: string, mandatory: bool)

  /** The options that take an optional value (-p -i -n -N) and the one whose value is mandatory (-c). */
  function OptionFor(arg: string): (s: Option<Spec>)
    ensures s.Some? ==> s.value.key in KnownKeys
    ensures s.Some? && s.value.mandatory <==> arg == "-c" || arg == "--class"
  {
    if arg == "-p" || arg == "--proxy" then Some(Spec("proxy", false))
    else if arg == "-i" || arg == "--interface" then Some(Spec("interface", false))
    else if arg == "-n" || arg == "--node" then Some(Spec("node", false))
    else if arg == "-N" || arg == "--namespace" then Some(Spec("namespace", false))
    else if arg == "-c" || arg == "--class" then Some(Spec("classname", true))
    else None
  }

  /** Every key parseOptions can put in the map. */
  const KnownKeys: set<string> := {"proxy", "interface", "node", "namespace", "classname", "filename"}

  /** testAndSetOption: the first value set for an option is kept; a later one is refused. */
  function TestAndSetOption(options: OptionMap, option: string, value: string): (r: (bool, OptionMap))
    ensures r.0 <==> option !in options
    ensures r.0 ==> r.1 == options[option := value]
    ensures !r.0 ==> r.1 == options
  {
    if option !in options then (true, options[option := value]) else (false, options)
  }

  /** Setting an option twice keeps the first value, whatever the second. */
  lemma SecondSetRefused(options: OptionMap, option: string, first: string, second: string)
    requires option !in options
    ensures var (ok1, o1) := TestAndSetOption(options, option, first);
            var (ok2, o2) := TestAndSetOption(o1, option, second);
            ok1 && !ok2 && o2 == o1 && o2[option] == first
  {
  }

  /**
   * The loop of parseOptions from `args` on, with the options gathered so
   * far.  An argument ending in "help" exits with 0; an unknown option, a
   * -c without a value and a second file name exit with 1; an option given
   * twice is reported and parsing goes on with the first value.
   */
  function Parse(args: seq<string>, options: OptionMap): (r: Outcome)
    decreases |args|
  {
    if args == [] then Options(options)
    else
      var arg, rest := args[0], args[1..];
      if StartsWithDash(arg) then
        if EndsWith(arg, "help") then Exit(0)
        else match OptionFor(arg)
          case None => Exit(1)
          case Some(spec) =>
            var hasValue := rest != [] && !StartsWithDash(rest[0]);
            if spec.mandatory && !hasValue then Exit(1)
            else
              var value := if hasValue then rest[0] else "";
              var rest' := if hasValue then rest[1..] else rest;
              Parse(rest', TestAndSetOption(options, spec.key, value).1)
      else
        var (ok, options') := TestAndSetOption(options, "filename", arg);
        if !ok then Exit(1) else Parse(rest, options')
  }

  /** parseOptions: pops the arguments off the front one by one, as Parse describes. */
  method ParseOptions(argv: seq<string>) returns (r: Outcome)
    ensures r == Parse(argv, map[])
  {
    var args := argv;
    var options: OptionMap := map[];
    while args != []
      invariant Parse(args, options) == Parse(argv, map[])
      decreases |args|
    {
      var arg := args[0];
      args := args[1..];
      if StartsWithDash(arg) {
        if EndsWith(arg, "help") {
          return Exit(0);
        }
        var spec := OptionFor(arg);
        if spec.None? {
          return Exit(1);
        }
        var value := "";
        if args != [] && !StartsWithDash(args[0]) {
          value := args[0];
          args := args[1..];
        } else if spec.value.mandatory {
          return Exit(1);
        }
        options := TestAndSetOption(options, spec.value.key, value).1;
      } else {
        var (ok, options') := TestAndSetOption(options, "filename", arg);
        if !ok {
          return Exit(1);
        }
        options := options';
      }
    }
    return Options(options);
  }

  /** Parsing ends in a map of known options, or in exit status 0 or 1; options already set keep their values. */
  lemma {:induction false} ParseOutcome(args: seq<string>, options: OptionMap)
    decreases |args|
    ensures var r := Parse(args, options);
            (r.Exit? ==> r.status == 0 || r.status == 1)
            && (r.Options? ==> options.Keys <= r.options.Keys <= options.Keys + KnownKeys
                               && forall k :: k in options ==> r.options[k] == options[k])
  {
    if args != [] {
      var arg, rest := args[0], args[1..];
      if StartsWithDash(arg) {
        if !EndsWith(arg, "help") && OptionFor(arg).Some? {
          var spec := OptionFor(arg).value;
          var hasValue := rest != [] && !StartsWithDash(rest[0]);
          if !(spec.mandatory && !hasValue) {
            var value := if hasValue then rest[0] else "";
            var rest' := if hasValue then rest[1..] else rest;
            ParseOutcome(rest', TestAndSetOption(options, spec.key, value).1);
          }
        }
      } else if "filename" !in options {
        ParseOutcome(rest, options["filename" := arg]);
      }
    }
  }

  /** Any argument starting with a dash and ending in "help" ends parsing with status 0. */
  lemma HelpExitsZero(arg: string, rest: seq<string>, options: OptionMap)
    requires StartsWithDash(arg) && EndsWith(arg, "help")
    ensures Parse([arg] + rest, options) == Exit(0)
  {
    assert ([arg] + rest)[0] == arg;
  }

  /** A second file name ends parsing with status 1. */
  lemma SecondFileNameExits(first: string, second: string, rest: seq<string>)
    requires !StartsWithDash(first) && !StartsWithDash(second)
    ensures Parse([first, second] + rest, map[]) == Exit(1)
  {
    var args := [first, second] + rest;
    assert args[0] == first && args[1..] == [second] + rest;
    assert ([second] + rest)[0] == second;
  }

  /** -c with nothing after it, or with another option after it, ends parsing with status 1. */
  lemma ClassNeedsValue(arg: string, rest: seq<string>, options: OptionMap)
    requires arg == "-c" || arg == "--class"
    requires rest == [] || StartsWithDash(rest[0])
    ensures Parse([arg] + rest, options) == Exit(1)
  {
    var args := [arg] + rest;
    assert args[0] == arg && args[1..] == rest;
    assert !EndsWith(arg, "help");
  }

  /** No option of the table ends in "help", so none of them is read as a request for help. */
  lemma OptionIsNotHelp(arg: string)
    requires OptionFor(arg).Some?
    ensures StartsWithDash(arg) && !EndsWith(arg, "help")
  {
  }

  /**
   * An option with an optional value takes the next argument as its value
   * only when that argument is not an option; otherwise its value is empty.
   */
  lemma OptionalValue(arg: string, value: string, rest: seq<string>, options: OptionMap)
    requires OptionFor(arg).Some? && !OptionFor(arg).value.mandatory
    ensures var key := OptionFor(arg).value.key;
            !StartsWithDash(value) ==>
              Parse([arg, value] + rest, options) == Parse(rest, TestAndSetOption(options, key, value).1)
    ensures var key := OptionFor(arg).value.key;
            rest == [] || StartsWithDash(rest[0]) ==>
              Parse([arg] + rest, options) == Parse(rest, TestAndSetOption(options, key, "").1)
  {
    OptionIsNotHelp(arg);
    var args := [arg, value] + rest;
    assert args[0] == arg && args[1..] == [value] + rest;
    assert ([value] + rest)[0] == value && ([value] + rest)[1..] == rest;
    assert ([arg] + rest)[0] == arg && ([arg] + rest)[1..] == rest;
  }

  /** An option given again is reported and skipped, together with its value: parsing goes on with the first value. */
  lemma RepeatedOptionSkipped(arg: string, value: string, rest: seq<string>, options: OptionMap)
    requires OptionFor(arg).Some? && OptionFor(arg).value.key in options
    ensures !StartsWithDash(value) ==> Parse([arg, value] + rest, options) == Parse(rest, options)
    ensures !OptionFor(arg).value.mandatory && (rest == [] || StartsWithDash(rest[0])) ==>
              Parse([arg] + rest, options) == Parse(rest, options)
  {
    OptionIsNotHelp(arg);
    var args := [arg, value] + rest;
    assert args[0] == arg && args[1..] == [value] + rest;
    assert ([value] + rest)[0] == value && ([value] + rest)[1..] == rest;
    assert ([arg] + rest)[0] == arg && ([arg] + rest)[1..] == rest;
  }

  /** Which kinds of files main generates. */
  datatype Plan = Plan(proxies: bool, interfaces: bool, node: bool)

  /** With none of proxy, interface or node requested everything is generated; otherwise exactly what was requested. */
  function Generate(options: OptionMap): (p: Plan)
    ensures ("proxy" !in options && "interface" !in options && "node" !in options) ==> p == Plan(true, true, true)
    ensures ("proxy" in options || "interface" in options || "node" in options) ==>
              p == Plan("proxy" in options, "interface" in options, "node" in options)
  {
    var generateProxies := "proxy" in options;
    var generateInterfaces := "interface" in options;
    var generateNode := "node" in options;
    var generateAll := !(generateProxies || generateInterfaces || generateNode);
    Plan(generateProxies || generateAll, generateInterfaces || generateAll, generateNode || generateAll)
  }

  /** Something is always generated. */
  lemma GenerateSomething(options: OptionMap)
    ensures var p := Generate(options); p.proxies || p.interfaces || p.node
  {
  }
}
