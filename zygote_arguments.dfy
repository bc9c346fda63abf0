/**
 * ZygoteConnection.Arguments: the flags at the head of a spawn request,
 * parsed left to right into one record.
 *
 * The parse is specified by the pure functions FlagStep (one flag), ParseLoop
 * (the loop over the flags) and Parse (the whole of parseArgs). The class
 * Arguments holds the record as mutable fields, as the source does, and its
 * method ParseArgs is proved to compute exactly Parse.
 */
module ZygoteArguments {
  import opened Wrappers
  import opened JavaLang

  /**
   * The debugFlags bits of dalvik.system.Zygote. The model keeps debugFlags
   * as the set of flags whose bit is on; DebugWord is the int handed to the fork.
   */
  datatype DebugFlag = EnableDebugger | EnableCheckJni | EnableAssert

  function DebugBit(f: DebugFlag): nat {
    match f
    case EnableDebugger => 1
    case EnableCheckJni => 2
    case EnableAssert => 4
  }

  /** The bitwise or of the bits of the flags in fs. */
  function DebugWord(fs: set<DebugFlag>): (w: nat)
    ensures w < 8
    ensures forall f :: f in fs <==> (w / DebugBit(f)) % 2 == 1
  {
    (if EnableDebugger in fs then 1 else 0) + (if EnableCheckJni in fs then 2 else 0)
    + (if EnableAssert in fs then 4 else 0)
  }

  /** One --rlimit=r,c,m tuple for setrlimit(). */
  datatype Rlimit = Rlimit(resource: int, cur: int, max: int)

  /** The capability sets of --capabilities=, permitted first. */
  datatype CapSets = CapSets(permitted: bv64, effective: bv64)

  /** The IllegalArgumentExceptions parseArgs throws. */
  datatype ArgError =
    | DuplicateArg               // "Duplicate arg specified"
    | NumberFormat               // Integer.parseInt or Long.decode refused a value
    | RlimitArity                // "--rlimit= should have 3 comma-delimited ints"
    | ClasspathRequiresArgument  // "-classpath requires argument"
    | RuntimeInitWithClasspath   // "--runtime-init and -classpath are incompatible"

  /** The fields of an Arguments object; None where the source holds null. */
  datatype ArgsValue = ArgsValue(
    uid: int, uidSpecified: bool,
    gid: int, gidSpecified: bool,
    gids: Option<seq<int>>,
    peerWait: bool,
    debugFlags: set<DebugFlag>,
    classpath: Option<string>,
    runtimeInit: bool,
    capabilitiesSpecified: bool,
    permittedCapabilities: bv64,
    effectiveCapabilities: bv64,
    rlimits: Option<seq<Rlimit>>,
    remainingArgs: seq<string>)

  /** A newly constructed Arguments object, before parseArgs runs. */
  const INITIAL: ArgsValue :=
    ArgsValue(0, false, 0, false, None, false, {}, None, false, false, 0, 0, None, [])

  /** Which branch of the parseArgs if-chain an argument takes, tested in the source's order. */
  datatype FlagKind =
    | Separator | SetUid | SetGid | Debug(flag: DebugFlag) | PeerWait | RuntimeInit
    | Capabilities | RlimitFlag | Classpath | SetGroups | Positional

  function Classify(arg: string): FlagKind
  {
    if Equals(arg, "--") then Separator
    else if StartsWith(arg, "--setuid=") then SetUid
    else if StartsWith(arg, "--setgid=") then SetGid
    else if Equals(arg, "--enable-debugger") then Debug(EnableDebugger)
    else if Equals(arg, "--enable-checkjni") then Debug(EnableCheckJni)
    else if Equals(arg, "--enable-assert") then Debug(EnableAssert)
    else if Equals(arg, "--peer-wait") then PeerWait
    else if Equals(arg, "--runtime-init") then RuntimeInit
    else if StartsWith(arg, "--capabilities=") then Capabilities
    else if StartsWith(arg, "--rlimit=") then RlimitFlag
    else if Equals(arg, "-classpath") then Classpath
    else if StartsWith(arg, "--setgroups=") then SetGroups
    else Positional
  }

  /** Whether parseArgs treats arg as one of its own flags rather than the first remaining argument. */
  predicate Recognised(arg: string) {
    Classify(arg) != Positional
  }

  // Each spelling reaches its own branch of the chain: every earlier test
  // fails on it, because every earlier spelling differs from it at some position.

  /** "--" is the separator, and only it; --setuid= and --setgid= reach their own branches. */
  lemma ClassifyIds(arg: string)
    ensures Equals(arg, "--") <==> Classify(arg) == Separator
    ensures StartsWith(arg, "--setuid=") ==> Classify(arg) == SetUid
    ensures StartsWith(arg, "--setgid=") ==> Classify(arg) == SetGid
  {
    if StartsWith(arg, "--setgid=") {
      StartsWithExcludes(arg, "--setgid=", "--setuid=", 5);
    }
  }

  /** The three debug flags reach the Debug branch with their own flag. */
  lemma ClassifyDebug(arg: string)
    ensures Equals(arg, "--enable-debugger") ==> Classify(arg) == Debug(EnableDebugger)
    ensures Equals(arg, "--enable-checkjni") ==> Classify(arg) == Debug(EnableCheckJni)
    ensures Equals(arg, "--enable-assert") ==> Classify(arg) == Debug(EnableAssert)
  {
    if Equals(arg, "--enable-debugger") {
      StartsWithExcludes(arg, "--enable-debugger", "--setuid=", 2);
      StartsWithExcludes(arg, "--enable-debugger", "--setgid=", 2);
    }
    if Equals(arg, "--enable-checkjni") {
      StartsWithExcludes(arg, "--enable-checkjni", "--setuid=", 2);
      StartsWithExcludes(arg, "--enable-checkjni", "--setgid=", 2);
      StartsWithExcludes(arg, "--enable-checkjni", "--enable-debugger", 9);
    }
    if Equals(arg, "--enable-assert") {
      StartsWithExcludes(arg, "--enable-assert", "--setuid=", 2);
      StartsWithExcludes(arg, "--enable-assert", "--setgid=", 2);
      StartsWithExcludes(arg, "--enable-assert", "--enable-debugger", 9);
      StartsWithExcludes(arg, "--enable-assert", "--enable-checkjni", 9);
    }
  }

  /** --peer-wait and --runtime-init reach their own branches. */
  lemma ClassifyPeerWaitRuntimeInit(arg: string)
    ensures Equals(arg, "--peer-wait") ==> Classify(arg) == PeerWait
    ensures Equals(arg, "--runtime-init") ==> Classify(arg) == RuntimeInit
  {
    if Equals(arg, "--peer-wait") {
      StartsWithExcludes(arg, "--peer-wait", "--setuid=", 2);
      StartsWithExcludes(arg, "--peer-wait", "--setgid=", 2);
      StartsWithExcludes(arg, "--peer-wait", "--enable-debugger", 2);
      StartsWithExcludes(arg, "--peer-wait", "--enable-checkjni", 2);
      StartsWithExcludes(arg, "--peer-wait", "--enable-assert", 2);
    }
    if Equals(arg, "--runtime-init") {
      StartsWithExcludes(arg, "--runtime-init", "--setuid=", 2);
      StartsWithExcludes(arg, "--runtime-init", "--setgid=", 2);
      StartsWithExcludes(arg, "--runtime-init", "--enable-debugger", 2);
      StartsWithExcludes(arg, "--runtime-init", "--enable-checkjni", 2);
      StartsWithExcludes(arg, "--runtime-init", "--enable-assert", 2);
      StartsWithExcludes(arg, "--runtime-init", "--peer-wait", 2);
    }
  }

  /** --capabilities= reaches its own branch. */
  lemma ClassifyCapabilities(arg: string)
    ensures StartsWith(arg, "--capabilities=") ==> Classify(arg) == Capabilities
  {
    if StartsWith(arg, "--capabilities=") {
      StartsWithExcludes(arg, "--capabilities=", "--setuid=", 2);
      StartsWithExcludes(arg, "--capabilities=", "--setgid=", 2);
      StartsWithExcludes(arg, "--capabilities=", "--enable-debugger", 2);
      StartsWithExcludes(arg, "--capabilities=", "--enable-checkjni", 2);
      StartsWithExcludes(arg, "--capabilities=", "--enable-assert", 2);
      StartsWithExcludes(arg, "--capabilities=", "--peer-wait", 2);
      StartsWithExcludes(arg, "--capabilities=", "--runtime-init", 2);
    }
  }

  /** --rlimit= reaches its own branch. */
  lemma ClassifyRlimit(arg: string)
    ensures StartsWith(arg, "--rlimit=") ==> Classify(arg) == RlimitFlag
  {
    if StartsWith(arg, "--rlimit=") {
      StartsWithExcludes(arg, "--rlimit=", "--setuid=", 2);
      StartsWithExcludes(arg, "--rlimit=", "--setgid=", 2);
      StartsWithExcludes(arg, "--rlimit=", "--enable-debugger", 2);
      StartsWithExcludes(arg, "--rlimit=", "--enable-checkjni", 2);
      StartsWithExcludes(arg, "--rlimit=", "--enable-assert", 2);
      StartsWithExcludes(arg, "--rlimit=", "--peer-wait", 2);
      StartsWithExcludes(arg, "--rlimit=", "--runtime-init", 3);
      StartsWithExcludes(arg, "--rlimit=", "--capabilities=", 2);
    }
  }

  /** -classpath, with its single dash, reaches its own branch. */
  lemma ClassifyClasspath(arg: string)
    ensures Equals(arg, "-classpath") ==> Classify(arg) == Classpath
  {
    if Equals(arg, "-classpath") {
      StartsWithExcludes(arg, "-classpath", "--", 1);
      StartsWithExcludes(arg, "-classpath", "--setuid=", 1);
      StartsWithExcludes(arg, "-classpath", "--setgid=", 1);
      StartsWithExcludes(arg, "-classpath", "--enable-debugger", 1);
      StartsWithExcludes(arg, "-classpath", "--enable-checkjni", 1);
      StartsWithExcludes(arg, "-classpath", "--enable-assert", 1);
      StartsWithExcludes(arg, "-classpath", "--peer-wait", 1);
      StartsWithExcludes(arg, "-classpath", "--runtime-init", 1);
      StartsWithExcludes(arg, "-classpath", "--capabilities=", 1);
      StartsWithExcludes(arg, "-classpath", "--rlimit=", 1);
    }
  }

  /** --setgroups= reaches its own branch. */
  lemma ClassifySetGroups(arg: string)
    ensures StartsWith(arg, "--setgroups=") ==> Classify(arg) == SetGroups
  {
    if StartsWith(arg, "--setgroups=") {
      StartsWithExcludes(arg, "--setgroups=", "--setuid=", 5);
      StartsWithExcludes(arg, "--setgroups=", "--setgid=", 6);
      StartsWithExcludes(arg, "--setgroups=", "--enable-debugger", 2);
      StartsWithExcludes(arg, "--setgroups=", "--enable-checkjni", 2);
      StartsWithExcludes(arg, "--setgroups=", "--enable-assert", 2);
      StartsWithExcludes(arg, "--setgroups=", "--peer-wait", 2);
      StartsWithExcludes(arg, "--setgroups=", "--runtime-init", 2);
      StartsWithExcludes(arg, "--setgroups=", "--capabilities=", 2);
      StartsWithExcludes(arg, "--setgroups=", "--rlimit=", 2);
      StartsWithExcludes(arg, "--setgroups=", "-classpath", 1);
    }
  }

  /** Integer.parseInt applied to every string; None if any of them is refused. */
  function ParseAll(ss: seq<string>): (r: Option<seq<int>>)
    ensures r.Some? ==> |r.value| == |ss|
  {
    if |ss| == 0 then Some([])
    else
      var head := ParseInt(ss[0]);
      var tail := ParseAll(ss[1..]);
      if head.Some? && tail.Some? then Some([head.value] + tail.value) else None
  }

  /** ParseAll succeeds exactly when every string parses, and then holds each value in order. */
  lemma {:induction false} ParseAllParsesEach(ss: seq<string>)
    ensures ParseAll(ss).Some? <==> forall k :: 0 <= k < |ss| ==> ParseInt(ss[k]).Some?
    ensures ParseAll(ss).Some? ==> forall k :: 0 <= k < |ss| ==> ParseAll(ss).value[k] == ParseInt(ss[k]).value
  {
    if |ss| > 0 {
      ParseAllParsesEach(ss[1..]);
      assert forall k :: 1 <= k < |ss| ==> ss[k] == ss[1..][k - 1];
    }
  }

  /** The value of --capabilities=: "e" sets both sets to e, "p,e" sets them apart. */
  function CapabilitySets(value: string): Option<CapSets> {
    var parts := SplitLimit2(value);
    if |parts| == 1 then
      match DecodeLong(parts[0])
      case None => None
      case Some(e) => Some(CapSets(ToBits64(e), ToBits64(e)))
    else
      match DecodeLong(parts[0])
      case None => None
      case Some(p) =>
        match DecodeLong(parts[1])
        case None => None
        case Some(e) => Some(CapSets(ToBits64(p), ToBits64(e)))
  }

  /** A value without a comma gives both sets the same bits; "p,e" gives each its own part. */
  lemma CapabilitySetsParts(value: string)
    ensures ',' !in value ==> CapabilitySets(value) == (match DecodeLong(value)
                                                          case None => None
                                                          case Some(e) => Some(CapSets(ToBits64(e), ToBits64(e))))
    ensures forall p, e :: ',' !in p && value == p + "," + e ==>
      CapabilitySets(value) == (if DecodeLong(p).None? || DecodeLong(e).None? then None
                                else Some(CapSets(ToBits64(DecodeLong(p).value), ToBits64(DecodeLong(e).value))))
  {
    SplitLimit2Parts(value);
    forall p, e | ',' !in p && value == p + "," + e
      ensures SplitLimit2(value) == [p, e]
    {
      var k := IndexOf(value, ',');
      IndexOfFindsFirst(value, ',');
      assert value[|p|] == ',';
      assert value[..|p|] == p;
      assert k == |p|;
      assert value[k + 1..] == e;
    }
  }

  /** The three comma-separated ints of an --rlimit= value, as split. */
  function RlimitOfParts(parts: seq<string>): (r: Result<Rlimit, ArgError>)
    ensures |parts| != 3 ==> r == Err(RlimitArity)
    ensures r.Ok? ==>
      && |parts| == 3
      && ParseInt(parts[0]).Some? && ParseInt(parts[1]).Some? && ParseInt(parts[2]).Some?
      && r.value == Rlimit(ParseInt(parts[0]).value, ParseInt(parts[1]).value, ParseInt(parts[2]).value)
    ensures |parts| == 3 && ParseInt(parts[0]).Some? && ParseInt(parts[1]).Some? && ParseInt(parts[2]).Some? ==> r.Ok?
  {
    if |parts| != 3 then Err(RlimitArity)
    else if ParseInt(parts[0]).None? || ParseInt(parts[1]).None? || ParseInt(parts[2]).None? then Err(NumberFormat)
    else Ok(Rlimit(ParseInt(parts[0]).value, ParseInt(parts[1]).value, ParseInt(parts[2]).value))
  }

  /** The value of --rlimit=. */
  function RlimitOf(value: string): Result<Rlimit, ArgError> {
    RlimitOfParts(Split(value))
  }

  /** The tuples in an rlimits list, none when it is null. */
  function Listed(rlimits: Option<seq<Rlimit>>): seq<Rlimit> {
    if rlimits.Some? then rlimits.value else []
  }

  /** What one flag does: go on past width arguments, stop after width of them, or reject the request. */
  datatype Step = Next(a: ArgsValue, width: nat) | Stop(a: ArgsValue, width: nat) | Reject(error: ArgError)

  /**
   * One turn of the parseArgs loop: arg is the current argument, following
   * the one after it if there is one (only -classpath looks at it).
   */
  function FlagStep(arg: string, following: Option<string>, a: ArgsValue): (s: Step)
    ensures s.Next? ==> 1 <= s.width <= 2 && (s.width == 2 ==> following.Some?)
    ensures s.Stop? ==> s.width <= 1 && s.a == a
    ensures (s.Stop? && s.width == 0) <==> !Recognised(arg)
    ensures (s.Stop? && s.width == 1) <==> Equals(arg, "--")
    ensures s.Reject? ==> s.error != RuntimeInitWithClasspath
  {
    KindStep(Classify(arg), arg, following, a)
  }

  /** The branch of the parseArgs loop body for an argument of the given kind. */
  function KindStep(kind: FlagKind, arg: string, following: Option<string>, a: ArgsValue): (s: Step)
    ensures s.Stop? <==> kind.Separator? || kind.Positional?
    ensures s.Stop? ==> s.a == a && s.width == if kind.Separator? then 1 else 0
    ensures s.Next? ==> s.width == if kind.Classpath? then 2 else 1
    ensures s.Reject? ==> s.error != RuntimeInitWithClasspath
  {
    match kind
    case Separator => Stop(a, 1)
    case SetUid =>
      if a.uidSpecified then Reject(DuplicateArg)
      else if ParseInt(AfterEquals(arg)).None? then Reject(NumberFormat)
      else Next(a.(uidSpecified := true, uid := ParseInt(AfterEquals(arg)).value), 1)
    case SetGid =>
      if a.gidSpecified then Reject(DuplicateArg)
      else if ParseInt(AfterEquals(arg)).None? then Reject(NumberFormat)
      else Next(a.(gidSpecified := true, gid := ParseInt(AfterEquals(arg)).value), 1)
    case Debug(f) => Next(a.(debugFlags := a.debugFlags + {f}), 1)
    case PeerWait => Next(a.(peerWait := true), 1)
    case RuntimeInit => Next(a.(runtimeInit := true), 1)
    case Capabilities =>
      var caps := CapabilitySets(AfterEquals(arg));
      if a.capabilitiesSpecified then Reject(DuplicateArg)
      else if caps.None? then Reject(NumberFormat)
      else
        Next(a.(capabilitiesSpecified := true, permittedCapabilities := caps.value.permitted,
                effectiveCapabilities := caps.value.effective), 1)
    case RlimitFlag =>
      var r := RlimitOf(AfterEquals(arg));
      if r.Err? then Reject(r.error)
      else Next(a.(rlimits := Some(Listed(a.rlimits) + [r.value])), 1)
    case Classpath =>
      if a.classpath.Some? then Reject(DuplicateArg)
      else if following.None? then Reject(ClasspathRequiresArgument)
      else Next(a.(classpath := following), 2)
    case SetGroups =>
      var gs := ParseAll(Split(AfterEquals(arg)));
      if a.gids.Some? then Reject(DuplicateArg)
      else if gs.None? then Reject(NumberFormat)
      else Next(a.(gids := gs), 1)
    case Positional => Stop(a, 0)
  }

  /** How the flag loop ends: rejected, or stopped with the record and the position of the first argument left over. */
  datatype LoopEnd = Failed(error: ArgError) | Ended(a: ArgsValue, stop: nat)

  /** The argument after position i, if there is one. */
  function Following(args: seq<string>, i: nat): Option<string> {
    if i + 1 < |args| then Some(args[i + 1]) else None
  }

  /** The parseArgs loop from position curArg of args with record a. */
  function ParseLoop(args: seq<string>, curArg: nat, a: ArgsValue): (r: LoopEnd)
    requires curArg <= |args|
    ensures r.Ended? ==> curArg <= r.stop <= |args|
    ensures r.Failed? ==> r.error != RuntimeInitWithClasspath
    decreases |args| - curArg, 1
  {
    if curArg == |args| then Ended(a, curArg) else Turn(args, curArg, a)
  }

  /** One turn of the loop at curArg, and the loop after it. */
  function Turn(args: seq<string>, curArg: nat, a: ArgsValue): (r: LoopEnd)
    requires curArg < |args|
    ensures r.Ended? ==> curArg <= r.stop <= |args|
    ensures r.Failed? ==> r.error != RuntimeInitWithClasspath
    decreases |args| - curArg, 0
  {
    var s := FlagStep(args[curArg], Following(args, curArg), a);
    if s.Next? then ParseLoop(args, curArg + s.width, s.a)
    else if s.Stop? then Ended(s.a, curArg + s.width)
    else Failed(s.error)
  }

  /** What follows the loop in parseArgs: the incompatibility check and the copy of the remaining arguments. */
  function Finish(args: seq<string>, end: LoopEnd): Result<ArgsValue, ArgError>
    requires end.Ended? ==> end.stop <= |args|
  {
    match end
    case Failed(e) => Err(e)
    case Ended(a, stop) =>
      if a.runtimeInit && a.classpath.Some? then Err(RuntimeInitWithClasspath)
      else Ok(a.(remainingArgs := args[stop..]))
  }

  /**
   * new Arguments(args): the record parseArgs builds, or the
   * IllegalArgumentException it throws. The remaining arguments are always
   * a suffix of args, and runtime-init never comes with a classpath.
   */
  function Parse(args: seq<string>): (r: Result<ArgsValue, ArgError>)
    ensures r.Ok? ==> |r.value.remainingArgs| <= |args|
                      && r.value.remainingArgs == args[|args| - |r.value.remainingArgs|..]
    ensures r.Ok? ==> !(r.value.runtimeInit && r.value.classpath.Some?)
  {
    Finish(args, ParseLoop(args, 0, INITIAL))
  }

  // ---------------------------------------------------------------------
  // What one flag does

  /** The flags that may appear only once. */
  predicate OnlyOnce(k: FlagKind) {
    k.SetUid? || k.SetGid? || k.Capabilities? || k.SetGroups? || k.Classpath?
  }

  /** The field of the record that says a flag that may appear only once has been given. */
  predicate Given(k: FlagKind, a: ArgsValue) {
    match k
    case SetUid => a.uidSpecified
    case SetGid => a.gidSpecified
    case Capabilities => a.capabilitiesSpecified
    case SetGroups => a.gids.Some?
    case Classpath => a.classpath.Some?
    case _ => false
  }

  /** Once accepted, a flag that may appear only once has marked its field as given. */
  lemma StepMarksGiven(k: FlagKind, arg: string, following: Option<string>, a: ArgsValue)
    requires OnlyOnce(k)
    ensures KindStep(k, arg, following, a).Next? ==> Given(k, KindStep(k, arg, following, a).a)
  {
  }

  /** A flag that may appear only once is rejected when its field is already given. */
  lemma RepeatRejected(k: FlagKind, arg: string, following: Option<string>, a: ArgsValue)
    requires Given(k, a)
    ensures KindStep(k, arg, following, a) == Reject(DuplicateArg)
  {
  }

  /** A debug flag turns its bit on and changes nothing else; when the bit is already on it changes nothing. */
  lemma DebugFlagStep(arg: string, following: Option<string>, a: ArgsValue)
    requires Classify(arg).Debug?
    ensures var s := FlagStep(arg, following, a);
      && s.Next? && s.width == 1
      && s.a.debugFlags == a.debugFlags + {Classify(arg).flag}
      && s.a.(debugFlags := a.debugFlags) == a
      && (Classify(arg).flag in a.debugFlags ==> s.a == a)
  {
  }

  /**
   * --rlimit= is never a duplicate: a value of three ints appends its tuple
   * to the list, creating it when null; any other number of parts is rejected.
   */
  lemma RlimitStep(arg: string, following: Option<string>, a: ArgsValue)
    requires Classify(arg) == RlimitFlag
    ensures var s := FlagStep(arg, following, a); var parts := Split(AfterEquals(arg));
      && (|parts| != 3 ==> s == Reject(RlimitArity))
      && (s.Reject? ==> s.error == RlimitArity || s.error == NumberFormat)
      && (|parts| == 3 && ParseInt(parts[0]).Some? && ParseInt(parts[1]).Some? && ParseInt(parts[2]).Some? ==>
            s == Next(a.(rlimits := Some(Listed(a.rlimits) +
                     [Rlimit(ParseInt(parts[0]).value, ParseInt(parts[1]).value, ParseInt(parts[2]).value)])), 1))
  {
  }

  /** -classpath takes the argument after it as its value, and needs one. */
  lemma ClasspathStep(arg: string, following: Option<string>, a: ArgsValue)
    requires Classify(arg) == Classpath && a.classpath.None?
    ensures following.None? ==> FlagStep(arg, following, a) == Reject(ClasspathRequiresArgument)
    ensures following.Some? ==> FlagStep(arg, following, a) == Next(a.(classpath := following), 2)
  {
  }

  // ---------------------------------------------------------------------
  // The loop

  /** The loop stops at a "--", consuming it, and at an unrecognised argument, keeping it. */
  lemma ParseLoopStopsAt(args: seq<string>, curArg: nat, a: ArgsValue)
    requires curArg < |args|
    ensures Equals(args[curArg], "--") ==> ParseLoop(args, curArg, a) == Ended(a, curArg + 1)
    ensures !Recognised(args[curArg]) ==> ParseLoop(args, curArg, a) == Ended(a, curArg)
  {
  }

  /**
   * Two adjacent --setuid=, --setgid=, --capabilities= or --setgroups=
   * flags are rejected: the second as a duplicate when the first was accepted.
   */
  lemma RepeatedFlagRejected(args: seq<string>, curArg: nat, a: ArgsValue)
    requires curArg + 1 < |args|
    requires Classify(args[curArg]) in {SetUid, SetGid, Capabilities, SetGroups}
    requires Classify(args[curArg + 1]) == Classify(args[curArg])
    ensures ParseLoop(args, curArg, a).Failed?
    ensures FlagStep(args[curArg], Following(args, curArg), a).Next? ==> ParseLoop(args, curArg, a) == Failed(DuplicateArg)
  {
    var s := FlagStep(args[curArg], Following(args, curArg), a);
    assert ParseLoop(args, curArg, a) == Turn(args, curArg, a);
    if s.Next? {
      assert ParseLoop(args, curArg, a) == ParseLoop(args, curArg + 1, s.a);
      StepMarksGiven(Classify(args[curArg]), args[curArg], Following(args, curArg), a);
      RepeatRejected(Classify(args[curArg + 1]), args[curArg + 1], Following(args, curArg + 1), s.a);
      assert ParseLoop(args, curArg + 1, s.a) == Turn(args, curArg + 1, s.a);
    }
  }

  /** "-classpath x -classpath y" is rejected: the second -classpath is a duplicate. */
  lemma RepeatedClasspathRejected(args: seq<string>, curArg: nat, a: ArgsValue)
    requires curArg + 2 < |args|
    requires Classify(args[curArg]) == Classpath && Classify(args[curArg + 2]) == Classpath
    ensures ParseLoop(args, curArg, a) == Failed(DuplicateArg)
  {
    var s := FlagStep(args[curArg], Following(args, curArg), a);
    assert ParseLoop(args, curArg, a) == Turn(args, curArg, a);
    if s.Next? {
      assert ParseLoop(args, curArg, a) == ParseLoop(args, curArg + 2, s.a);
      RepeatRejected(Classpath, args[curArg + 2], Following(args, curArg + 2), s.a);
      assert ParseLoop(args, curArg + 2, s.a) == Turn(args, curArg + 2, s.a);
    }
  }

  /** -classpath as the last argument is rejected for want of a value. */
  lemma ClasspathAtEndRejected(args: seq<string>, a: ArgsValue)
    requires |args| > 0 && Classify(args[|args| - 1]) == Classpath && a.classpath.None?
    ensures ParseLoop(args, |args| - 1, a) == Failed(ClasspathRequiresArgument)
  {
  }

  /** A debug flag given twice in a row is the same as given once. */
  lemma RepeatedDebugFlag(args: seq<string>, curArg: nat, a: ArgsValue)
    requires curArg + 1 < |args| && args[curArg + 1] == args[curArg] && Classify(args[curArg]).Debug?
    ensures ParseLoop(args, curArg, a) == ParseLoop(args, curArg + 1, a)
  {
    var s := FlagStep(args[curArg], Following(args, curArg), a);
    DebugFlagStep(args[curArg], Following(args, curArg), a);
    assert ParseLoop(args, curArg, a) == ParseLoop(args, curArg + 1, s.a);
    var t := FlagStep(args[curArg + 1], Following(args, curArg + 1), a);
    DebugFlagStep(args[curArg + 1], Following(args, curArg + 1), a);
    assert t.a == s.a;
    assert ParseLoop(args, curArg + 1, a) == ParseLoop(args, curArg + 2, s.a);
    DebugFlagStep(args[curArg + 1], Following(args, curArg + 1), s.a);
    assert ParseLoop(args, curArg + 1, s.a) == ParseLoop(args, curArg + 2, s.a);
  }

  /**
   * A well-formed --rlimit= flag appends its tuple and lets the loop go on
   * at the next argument, whatever list earlier ones have built: unlike the
   * flags that may appear only once, it may repeat.
   */
  lemma RlimitFlagAdvances(args: seq<string>, i: nat, a: ArgsValue, t: Rlimit)
    requires i < |args| && Classify(args[i]) == RlimitFlag && RlimitOf(AfterEquals(args[i])) == Ok(t)
    ensures ParseLoop(args, i, a) == ParseLoop(args, i + 1, a.(rlimits := Some(Listed(a.rlimits) + [t])))
  {
    assert FlagStep(args[i], Following(args, i), a) == Next(a.(rlimits := Some(Listed(a.rlimits) + [t])), 1);
    assert ParseLoop(args, i, a) == Turn(args, i, a);
  }

  /** parseArgs throws "incompatible" exactly when the loop ended with both --runtime-init and -classpath given. */
  lemma ParseRuntimeInitWithClasspath(args: seq<string>)
    ensures var r := ParseLoop(args, 0, INITIAL);
      Parse(args) == Err(RuntimeInitWithClasspath) <==> r.Ended? && r.a.runtimeInit && r.a.classpath.Some?
  {
  }

  /** On success the remaining arguments are exactly those from where the loop stopped. */
  lemma ParseRemainingArgs(args: seq<string>)
    ensures var r := ParseLoop(args, 0, INITIAL);
      Parse(args).Ok? ==> r.Ended? && Parse(args).value == r.a.(remainingArgs := args[r.stop..])
  {
  }

  /** ZygoteConnection.Arguments, its fields updated in place by parseArgs and by the security policies. */
  class Arguments {
    var uid: int
    var uidSpecified: bool
    var gid: int
    var gidSpecified: bool
    var gids: Option<seq<int>>
    var peerWait: bool
    var debugFlags: set<DebugFlag>
    var classpath: Option<string>
    var runtimeInit: bool
    var capabilitiesSpecified: bool
    var permittedCapabilities: bv64
    var effectiveCapabilities: bv64
    var rlimits: Option<seq<Rlimit>>
    var remainingArgs: seq<string>

    /** The fields as one value. */
    function Value(): ArgsValue
      reads this
    {
      ArgsValue(uid, uidSpecified, gid, gidSpecified, gids, peerWait, debugFlags, classpath,
                runtimeInit, capabilitiesSpecified, permittedCapabilities, effectiveCapabilities,
                rlimits, remainingArgs)
    }

    /** The field initialisers; the source's constructor then calls ParseArgs. */
    constructor ()
      ensures Value() == INITIAL
    {
      uid, uidSpecified, gid, gidSpecified, gids := 0, false, 0, false, None;
      peerWait, debugFlags, classpath, runtimeInit := false, {}, None, false;
      capabilitiesSpecified, permittedCapabilities, effectiveCapabilities := false, 0, 0;
      rlimits, remainingArgs := None, [];
    }

    /**
     * parseArgs: walks the arguments with a cursor, one flag per turn, and
     * either returns the error it throws or leaves the fields equal to the
     * parsed record.
     */
    method ParseArgs(args: seq<string>) returns (error: Option<ArgError>)
      modifies this
      ensures var r := Finish(args, ParseLoop(args, 0, old(Value())));
        && (r.Err? ==> error == Some(r.error))
        && (r.Ok? ==> error == None && Value() == r.value)
    {
      ghost var end := ParseLoop(args, 0, Value());
      var curArg := 0;
      while curArg < |args|
        invariant curArg <= |args|
        invariant end == ParseLoop(args, curArg, Value())
      {
        var outcome := TakeTurn(args, curArg);
        if outcome.Throw? {
          return Some(outcome.error);
        }
        curArg := curArg + outcome.width;
        if outcome.Break? {
          break;
        }
      }
      assert end == Ended(Value(), curArg);

      if runtimeInit && classpath.Some? {
        return Some(RuntimeInitWithClasspath);
      }
      remainingArgs := args[curArg..];
      error := None;
    }

    /** One turn of the loop at curArg: the body for args[curArg], stated as the spec's loop turn. */
    method TakeTurn(args: seq<string>, curArg: nat) returns (outcome: FlagOutcome)
      requires curArg < |args|
      modifies this
      ensures !outcome.Throw? ==> curArg + outcome.width <= |args|
      ensures outcome.Continue? ==> outcome.width >= 1
      ensures outcome.Throw? ==> Turn(args, curArg, old(Value())) == Failed(outcome.error)
      ensures outcome.Continue? ==> Turn(args, curArg, old(Value())) == ParseLoop(args, curArg + outcome.width, Value())
      ensures outcome.Break? ==> Turn(args, curArg, old(Value())) == Ended(Value(), curArg + outcome.width)
    {
      var arg := args[curArg];
      ghost var a := Value();
      ghost var s := FlagStep(arg, Following(args, curArg), a);
      assert s == KindStep(Classify(arg), arg, Following(args, curArg), a);
      outcome := ApplyFlag(Classify(arg), arg, Following(args, curArg));
      assert Turn(args, curArg, a) == if s.Next? then ParseLoop(args, curArg + s.width, s.a)
        else if s.Stop? then Ended(s.a, curArg + s.width) else Failed(s.error);
    }

    /**
     * The body of the parseArgs loop for the argument arg of the given kind,
     * following being the argument after it: updates the fields for a flag
     * and says whether the loop goes on, stops, or throws.
     */
    method ApplyFlag(kind: FlagKind, arg: string, following: Option<string>) returns (outcome: FlagOutcome)
      modifies this
      ensures Realises(KindStep(kind, arg, following, old(Value())), outcome, Value())
    {
      match kind {
        case Separator =>
          outcome := Break(1);
        case SetUid =>
          outcome := ApplySetUid(arg, following);
        case SetGid =>
          outcome := ApplySetGid(arg, following);
        case Debug(f) =>
          debugFlags := debugFlags + {f};
          outcome := Continue(1);
        case PeerWait =>
          peerWait := true;
          outcome := Continue(1);
        case RuntimeInit =>
          runtimeInit := true;
          outcome := Continue(1);
        case Capabilities =>
          outcome := ApplyCapabilities(arg, following);
        case RlimitFlag =>
          outcome := ApplyRlimit(arg, following);
        case Classpath =>
          if classpath.Some? {
            return Throw(DuplicateArg);
          }
          if following.None? {
            return Throw(ClasspathRequiresArgument);
          }
          classpath := following;
          outcome := Continue(2);
        case SetGroups =>
          outcome := ApplySetGroups(arg, following);
        case Positional =>
          outcome := Break(0);
      }
    }

    /** --setuid=: rejects a second one; the flag counts as given even when its value does not parse. */
    method ApplySetUid(arg: string, following: Option<string>) returns (outcome: FlagOutcome)
      modifies this
      ensures Realises(KindStep(SetUid, arg, following, old(Value())), outcome, Value())
      ensures uidSpecified
    {
      if uidSpecified {
        return Throw(DuplicateArg);
      }
      uidSpecified := true;
      var v := ParseInt(AfterEquals(arg));
      if v.None? {
        return Throw(NumberFormat);
      }
      uid := v.value;
      outcome := Continue(1);
    }

    /** --setgid=: as --setuid= for the group id. */
    method ApplySetGid(arg: string, following: Option<string>) returns (outcome: FlagOutcome)
      modifies this
      ensures Realises(KindStep(SetGid, arg, following, old(Value())), outcome, Value())
      ensures gidSpecified
    {
      if gidSpecified {
        return Throw(DuplicateArg);
      }
      gidSpecified := true;
      var v := ParseInt(AfterEquals(arg));
      if v.None? {
        return Throw(NumberFormat);
      }
      gid := v.value;
      outcome := Continue(1);
    }

    /** --capabilities=: rejects a second one, then decodes one or two capability sets. */
    method ApplyCapabilities(arg: string, following: Option<string>) returns (outcome: FlagOutcome)
      modifies this
      ensures Realises(KindStep(Capabilities, arg, following, old(Value())), outcome, Value())
    {
      if capabilitiesSpecified {
        return Throw(DuplicateArg);
      }
      capabilitiesSpecified := true;
      var caps := DecodeCapabilities(AfterEquals(arg));
      if caps.None? {
        return Throw(NumberFormat);
      }
      permittedCapabilities := caps.value.permitted;
      effectiveCapabilities := caps.value.effective;
      outcome := Continue(1);
    }

    /** --rlimit=: may be repeated; each one appends a tuple. */
    method ApplyRlimit(arg: string, following: Option<string>) returns (outcome: FlagOutcome)
      modifies this
      ensures Realises(KindStep(RlimitFlag, arg, following, old(Value())), outcome, Value())
    {
      var r := ParseRlimit(Split(AfterEquals(arg)));
      if r.Err? {
        return Throw(r.error);
      }
      rlimits := Some(Listed(rlimits) + [r.value]);
      outcome := Continue(1);
    }

    /** --setgroups=: rejects a second one, then parses the comma-separated group ids. */
    method ApplySetGroups(arg: string, following: Option<string>) returns (outcome: FlagOutcome)
      modifies this
      ensures Realises(KindStep(SetGroups, arg, following, old(Value())), outcome, Value())
    {
      if gids.Some? {
        return Throw(DuplicateArg);
      }
      var groups := ParseGroups(Split(AfterEquals(arg)));
      if groups.None? {
        return Throw(NumberFormat);
      }
      gids := groups;
      outcome := Continue(1);
    }
  }

  /** How one turn of the parseArgs loop ends. */
  datatype FlagOutcome = Continue(width: nat) | Break(width: nat) | Throw(error: ArgError)

  /** The outcome and the new field values carry out the step: the record it gives and the width it consumes, or its error. */
  predicate Realises(s: Step, outcome: FlagOutcome, v: ArgsValue) {
    && (s.Next? ==> outcome == Continue(s.width) && v == s.a)
    && (s.Stop? ==> outcome == Break(s.width) && v == s.a)
    && (s.Reject? ==> outcome == Throw(s.error))
  }

  /**
   * The --capabilities= branch: split(",", 2) and Long.decode of each part;
   * one part sets both sets. None is the NumberFormatException.
   */
  method DecodeCapabilities(capString: string) returns (caps: Option<CapSets>)
    ensures caps == CapabilitySets(capString)
  {
    var capStrings := SplitLimit2(capString);
    if |capStrings| == 1 {
      var e := DecodeLong(capStrings[0]);
      if e.None? {
        return None;
      }
      var effective := ToBits64(e.value);
      return Some(CapSets(effective, effective));
    }
    var p := DecodeLong(capStrings[0]);
    if p.None? {
      return None;
    }
    var e := DecodeLong(capStrings[1]);
    if e.None? {
      return None;
    }
    return Some(CapSets(ToBits64(p.value), ToBits64(e.value)));
  }

  /** The --rlimit= branch on the split value: exactly three parts, each parsed into the tuple in turn. */
  method ParseRlimit(limitStrings: seq<string>) returns (r: Result<Rlimit, ArgError>)
    ensures r == RlimitOfParts(limitStrings)
  {
    if |limitStrings| != 3 {
      return Err(RlimitArity);
    }
    var rlimitTuple := new int[|limitStrings|];
    for i := 0 to |limitStrings|
      invariant forall k :: 0 <= k < i ==>
        ParseInt(limitStrings[k]).Some? && rlimitTuple[k] == ParseInt(limitStrings[k]).value
    {
      var v := ParseInt(limitStrings[i]);
      if v.None? {
        return Err(NumberFormat);
      }
      rlimitTuple[i] := v.value;
    }
    return Ok(Rlimit(rlimitTuple[0], rlimitTuple[1], rlimitTuple[2]));
  }

  /** The --setgroups= branch on the split value: the gids array filled from its last entry down. */
  method ParseGroups(params: seq<string>) returns (gids: Option<seq<int>>)
    ensures gids == ParseAll(params)
  {
    ParseAllParsesEach(params);
    var groups := new int[|params|];
    var i := |params| - 1;
    while i >= 0
      invariant -1 <= i < |params|
      invariant forall k :: i < k < |params| ==>
        ParseInt(params[k]).Some? && groups[k] == ParseInt(params[k]).value
    {
      var v := ParseInt(params[i]);
      if v.None? {
        return None;
      }
      groups[i] := v.value;
      i := i - 1;
    }
    assert groups[..] == ParseAll(params).value;
    return Some(groups[..]);
  }
}
