/**
 * One command-socket connection of the zygote: runOnce reads a request,
 * parses it, applies the security policy, forks, and reports the child's
 * pid to the peer; run repeats that until runOnce says to stop, calling
 * the collector every few turns.
 *
 * The socket is the sequence of lines not yet read plus the ints written
 * back. What the native side decides (the descriptor query, the system
 * properties, the peer's capabilities, the fork's pid, whether the write
 * succeeds) is an Env, one per request.
 *
 * RunOnceTurn is the specification of one turn; Connection.RunOnce is
 * proved to follow it. RunOnceAsWritten keeps two defects of the source
 * that RunOnceTurn corrects (see the Findings lemmas at the end).
 */
module ZygoteConnection {
  import opened Wrappers
  import opened JavaLang
  import opened ZygoteArguments
  import opened ZygotePolicy
  import opened ZygoteWire

  /** What the native side answers for one request. */
  datatype Env = Env(
    descriptorsOk: bool,   // getAncillaryFileDescriptors did not throw
    platform: Platform,    // ro.factorytest, ro.debuggable, the peer's capability query
    forkPid: int,          // forkAndSpecialize: > 0 in the parent, 0 in the child, < 0 on failure
    writeOk: bool)         // writeInt of the pid did not throw

  /** Why runOnce refuses a request: the parser's IllegalArgumentException or a ZygoteSecurityException. */
  datatype Refusal = InvalidArguments(error: ArgError) | PolicyViolation(violation: Violation)

  /** new Arguments(args) and the four policies: the record to fork with, or why there is none. */
  function Admit(args: seq<string>, peer: Credentials, platform: Platform): Result<ArgsValue, Refusal> {
    match Parse(args)
    case Err(e) => Err(InvalidArguments(e))
    case Ok(p) =>
      match ApplyPolicies(p, peer, platform)
      case Err(v) => Err(PolicyViolation(v))
      case Ok(a) => Ok(a)
  }

  /**
   * The try block of runOnce: parsedArgs as the parent later sees it (None
   * while the constructor threw), the record fork was called with (None
   * when it was not called), and the pid.
   */
  datatype Attempt = Attempt(parsed: Option<ArgsValue>, forked: Option<ArgsValue>, pid: int)

  function TryFork(args: seq<string>, peer: Credentials, env: Env): (t: Attempt)
    ensures t.forked.None? <==> Admit(args, peer, env.platform).Err?
    ensures t.forked.None? ==> t.pid == -1
    ensures t.forked.Some? ==> t.forked == Some(Admit(args, peer, env.platform).value) && t.pid == env.forkPid
    ensures t.parsed.None? <==> Parse(args).Err?
    ensures t.parsed.Some? ==> t.parsed.value.peerWait == Parse(args).value.peerWait
  {
    match Parse(args)
    case Err(_) => Attempt(None, None, -1)
    case Ok(p) =>
      PoliciesKeepPeerWait(p, peer, env.platform);
      match ApplyPolicies(p, peer, env.platform)
      case Err(_) => Attempt(Some(p), None, -1)
      case Ok(a) => Attempt(Some(a), Some(a), env.forkPid)
  }

  /** The policies never touch peerWait. */
  lemma PoliciesKeepPeerWait(p: ArgsValue, peer: Credentials, platform: Platform)
    ensures ApplyPolicies(p, peer, platform).Ok? ==> ApplyPolicies(p, peer, platform).value.peerWait == p.peerWait
  {
    if UidPolicy(p, peer, platform.factoryTest).Ok? {
      UidPolicyResult(p, peer, platform.factoryTest);
      DebuggerPolicyFlags(UidPolicy(p, peer, platform.factoryTest).value, platform.debuggable);
    }
  }

  // ---------------------------------------------------------------------
  // handleChildProc

  /** What the child runs: RuntimeInit.zygoteInit, a class's static main, or nothing when no class is named. */
  datatype ChildAction =
    | ZygoteInit(args: seq<string>)
    | InvokeMain(classpath: Option<string>, className: string, mainArgs: seq<string>)
    | MissingClassName

  /**
   * The dispatch at the end of handleChildProc: with --runtime-init the
   * remaining arguments go to zygoteInit; otherwise the first is the class
   * to run, loaded from the -classpath if one was given, and the rest are
   * its arguments.
   */
  function ChildDispatch(a: ArgsValue): (c: ChildAction)
    ensures c.ZygoteInit? <==> a.runtimeInit
    ensures c.ZygoteInit? ==> c.args == a.remainingArgs
    ensures c.MissingClassName? <==> !a.runtimeInit && a.remainingArgs == []
    ensures c.InvokeMain? ==> [c.className] + c.mainArgs == a.remainingArgs && c.classpath == a.classpath
  {
    if a.runtimeInit then ZygoteInit(a.remainingArgs)
    else if |a.remainingArgs| == 0 then MissingClassName
    else InvokeMain(a.classpath, a.remainingArgs[0], a.remainingArgs[1..])
  }

  // ---------------------------------------------------------------------
  // One turn

  /** The exceptions that can escape runOnce as written. */
  datatype Unchecked = NullPointer | NegativeArraySize

  /** What runOnce returns: false to go on reading, true to stop; or an exception it does not catch. */
  datatype Exit = KeepServing | StopServing | Escapes(exception: Unchecked)

  /**
   * One turn: the lines it read, the record it forked with, the pid it
   * wrote back, whether it closed the socket, what the child runs, and how
   * it ends.
   */
  datatype TurnResult = TurnResult(
    consumed: nat, forked: Option<ArgsValue>, reply: Option<int>,
    closed: bool, child: Option<ChildAction>, exit: Exit)

  /** The turns that close the socket and stop before any request is made. */
  function Closing(consumed: nat): TurnResult {
    TurnResult(consumed, None, None, true, None, StopServing)
  }

  /**
   * handleParentProc after the pid is known, as intended: report the pid;
   * stop if that fails; close and stop if the peer waits on the socket;
   * otherwise go on. A request that did not parse has no peer wait.
   */
  function ParentTurn(consumed: nat, at: Attempt, writeOk: bool): (t: TurnResult)
    ensures t.exit != KeepServing <==> !writeOk || (at.parsed.Some? && at.parsed.value.peerWait)
    ensures !t.exit.Escapes?
  {
    if !writeOk then TurnResult(consumed, at.forked, None, false, None, StopServing)
    else if at.parsed.Some? && at.parsed.value.peerWait then TurnResult(consumed, at.forked, Some(at.pid), true, None, StopServing)
    else TurnResult(consumed, at.forked, Some(at.pid), false, None, KeepServing)
  }

  /** runOnce, with a negative count handled like the other malformed counts and a refused parse handled like a refused policy. */
  function RunOnceTurn(pending: seq<string>, peer: Credentials, env: Env): (t: TurnResult)
    ensures t.consumed == ReadArgs(pending).consumed
  {
    var rd := ReadArgs(pending);
    match rd.outcome
    case ArgList(args) =>
      if !env.descriptorsOk then Closing(rd.consumed)
      else
        var at := TryFork(args, peer, env);
        if at.pid == 0 then
          TurnResult(rd.consumed, at.forked, None, false, Some(ChildDispatch(at.forked.value)), StopServing)
        else ParentTurn(rd.consumed, at, env.writeOk)
    case _ => Closing(rd.consumed)
  }

  /** A turn that goes on reading has taken at least the count line, so a connection is served for at most as many turns as it has lines. */
  lemma KeepServingConsumes(pending: seq<string>, peer: Credentials, env: Env)
    ensures RunOnceTurn(pending, peer, env).exit == KeepServing ==> RunOnceTurn(pending, peer, env).consumed >= 1
    ensures !RunOnceTurn(pending, peer, env).exit.Escapes?
  {
    ReadTakesCountLine(pending);
  }

  /** runOnce stops and closes the socket on end of stream, on an IOException, and on a count it cannot allocate. */
  lemma ReadFailureStops(pending: seq<string>, peer: Credentials, env: Env)
    requires !ReadArgs(pending).outcome.ArgList? || !env.descriptorsOk
    ensures RunOnceTurn(pending, peer, env) == Closing(ReadArgs(pending).consumed)
  {
  }

  /** A request the parser or the policy refuses is answered with pid -1 and fork is never called. */
  lemma RefusedRequestGetsMinusOne(pending: seq<string>, peer: Credentials, env: Env)
    requires ReadArgs(pending).outcome.ArgList? && env.descriptorsOk
    requires Admit(ReadArgs(pending).outcome.args, peer, env.platform).Err?
    ensures RunOnceTurn(pending, peer, env).forked.None?
    ensures env.writeOk ==> RunOnceTurn(pending, peer, env).reply == Some(-1)
  {
  }

  /**
   * In the parent, runOnce stops exactly when writing the pid fails or the
   * request asked for --peer-wait; an admitted request was forked with the
   * policies' record and its pid is what the peer reads.
   */
  lemma ParentStopsIff(pending: seq<string>, peer: Credentials, env: Env)
    requires ReadArgs(pending).outcome.ArgList? && env.descriptorsOk
    requires TryFork(ReadArgs(pending).outcome.args, peer, env).pid != 0
    ensures var args := ReadArgs(pending).outcome.args;
      && (RunOnceTurn(pending, peer, env).exit == StopServing <==>
            !env.writeOk || (Parse(args).Ok? && Parse(args).value.peerWait))
      && (Admit(args, peer, env.platform).Ok? ==>
            RunOnceTurn(pending, peer, env).forked == Some(Admit(args, peer, env.platform).value) &&
            (env.writeOk ==> RunOnceTurn(pending, peer, env).reply == Some(env.forkPid)))
  {
  }

  /** In the child, runOnce runs what ChildDispatch says for the admitted record, and returns true. */
  lemma ChildRunsDispatch(pending: seq<string>, peer: Credentials, env: Env)
    requires ReadArgs(pending).outcome.ArgList? && env.descriptorsOk && env.forkPid == 0
    requires Admit(ReadArgs(pending).outcome.args, peer, env.platform).Ok?
    ensures RunOnceTurn(pending, peer, env).child ==
            Some(ChildDispatch(Admit(ReadArgs(pending).outcome.args, peer, env.platform).value))
    ensures RunOnceTurn(pending, peer, env).exit == StopServing
  {
  }

  // ---------------------------------------------------------------------
  // The turns of run

  /** What a connection shows of itself: the lines left, the ints written back, whether the socket is closed, the forks made. */
  datatype ConnectionState = ConnectionState(
    pending: seq<string>, written: seq<int>, closed: bool, forks: seq<ArgsValue>)

  /**
   * The state after turn t: the lines it read are gone, its pid reply and
   * its fork are appended, and the socket is closed if it closed it. A turn
   * of run never reads more lines than are left (RunOnceTurn's count comes
   * from ReadArgs), so the bound on the drop only keeps the function total.
   */
  function AfterTurn(c: ConnectionState, t: TurnResult): ConnectionState {
    ConnectionState(
      c.pending[if t.consumed <= |c.pending| then t.consumed else |c.pending|..],
      c.written + (if t.reply.Some? then [t.reply.value] else []),
      c.closed || t.closed,
      c.forks + (if t.forked.Some? then [t.forked.value] else []))
  }

  /** The state after the turns of trace, one after the other, from state c. */
  function Replay(c: ConnectionState, trace: seq<TurnResult>): ConnectionState
    decreases |trace|
  {
    if |trace| == 0 then c
    else AfterTurn(Replay(c, trace[..|trace| - 1]), trace[|trace| - 1])
  }

  /**
   * trace is what the first |trace| turns of run from state c return:
   * turn t is runOnce on the lines left after the turns before it, with
   * envs(t) what the native side answers.
   */
  predicate Faithful(c: ConnectionState, peer: Credentials, envs: nat -> Env, trace: seq<TurnResult>)
    decreases |trace|
  {
    |trace| == 0 ||
    (var before := trace[..|trace| - 1];
     Faithful(c, peer, envs, before) && trace[|trace| - 1] == RunOnceTurn(Replay(c, before).pending, peer, envs(|trace| - 1)))
  }

  /**
   * Replaying turns only ever adds to the history: the ints written and the
   * forks made before stay a prefix, a closed socket stays closed, and no
   * line comes back.
   */
  lemma {:induction false} ReplayKeepsHistory(c: ConnectionState, trace: seq<TurnResult>)
    ensures var r := Replay(c, trace);
      && c.written <= r.written && c.forks <= r.forks
      && (c.closed ==> r.closed) && |r.pending| <= |c.pending|
    decreases |trace|
  {
    if |trace| > 0 {
      ReplayKeepsHistory(c, trace[..|trace| - 1]);
    }
  }

  /** A trace extended by the turn that run takes next is still faithful, and replays to that turn's state. */
  lemma FaithfulExtend(c: ConnectionState, peer: Credentials, envs: nat -> Env, trace: seq<TurnResult>, turn: TurnResult)
    requires Faithful(c, peer, envs, trace)
    requires turn == RunOnceTurn(Replay(c, trace).pending, peer, envs(|trace|))
    ensures Faithful(c, peer, envs, trace + [turn])
    ensures Replay(c, trace + [turn]) == AfterTurn(Replay(c, trace), turn)
  {
    assert (trace + [turn])[..|trace|] == trace;
  }

  /** Every turn that goes on reading takes a line: after n such turns at least n lines are gone. */
  lemma {:induction false} FaithfulConsumes(c: ConnectionState, peer: Credentials, envs: nat -> Env, trace: seq<TurnResult>)
    requires Faithful(c, peer, envs, trace)
    requires forall t :: 0 <= t < |trace| ==> trace[t].exit == KeepServing
    ensures |Replay(c, trace).pending| + |trace| <= |c.pending|
    decreases |trace|
  {
    if |trace| > 0 {
      var before := trace[..|trace| - 1];
      FaithfulConsumes(c, peer, envs, before);
      KeepServingConsumes(Replay(c, before).pending, peer, envs(|trace| - 1));
    }
  }

  /**
   * run stops after taking at least one line, unless the socket had none
   * and its first turn met the end of the stream.
   */
  lemma FaithfulStops(c: ConnectionState, peer: Credentials, envs: nat -> Env, trace: seq<TurnResult>)
    requires Faithful(c, peer, envs, trace) && |trace| >= 1
    requires forall t :: 0 <= t < |trace| - 1 ==> trace[t].exit == KeepServing
    ensures |Replay(c, trace).pending| < |c.pending| || (c.pending == [] && |trace| == 1)
  {
    var before := trace[..|trace| - 1];
    assert forall t :: 0 <= t < |before| ==> before[t] == trace[t];
    FaithfulConsumes(c, peer, envs, before);
    ReadTakesCountLine(Replay(c, before).pending);
  }

  // ---------------------------------------------------------------------
  // The connection object

  class Connection {
    /** The lines of the command socket not yet read. */
    var pending: seq<string>
    /** The ints written back on the socket, in order. */
    var written: seq<int>
    /** Whether the socket has been closed. */
    var closed: bool
    /** The records forkAndSpecialize was called with, in order. */
    var forks: seq<ArgsValue>
    /** The peer's credentials, read once when the connection is made. */
    const peer: Credentials

    /** The fields as one value. */
    function State(): ConnectionState
      reads this
    {
      ConnectionState(pending, written, closed, forks)
    }

    constructor (input: seq<string>, peer: Credentials)
      ensures pending == input && written == [] && !closed && forks == [] && this.peer == peer
    {
      pending, written, closed, forks := input, [], false, [];
      this.peer := peer;
    }

    /** mSocketReader.readLine: the next line, or None (null) at end of stream. */
    method ReadLine() returns (line: Option<string>)
      modifies this
      ensures old(pending) == [] ==> line == None && pending == []
      ensures old(pending) != [] ==> line == Some(old(pending)[0]) && pending == old(pending)[1..]
      ensures written == old(written) && closed == old(closed) && forks == old(forks)
    {
      if pending == [] {
        line := None;
      } else {
        line := Some(pending[0]);
        pending := pending[1..];
      }
    }

    /** readArgumentList: the count line, its checks, then that many lines into a new array. */
    method ReadArgumentList() returns (r: ReadOutcome)
      modifies this
      ensures r == ReadArgs(old(pending)).outcome
      ensures pending == old(pending)[ReadArgs(old(pending)).consumed..]
      ensures written == old(written) && closed == old(closed) && forks == old(forks)
    {
      var s := ReadLine();
      if s.None? {
        return EndOfStream;
      }
      var count := ParseInt(s.value);
      if count.None? {
        return WireError(InvalidWireFormat);
      }
      var argc := count.value;
      if argc > MAX_ZYGOTE_ARGC {
        return WireError(MaxArgCountExceeded);
      }
      if argc < 0 {
        return NegativeCount(argc);
      }
      var result := new string[argc];
      var i := 0;
      while i < argc
        invariant 0 <= i <= argc && 1 + i <= |old(pending)|
        invariant pending == old(pending)[1 + i..]
        invariant result[..i] == old(pending)[1..1 + i]
        invariant written == old(written) && closed == old(closed) && forks == old(forks)
      {
        ghost var before := pending;
        var line := ReadLine();
        if line.None? {
          return WireError(TruncatedRequest);
        }
        assert line.value == old(pending)[1 + i] && pending == old(pending)[2 + i..];
        result[i] := line.value;
        assert result[..i + 1] == result[..i] + [line.value];
        i := i + 1;
      }
      return ArgList(result[..]);
    }

    /** closeSocket. */
    method CloseSocket()
      modifies this
      ensures closed && pending == old(pending) && written == old(written) && forks == old(forks)
    {
      closed := true;
    }

    /**
     * handleParentProc, corrected to treat a request that did not parse
     * (parsedArgs still null) as one without peer wait: writes the pid
     * back, and stops if that fails or the peer waits on the socket, which
     * it then closes.
     */
    method HandleParentProc(pid: int, parsedArgs: Arguments?, writeOk: bool) returns (done: bool)
      modifies this
      ensures var waits := parsedArgs != null && parsedArgs.peerWait;
        && done == (!writeOk || waits)
        && written == old(written) + (if writeOk then [pid] else [])
        && closed == (old(closed) || (writeOk && waits))
        && pending == old(pending) && forks == old(forks)
    {
      if !writeOk {
        return true;
      }
      written := written + [pid];
      if parsedArgs != null && parsedArgs.peerWait {
        closed := true;
        return true;
      }
      return false;
    }

    /**
     * The try block of runOnce: parses the request into a new Arguments,
     * applies the four policies to it in order, in place, and forks when
     * they all pass; pid is -1 when one of them throws. parsedArgs is null
     * when the constructor threw.
     */
    method Spawn(args: seq<string>, env: Env) returns (parsedArgs: Arguments?, pid: int)
      modifies this
      ensures var at := TryFork(args, peer, env);
        && (parsedArgs == null <==> at.parsed.None?)
        && (parsedArgs != null ==> parsedArgs.peerWait == at.parsed.value.peerWait)
        && (at.forked.Some? ==> parsedArgs != null && parsedArgs.Value() == at.forked.value)
        && pid == at.pid
        && forks == old(forks) + (if at.forked.Some? then [at.forked.value] else [])
        && pending == old(pending) && written == old(written) && closed == old(closed)
    {
      var arguments := new Arguments();
      var error := arguments.ParseArgs(args);
      if error.Some? {
        return null, -1;
      }
      parsedArgs := arguments;
      assert parsedArgs.Value() == Parse(args).value;
      var violation := ApplySecurityPolicies(parsedArgs, peer, env.platform);
      if violation.Some? {
        pid := -1;
      } else {
        pid := env.forkPid;
        forks := forks + [parsedArgs.Value()];
      }
    }

    /** runOnce, as RunOnceTurn specifies it, recording the socket traffic and the fork in the fields. */
    method RunOnce(env: Env) returns (done: bool, child: Option<ChildAction>)
      modifies this
      ensures var t := RunOnceTurn(old(pending), peer, env);
        && done == (t.exit == StopServing)
        && child == t.child
        && pending == old(pending)[t.consumed..]
        && written == old(written) + (if t.reply.Some? then [t.reply.value] else [])
        && closed == (old(closed) || t.closed)
        && forks == old(forks) + (if t.forked.Some? then [t.forked.value] else [])
      ensures !done ==> |pending| < |old(pending)|
    {
      KeepServingConsumes(pending, peer, env);
      var r := ReadArgumentList();
      if !r.ArgList? || !env.descriptorsOk {
        CloseSocket();
        return true, None;
      }
      var parsedArgs, pid := Spawn(r.args, env);
      if pid == 0 {
        return true, Some(ChildDispatch(parsedArgs.Value()));
      }
      done := HandleParentProc(pid, parsedArgs, env.writeOk);
      child := None;
    }

    /**
     * run: before each turn, calls the collector when the countdown has
     * run out and restarts it at gcLoopCount, or else counts it down; stops
     * after the first turn that returns true. envs(t) is what the native
     * side answers on turn t. Returns the number of turns and of
     * collections; trace holds what each turn did, every turn but the last
     * returned false, and the fields end as the trace replays them.
     */
    method Run(gcLoopCount: int, envs: nat -> Env) returns (turns: nat, gcs: nat, ghost trace: seq<TurnResult>)
      modifies this
      ensures turns >= 1 && |trace| == turns
      ensures Faithful(old(State()), peer, envs, trace) && State() == Replay(old(State()), trace)
      ensures forall t :: 0 <= t < turns - 1 ==> trace[t].exit == KeepServing
      ensures trace[turns - 1].exit == StopServing
      ensures gcs == GcCount(gcLoopCount, turns)
      ensures gcLoopCount >= 0 ==> gcs == turns / (gcLoopCount + 1)
    {
      var loopCount := gcLoopCount;
      turns, gcs, trace := 0, 0, [];
      ghost var start := State();
      while true
        invariant loopCount == LoopCount(gcLoopCount, turns)
        invariant gcs == GcCount(gcLoopCount, turns)
        invariant |trace| == turns && start == old(State())
        invariant Faithful(start, peer, envs, trace) && State() == Replay(start, trace)
        invariant forall t :: 0 <= t < turns ==> trace[t].exit == KeepServing
        decreases |pending|
      {
        CountdownStep(gcLoopCount, turns);
        if loopCount <= 0 {
          gcs := gcs + 1;
          loopCount := gcLoopCount;
        } else {
          loopCount := loopCount - 1;
        }
        ghost var turn := RunOnceTurn(pending, peer, envs(turns));
        KeepServingConsumes(pending, peer, envs(turns));
        var done, child := RunOnce(envs(turns));
        FaithfulExtend(start, peer, envs, trace, turn);
        trace := trace + [turn];
        turns := turns + 1;
        if done {
          break;
        }
      }
      GcCountClosedForm(gcLoopCount, turns);
    }
  }

  // ---------------------------------------------------------------------
  // The collector countdown in run

  /** loopCount at the start of turn t. */
  function LoopCount(g: int, t: nat): int {
    if t == 0 then g
    else if LoopCount(g, t - 1) <= 0 then g
    else LoopCount(g, t - 1) - 1
  }

  /** The number of collections before the first t turns. */
  function GcCount(g: int, t: nat): nat {
    if t == 0 then 0
    else GcCount(g, t - 1) + (if LoopCount(g, t - 1) <= 0 then 1 else 0)
  }

  /** One turn of the countdown: restart and collect when it has run out, otherwise count down. */
  lemma CountdownStep(g: int, t: nat)
    ensures LoopCount(g, t + 1) == if LoopCount(g, t) <= 0 then g else LoopCount(g, t) - 1
    ensures GcCount(g, t + 1) == GcCount(g, t) + if LoopCount(g, t) <= 0 then 1 else 0
  {
  }

  /** With a countdown g >= 0, turn t starts with g - t mod (g + 1): the countdown runs g, g-1, ..., 0, g, ... */
  lemma {:induction false} LoopCountCycles(g: int, t: nat)
    requires g >= 0
    ensures LoopCount(g, t) == g - t % (g + 1)
  {
    if t > 0 {
      LoopCountCycles(g, t - 1);
      ModStep(t - 1, g + 1);
    }
  }

  /**
   * The collector runs once every g + 1 turns, first before turn g: after
   * t turns it has run t / (g + 1) times. With a negative countdown it
   * runs before every turn.
   */
  lemma {:induction false} GcCountClosedForm(g: int, t: nat)
    ensures g >= 0 ==> GcCount(g, t) == t / (g + 1)
    ensures g < 0 ==> GcCount(g, t) == t
  {
    if t > 0 {
      GcCountClosedForm(g, t - 1);
      if g >= 0 {
        LoopCountCycles(g, t - 1);
        ModStep(t - 1, g + 1);
      } else {
        LoopCountNegative(g, t - 1);
      }
    }
  }

  /** A negative countdown is restarted before every turn. */
  lemma {:induction false} LoopCountNegative(g: int, t: nat)
    requires g < 0
    ensures LoopCount(g, t) == g
  {
    if t > 0 {
      LoopCountNegative(g, t - 1);
    }
  }

  /** Euclidean division by m > 0 has one quotient and remainder. */
  lemma DivModUnique(x: int, m: int, q: int, r: int)
    requires m > 0 && x == m * q + r && 0 <= r < m
    ensures x / m == q && x % m == r
  {
    var d := q - x / m;
    assert m * d == x % m - r;
    if d >= 1 {
      MulAtLeast(m, d);
    }
  }

  lemma MulAtLeast(m: int, d: int)
    requires m > 0 && d >= 1
    ensures m * d >= m
  {
  }

  /** How x mod m and x div m move when x grows by one. */
  lemma ModStep(x: nat, m: int)
    requires m > 0
    ensures x % m == m - 1 ==> (x + 1) % m == 0 && (x + 1) / m == x / m + 1
    ensures x % m != m - 1 ==> (x + 1) % m == x % m + 1 && (x + 1) / m == x / m
  {
    var q, r := x / m, x % m;
    if r == m - 1 {
      DivModUnique(x + 1, m, q + 1, 0);
    } else {
      DivModUnique(x + 1, m, q, r + 1);
    }
  }

  // ---------------------------------------------------------------------
  // Findings: runOnce as written

  /**
   * handleParentProc as written: after the pid is written it reads
   * parsedArgs.peerWait, and parsedArgs is still null when the Arguments
   * constructor threw.
   */
  function ParentTurnAsWritten(consumed: nat, at: Attempt, writeOk: bool): TurnResult {
    if !writeOk then TurnResult(consumed, at.forked, None, false, None, StopServing)
    else if at.parsed.None? then TurnResult(consumed, at.forked, Some(at.pid), false, None, Escapes(NullPointer))
    else if at.parsed.value.peerWait then TurnResult(consumed, at.forked, Some(at.pid), true, None, StopServing)
    else TurnResult(consumed, at.forked, Some(at.pid), false, None, KeepServing)
  }

  /**
   * runOnce as written: a negative count makes new String[argc] throw a
   * NegativeArraySizeException, which the IOException handler does not
   * catch; a request that does not parse reaches the null dereference.
   */
  function RunOnceAsWritten(pending: seq<string>, peer: Credentials, env: Env): TurnResult {
    var rd := ReadArgs(pending);
    match rd.outcome
    case NegativeCount(_) => TurnResult(rd.consumed, None, None, false, None, Escapes(NegativeArraySize))
    case ArgList(args) =>
      if !env.descriptorsOk then Closing(rd.consumed)
      else
        var at := TryFork(args, peer, env);
        if at.pid == 0 then
          TurnResult(rd.consumed, at.forked, None, false, Some(ChildDispatch(at.forked.value)), StopServing)
        else ParentTurnAsWritten(rd.consumed, at, env.writeOk)
    case _ => Closing(rd.consumed)
  }

  /** The two agree on every turn except the two defects. */
  lemma AsWrittenDiffersOnlyThere(pending: seq<string>, peer: Credentials, env: Env)
    ensures RunOnceAsWritten(pending, peer, env) != RunOnceTurn(pending, peer, env) <==>
            || ReadArgs(pending).outcome.NegativeCount?
            || (&& ReadArgs(pending).outcome.ArgList? && env.descriptorsOk && env.writeOk
                && Parse(ReadArgs(pending).outcome.args).Err?)
  {
  }

  /** A lone -classpath does not parse. */
  lemma LoneClasspathRefused()
    ensures Parse(["-classpath"]) == Err(ClasspathRequiresArgument)
  {
    EqualsIsEquality("-classpath", "-classpath");
    ClassifyClasspath("-classpath");
    ClasspathAtEndRejected(["-classpath"], INITIAL);
  }

  /** "1" then "-classpath": the request does not parse, -1 is written, and then runOnce throws a NullPointerException. */
  lemma UnparsableRequestEscapes(peer: Credentials, env: Env)
    requires env.descriptorsOk && env.writeOk
    ensures RunOnceAsWritten(["1", "-classpath"], peer, env).exit == Escapes(NullPointer)
    ensures RunOnceAsWritten(["1", "-classpath"], peer, env).reply == Some(-1)
    ensures RunOnceTurn(["1", "-classpath"], peer, env).exit == KeepServing
  {
    assert IntToString(1) == "1";
    assert EncodeArgs(["-classpath"]) + [] == ["1", "-classpath"];
    ReadEncoded(["-classpath"], []);
    LoneClasspathRefused();
  }

  /** A count line of "-1" passes both checks and throws out of runOnce; the corrected turn closes the connection. */
  lemma NegativeCountEscapes(peer: Credentials, env: Env)
    ensures RunOnceAsWritten(["-1"], peer, env).exit == Escapes(NegativeArraySize)
    ensures RunOnceTurn(["-1"], peer, env) == Closing(1)
  {
    ParseIntOfToString(-1);
    assert IntToString(-1) == "-1";
  }
}
