/** The bit-set tests applyCapabilitiesSecurityPolicy makes on 64-bit capability sets. */
module CapabilityBits {
  /** Bit k of x. */
  predicate Bit(x: bv64, k: nat)
    requires k < 64
  {
    (x >> k) & 1 == 1
  }

  /** The source's subset test: no bit of sub lies outside sup. */
  predicate SubsetBits(sub: bv64, sup: bv64) {
    (!sup & sub) == 0
  }

  /** sub is contained in sup: adding sub's bits to sup adds nothing. */
  predicate Within(sub: bv64, sup: bv64) {
    sub | sup == sup
  }

  /** The source's test agrees with containment. */
  lemma SubsetBitsIsWithin(sub: bv64, sup: bv64)
    ensures SubsetBits(sub, sup) <==> Within(sub, sup)
  {
    SubsetBitsGivesWithin(sub, sup);
    WithinGivesSubsetBits(sub, sup);
  }

  lemma SubsetBitsGivesWithin(sub: bv64, sup: bv64)
    ensures (!sup & sub) == 0 ==> sub | sup == sup
  {
  }

  lemma WithinGivesSubsetBits(sub: bv64, sup: bv64)
    ensures sub | sup == sup ==> (!sup & sub) == 0
  {
  }

  /** Under the source's test, every bit of sub is a bit of sup. */
  lemma SubsetBitsPerBit(sub: bv64, sup: bv64, k: nat)
    requires SubsetBits(sub, sup) && k < 64
    ensures Bit(sub, k) ==> Bit(sup, k)
  {
    assert ((!sup & sub) >> k) & 1 == 0;
  }
}

/**
 * The zygote's security policy: four checks, applied in order to a parsed
 * spawn request, based on the credentials of the peer on the command
 * socket. The uid and debugger policies update the Arguments object in
 * place; the rlimit and capability policies only accept or reject.
 *
 * Each policy is a pure function over the record; the two that update the
 * object are also methods on an Arguments, proved to leave it equal to
 * the function's result. System properties and the peer's capability query
 * are parameters.
 */
module ZygotePolicy {
  import opened Wrappers
  import opened ZygoteArguments
  import opened CapabilityBits

  /** android.os.Process.SYSTEM_UID. */
  const SYSTEM_UID: int := 1000

  /** The peer's credentials as the socket reports them. */
  datatype Credentials = Credentials(uid: int, gid: int, pid: int)

  /** The ZygoteSecurityExceptions the policies throw. */
  datatype Violation =
    | SystemUidRestricted        // "System UID may not launch process with UID < 1000"
    | AppSpecifiesIds            // "App UIDs may not specify uid's or gid's"
    | AppSpecifiesRlimits        // "This UID may not specify rlimits."
    | CapabilityQueryFailed      // "Error retrieving peer's capabilities."
    | EffectiveExceedsPermitted  // "Effective capabilities cannot be superset of permitted capabilities"
    | PermittedExceedsPeer       // "Peer specified unpermitted capabilities"

  // ---------------------------------------------------------------------
  // applyUidSecurityPolicy

  /** ro.factorytest is "1" or "2": factory test mode, where the system uid may launch any uid. */
  predicate FactoryTestMode(factoryTest: string) {
    factoryTest == "1" || factoryTest == "2"
  }

  /** The tail of the uid policy: an unspecified uid or gid is taken from the peer, and both count as specified. */
  function InheritIds(a: ArgsValue, peer: Credentials): ArgsValue {
    a.(uid := if a.uidSpecified then a.uid else peer.uid, uidSpecified := true,
       gid := if a.gidSpecified then a.gid else peer.gid, gidSpecified := true)
  }

  /**
   * applyUidSecurityPolicy: root may ask for anything; the system uid may
   * not ask for a uid below its own outside factory test mode; any other
   * peer may not ask for a uid, a gid or groups at all. What passes has
   * its unspecified ids inherited from the peer.
   */
  function UidPolicy(a: ArgsValue, peer: Credentials, factoryTest: string): Result<ArgsValue, Violation> {
    if peer.uid == 0 then Ok(InheritIds(a, peer))
    else if peer.uid == SYSTEM_UID then
      if !FactoryTestMode(factoryTest) && a.uidSpecified && a.uid < SYSTEM_UID then Err(SystemUidRestricted)
      else Ok(InheritIds(a, peer))
    else if a.uidSpecified || a.gidSpecified || a.gids.Some? then Err(AppSpecifiesIds)
    else Ok(InheritIds(a, peer))
  }

  /** A root peer passes whatever it asks for. */
  lemma RootPassesUidPolicy(a: ArgsValue, peer: Credentials, factoryTest: string)
    requires peer.uid == 0
    ensures UidPolicy(a, peer, factoryTest).Ok?
  {
  }

  /**
   * The system uid is refused exactly when it names a uid below 1000
   * outside factory test mode; uid 1000 itself is allowed.
   */
  lemma SystemUidPolicy(a: ArgsValue, peer: Credentials, factoryTest: string)
    requires peer.uid == SYSTEM_UID
    ensures UidPolicy(a, peer, factoryTest).Err? <==>
            a.uidSpecified && a.uid < SYSTEM_UID && factoryTest != "1" && factoryTest != "2"
    ensures a.uidSpecified && a.uid == SYSTEM_UID ==> UidPolicy(a, peer, factoryTest).Ok?
  {
  }

  /** Any other peer is refused exactly when it names a uid, a gid or groups; what passes runs as the peer. */
  lemma AppUidPolicy(a: ArgsValue, peer: Credentials, factoryTest: string)
    requires peer.uid != 0 && peer.uid != SYSTEM_UID
    ensures UidPolicy(a, peer, factoryTest).Err? <==> a.uidSpecified || a.gidSpecified || a.gids.Some?
    ensures UidPolicy(a, peer, factoryTest).Ok? ==>
            UidPolicy(a, peer, factoryTest).value.uid == peer.uid &&
            UidPolicy(a, peer, factoryTest).value.gid == peer.gid
  {
  }

  /** Inheriting the ids fills in exactly uid and gid, from the peer where the request named none. */
  lemma InheritIdsFields(a: ArgsValue, peer: Credentials)
    ensures var r := InheritIds(a, peer);
      && r.uidSpecified && r.gidSpecified
      && r.uid == (if a.uidSpecified then a.uid else peer.uid)
      && r.gid == (if a.gidSpecified then a.gid else peer.gid)
      && r.(uid := a.uid, uidSpecified := a.uidSpecified, gid := a.gid, gidSpecified := a.gidSpecified) == a
  {
  }

  /**
   * After the uid policy passes, uid and gid are both specified; each is
   * the requested one if there was one and the peer's otherwise; nothing
   * else in the record changed; and the policy refuses only with one of
   * the two uid violations.
   */
  lemma UidPolicyResult(a: ArgsValue, peer: Credentials, factoryTest: string)
    ensures var r := UidPolicy(a, peer, factoryTest);
      && (r.Ok? ==>
            && r.value.uidSpecified && r.value.gidSpecified
            && r.value.uid == (if a.uidSpecified then a.uid else peer.uid)
            && r.value.gid == (if a.gidSpecified then a.gid else peer.gid)
            && r.value.(uid := a.uid, uidSpecified := a.uidSpecified,
                        gid := a.gid, gidSpecified := a.gidSpecified) == a)
      && (r.Err? ==> r.error == SystemUidRestricted || r.error == AppSpecifiesIds)
  {
    InheritIdsFields(a, peer);
    var r := UidPolicy(a, peer, factoryTest);
    assert r.Ok? ==> r.value == InheritIds(a, peer);
  }

  /** applyUidSecurityPolicy on an Arguments object: throws without touching it, or updates it in place. */
  method ApplyUidSecurityPolicy(args: Arguments, peer: Credentials, factoryTest: string) returns (v: Option<Violation>)
    modifies args
    ensures var r := UidPolicy(old(args.Value()), peer, factoryTest);
      && (r.Err? ==> v == Some(r.error) && args.Value() == old(args.Value()))
      && (r.Ok? ==> v == None && args.Value() == r.value)
  {
    var peerUid := peer.uid;
    if peerUid == 0 {
    } else if peerUid == SYSTEM_UID {
      var uidRestricted := !(factoryTest == "1" || factoryTest == "2");
      if uidRestricted && args.uidSpecified && args.uid < SYSTEM_UID {
        return Some(SystemUidRestricted);
      }
    } else {
      if args.uidSpecified || args.gidSpecified || args.gids.Some? {
        return Some(AppSpecifiesIds);
      }
    }
    if !args.uidSpecified {
      args.uid := peer.uid;
      args.uidSpecified := true;
    }
    if !args.gidSpecified {
      args.gid := peer.gid;
      args.gidSpecified := true;
    }
    v := None;
  }

  // ---------------------------------------------------------------------
  // applyDebuggerSecurityPolicy

  /** applyDebuggerSecurityPolicy: on a debuggable build ("1") every process gets the debugger flag. */
  function DebuggerPolicy(a: ArgsValue, debuggable: string): ArgsValue {
    if debuggable == "1" then a.(debugFlags := a.debugFlags + {EnableDebugger}) else a
  }

  /**
   * The debugger policy turns the debugger flag on exactly when the build
   * is debuggable or the request asked for it, and leaves the other flags
   * and every other field as they were.
   */
  lemma DebuggerPolicyFlags(a: ArgsValue, debuggable: string)
    ensures var r := DebuggerPolicy(a, debuggable);
      && (EnableDebugger in r.debugFlags <==> debuggable == "1" || EnableDebugger in a.debugFlags)
      && r.debugFlags - {EnableDebugger} == a.debugFlags - {EnableDebugger}
      && r.(debugFlags := a.debugFlags) == a
  {
  }

  /** In the word handed to the fork, the policy ors in DEBUG_ENABLE_DEBUGGER on a debuggable build. */
  lemma DebuggerPolicyWord(a: ArgsValue, debuggable: string)
    ensures DebugWord(DebuggerPolicy(a, debuggable).debugFlags) ==
            if debuggable == "1" && EnableDebugger !in a.debugFlags then DebugWord(a.debugFlags) + DebugBit(EnableDebugger)
            else DebugWord(a.debugFlags)
  {
  }

  /** applyDebuggerSecurityPolicy on an Arguments object; it never throws. */
  method ApplyDebuggerSecurityPolicy(args: Arguments, debuggable: string)
    modifies args
    ensures args.Value() == DebuggerPolicy(old(args.Value()), debuggable)
  {
    if "1" == debuggable {
      args.debugFlags := args.debugFlags + {EnableDebugger};
    }
  }

  // ---------------------------------------------------------------------
  // applyRlimitSecurityPolicy

  /** applyRlimitSecurityPolicy: only root and the system uid may ask for rlimits. */
  function RlimitPolicy(a: ArgsValue, peer: Credentials): Option<Violation> {
    if !(peer.uid == 0 || peer.uid == SYSTEM_UID) && a.rlimits.Some? then Some(AppSpecifiesRlimits) else None
  }

  /**
   * Root and the system uid may set any rlimits; a request from any other
   * peer passes only without rlimits, so a process forked for an app keeps
   * the zygote's limits. A refusal is always the one violation "This UID may not specify rlimits".
   */
  lemma RlimitPolicyRefuses(a: ArgsValue, peer: Credentials)
    ensures peer.uid == 0 || peer.uid == SYSTEM_UID ==> RlimitPolicy(a, peer).None?
    ensures peer.uid != 0 && peer.uid != SYSTEM_UID ==> (RlimitPolicy(a, peer).None? <==> a.rlimits.None?)
    ensures RlimitPolicy(a, peer).Some? ==> RlimitPolicy(a, peer) == Some(AppSpecifiesRlimits)
  {
  }

  // ---------------------------------------------------------------------
  // applyCapabilitiesSecurityPolicy

  /**
   * applyCapabilitiesSecurityPolicy: nothing to check when no capabilities
   * are asked for or the peer is root; otherwise the peer's permitted set
   * is queried (peerPermitted is the answer, None when the query fails),
   * the effective set must lie within the permitted one, and the
   * permitted one within the peer's.
   */
  function CapabilitiesPolicy(a: ArgsValue, peer: Credentials, peerPermitted: Option<bv64>): Option<Violation> {
    if a.permittedCapabilities == 0 && a.effectiveCapabilities == 0 then None
    else if peer.uid == 0 then None
    else if peerPermitted.None? then Some(CapabilityQueryFailed)
    else if !SubsetBits(a.effectiveCapabilities, a.permittedCapabilities) then Some(EffectiveExceedsPermitted)
    else if !SubsetBits(a.permittedCapabilities, peerPermitted.value) then Some(PermittedExceedsPeer)
    else None
  }

  /**
   * The capability policy passes exactly when no capabilities are asked
   * for, or the peer is root, or the query answers and effective lies
   * within permitted, which lies within the peer's permitted set.
   */
  lemma CapabilitiesPolicyPasses(a: ArgsValue, peer: Credentials, peerPermitted: Option<bv64>)
    ensures CapabilitiesPolicy(a, peer, peerPermitted).None? <==>
            || (a.permittedCapabilities == 0 && a.effectiveCapabilities == 0)
            || peer.uid == 0
            || (&& peerPermitted.Some?
                && Within(a.effectiveCapabilities, a.permittedCapabilities)
                && Within(a.permittedCapabilities, peerPermitted.value))
  {
    if a.permittedCapabilities == 0 && a.effectiveCapabilities == 0 {
    } else if peer.uid == 0 {
    } else if peerPermitted.Some? {
      SubsetBitsIsWithin(a.effectiveCapabilities, a.permittedCapabilities);
      SubsetBitsIsWithin(a.permittedCapabilities, peerPermitted.value);
    }
  }

  /** A failed query refuses whenever there is something to check for a peer other than root. */
  lemma CapabilityQueryFailureRefuses(a: ArgsValue, peer: Credentials)
    requires a.permittedCapabilities != 0 || a.effectiveCapabilities != 0
    requires peer.uid != 0
    ensures CapabilitiesPolicy(a, peer, None) == Some(CapabilityQueryFailed)
  {
  }

  /** What passes the policy for a peer other than root grants no bit the peer itself lacks. */
  lemma CapabilitiesWithinPeer(a: ArgsValue, peer: Credentials, peerPermitted: Option<bv64>)
    requires CapabilitiesPolicy(a, peer, peerPermitted).None? && peer.uid != 0
    requires a.permittedCapabilities != 0 || a.effectiveCapabilities != 0
    ensures peerPermitted.Some?
    ensures forall k :: 0 <= k < 64 && Bit(a.effectiveCapabilities, k) ==> Bit(a.permittedCapabilities, k)
    ensures forall k :: 0 <= k < 64 && Bit(a.permittedCapabilities, k) ==> Bit(peerPermitted.value, k)
  {
    forall k | 0 <= k < 64
      ensures Bit(a.effectiveCapabilities, k) ==> Bit(a.permittedCapabilities, k)
      ensures Bit(a.permittedCapabilities, k) ==> Bit(peerPermitted.value, k)
    {
      SubsetBitsPerBit(a.effectiveCapabilities, a.permittedCapabilities, k);
      SubsetBitsPerBit(a.permittedCapabilities, peerPermitted.value, k);
    }
  }

  // ---------------------------------------------------------------------
  // The four in sequence

  /** What the policies read from outside the request: ro.factorytest, ro.debuggable, and the peer's capability query. */
  datatype Platform = Platform(factoryTest: string, debuggable: string, peerPermitted: Option<bv64>)

  /** The four policies in the order runOnce applies them, each on the record the one before left. */
  function ApplyPolicies(a: ArgsValue, peer: Credentials, platform: Platform): Result<ArgsValue, Violation> {
    match UidPolicy(a, peer, platform.factoryTest)
    case Err(v) => Err(v)
    case Ok(u) =>
      var d := DebuggerPolicy(u, platform.debuggable);
      if RlimitPolicy(d, peer).Some? then Err(RlimitPolicy(d, peer).value)
      else if CapabilitiesPolicy(d, peer, platform.peerPermitted).Some? then
        Err(CapabilitiesPolicy(d, peer, platform.peerPermitted).value)
      else Ok(d)
  }

  /** The uid and debugger policies leave the fields the other two policies read as they were. */
  lemma PoliciesKeepChecked(a: ArgsValue, peer: Credentials, platform: Platform)
    requires UidPolicy(a, peer, platform.factoryTest).Ok?
    ensures var d := DebuggerPolicy(UidPolicy(a, peer, platform.factoryTest).value, platform.debuggable);
      RlimitPolicy(d, peer) == RlimitPolicy(a, peer) &&
      CapabilitiesPolicy(d, peer, platform.peerPermitted) == CapabilitiesPolicy(a, peer, platform.peerPermitted)
  {
    UidPolicyResult(a, peer, platform.factoryTest);
    var u := UidPolicy(a, peer, platform.factoryTest).value;
    DebuggerPolicyFlags(u, platform.debuggable);
    assert u.rlimits == a.rlimits;
    assert u.permittedCapabilities == a.permittedCapabilities && u.effectiveCapabilities == a.effectiveCapabilities;
  }

  /**
   * The request passes exactly when each policy, applied to it, passes.
   * What passes runs as the peer when the peer is an app, carries the
   * debugger flag on a debuggable build, and asks for rlimits only if the
   * peer is root or the system uid.
   */
  lemma ApplyPoliciesPasses(a: ArgsValue, peer: Credentials, platform: Platform)
    ensures ApplyPolicies(a, peer, platform).Ok? <==>
            && UidPolicy(a, peer, platform.factoryTest).Ok?
            && RlimitPolicy(a, peer).None?
            && CapabilitiesPolicy(a, peer, platform.peerPermitted).None?
    ensures ApplyPolicies(a, peer, platform).Ok? ==>
            var r := ApplyPolicies(a, peer, platform).value;
            && (peer.uid != 0 && peer.uid != SYSTEM_UID ==> r.uid == peer.uid && r.gid == peer.gid && r.rlimits.None?)
            && (platform.debuggable == "1" ==> EnableDebugger in r.debugFlags)
  {
    if UidPolicy(a, peer, platform.factoryTest).Ok? {
      PoliciesKeepChecked(a, peer, platform);
      var u := UidPolicy(a, peer, platform.factoryTest).value;
      DebuggerPolicyFlags(u, platform.debuggable);
      if peer.uid != 0 && peer.uid != SYSTEM_UID {
        AppUidPolicy(a, peer, platform.factoryTest);
        RlimitPolicyRefuses(a, peer);
      }
    }
  }

  /**
   * The four policy calls of runOnce on the parsed Arguments object, in
   * order: the first violation is returned, after the policies before it
   * updated the object; when all pass, the object is the combined result.
   */
  method ApplySecurityPolicies(args: Arguments, peer: Credentials, platform: Platform) returns (v: Option<Violation>)
    modifies args
    ensures var r := ApplyPolicies(old(args.Value()), peer, platform);
      && (r.Err? ==> v == Some(r.error))
      && (r.Ok? ==> v == None && args.Value() == r.value)
    ensures args.peerWait == old(args.peerWait)
  {
    ghost var a := args.Value();
    UidPolicyResult(a, peer, platform.factoryTest);
    v := ApplyUidSecurityPolicy(args, peer, platform.factoryTest);
    if v.Some? {
      return;
    }
    DebuggerPolicyFlags(args.Value(), platform.debuggable);
    ApplyDebuggerSecurityPolicy(args, platform.debuggable);
    v := RlimitPolicy(args.Value(), peer);
    if v.None? {
      v := CapabilitiesPolicy(args.Value(), peer, platform.peerPermitted);
    }
  }
}
