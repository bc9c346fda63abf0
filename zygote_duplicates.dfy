/**
 * The once-only flags of parseArgs: --setuid=, --setgid=, --capabilities=,
 * --setgroups= and -classpath. Each sets a field that the loop checks before
 * accepting the flag again, so a second occurrence is refused wherever the
 * loop meets it, not only right after the first. This module states that
 * over runs of other flags of any length.
 */
module ZygoteDuplicates {
  import opened Wrappers
  import opened JavaLang
  import opened ZygoteArguments

  /** The loop from position i with record a ends in a rejection. */
  predicate Blocked(args: seq<string>, i: nat, a: ArgsValue)
    requires i <= |args|
  {
    ParseLoop(args, i, a).Failed?
  }

  /** A step of any kind that goes on keeps a once-only flag given. */
  lemma GivenPersists(k: FlagKind, kind: FlagKind, arg: string, following: Option<string>, a: ArgsValue)
    requires OnlyOnce(k) && Given(k, a)
    ensures KindStep(kind, arg, following, a).Next? ==> Given(k, KindStep(kind, arg, following, a).a)
  {
  }

  /**
   * The arguments from i up to j are turns of the loop that neither stop
   * nor skip position j: flags other than "--", each -classpath together
   * with the value it takes.
   */
  predicate FlagRun(args: seq<string>, i: nat, j: nat)
    requires j <= |args|
    decreases j - i
  {
    if i >= j then i == j
    else
      && Recognised(args[i]) && !Classify(args[i]).Separator?
      && if Classify(args[i]).Classpath? then i + 2 <= j && FlagRun(args, i + 2, j)
         else FlagRun(args, i + 1, j)
  }

  /** Inside a run, a turn does not stop the loop. */
  lemma FlagRunGoesOn(args: seq<string>, i: nat, j: nat, a: ArgsValue)
    requires i < j <= |args| && FlagRun(args, i, j)
    ensures !FlagStep(args[i], Following(args, i), a).Stop?
  {
  }

  /** The rest of a run after its first turn. */
  lemma FlagRunRest(args: seq<string>, i: nat, j: nat)
    requires i < j <= |args| && FlagRun(args, i, j)
    ensures Classify(args[i]) == Classpath ==> i + 2 <= j && FlagRun(args, i + 2, j)
    ensures Classify(args[i]) != Classpath ==> FlagRun(args, i + 1, j)
  {
  }

  /**
   * The first turn of a run: the loop fails there, or it fails exactly when
   * it fails w arguments later with record b, in which a once-only flag k is
   * given if it was given before or if this turn was k.
   */
  lemma RunTurn(args: seq<string>, i: nat, j: nat, a: ArgsValue, k: FlagKind) returns (w: nat, b: ArgsValue)
    requires OnlyOnce(k) && i < j <= |args| && FlagRun(args, i, j)
    ensures Blocked(args, i, a) ||
            (&& w >= 1 && i + w <= j && FlagRun(args, i + w, j)
             && (Blocked(args, i + w, b) ==> Blocked(args, i, a))
             && (Given(k, a) || Classify(args[i]) == k ==> Given(k, b)))
  {
    var s := FlagStep(args[i], Following(args, i), a);
    assert ParseLoop(args, i, a) == Turn(args, i, a);
    FlagRunGoesOn(args, i, j, a);
    w, b := 1, a;
    if s.Next? {
      FlagRunRest(args, i, j);
      if Given(k, a) {
        GivenPersists(k, Classify(args[i]), args[i], Following(args, i), a);
      }
      if Classify(args[i]) == k {
        StepMarksGiven(k, args[i], Following(args, i), a);
      }
      w, b := s.width, s.a;
    }
  }

  /** At a once-only flag that is already given, the loop fails. */
  lemma GivenRejected(args: seq<string>, j: nat, a: ArgsValue, k: FlagKind)
    requires j < |args| && Classify(args[j]) == k && Given(k, a)
    ensures Blocked(args, j, a)
  {
    RepeatRejected(k, args[j], Following(args, j), a);
    assert ParseLoop(args, j, a) == Turn(args, j, a);
  }

  /**
   * Once a flag that may appear only once is given, the loop fails when it
   * reaches that flag again, however many other flags come between.
   */
  lemma {:induction false} RepeatAnywhere(args: seq<string>, i: nat, j: nat, a: ArgsValue, k: FlagKind)
    requires OnlyOnce(k) && Given(k, a)
    requires i <= j < |args| && FlagRun(args, i, j) && Classify(args[j]) == k
    ensures Blocked(args, i, a)
    decreases j - i
  {
    if i == j {
      GivenRejected(args, i, a, k);
    } else {
      var w, b := RunTurn(args, i, j, a, k);
      if !Blocked(args, i, a) {
        RepeatAnywhere(args, i + w, j, b, k);
      }
    }
  }

  /**
   * A second --setuid=, --setgid=, --capabilities=, --setgroups= or
   * -classpath that the loop reaches after a run of other flags is
   * refused, wherever the run started.
   */
  lemma {:induction false} RepeatAfterRun(args: seq<string>, m: nat, i: nat, j: nat, a: ArgsValue)
    requires m <= i < j < |args| && FlagRun(args, m, i) && FlagRun(args, i, j)
    requires OnlyOnce(Classify(args[i])) && Classify(args[j]) == Classify(args[i])
    ensures Blocked(args, m, a)
    decreases i - m
  {
    var k := Classify(args[i]);
    var w, b := RunTurn(args, m, if m == i then j else i, a, k);
    if !Blocked(args, m, a) {
      if m == i {
        RepeatAnywhere(args, m + w, j, b, k);
      } else {
        RepeatAfterRun(args, m + w, i, j, b);
      }
    }
  }

  /** parseArgs refuses a request in which the loop meets a once-only flag twice. */
  lemma ParseRejectsRepeat(args: seq<string>, i: nat, j: nat)
    requires i < j < |args| && FlagRun(args, 0, i) && FlagRun(args, i, j)
    requires OnlyOnce(Classify(args[i])) && Classify(args[j]) == Classify(args[i])
    ensures Parse(args).Err?
  {
    RepeatAfterRun(args, 0, i, j, INITIAL);
  }

  /** A second --setuid= behind a --peer-wait is refused, whatever the two values. */
  lemma SmuggledSetUidRejected(u: string, v: string)
    ensures Parse(["--setuid=" + u, "--peer-wait", "--setuid=" + v]).Err?
  {
    var args := ["--setuid=" + u, "--peer-wait", "--setuid=" + v];
    StartsWithIsPrefix(args[0], "--setuid=");
    StartsWithIsPrefix(args[2], "--setuid=");
    EqualsIsEquality(args[1], "--peer-wait");
    ClassifyIds(args[0]);
    ClassifyIds(args[2]);
    ClassifyPeerWaitRuntimeInit(args[1]);
    assert FlagRun(args, 1, 2);
    assert FlagRun(args, 0, 2);
    ParseRejectsRepeat(args, 0, 2);
  }
}
