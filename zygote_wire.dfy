/**
 * The zygote's wire format: a request is a decimal count line followed by
 * exactly that many argument lines. The socket is the sequence of lines
 * still to be read; reading from an empty sequence is end of stream
 * (readLine returning null).
 *
 * ReadArgs states what readArgumentList returns and how many lines it
 * takes; EncodeArgs is the client side of the format, its partner.
 */
module ZygoteWire {
  import opened Wrappers
  import opened JavaLang

  /** ZygoteConnection.MAX_ZYGOTE_ARGC: the largest count accepted. */
  const MAX_ZYGOTE_ARGC: int := 1024

  /** The IOExceptions readArgumentList throws. */
  datatype WireFault =
    | InvalidWireFormat     // "invalid wire format": the count line is not an int
    | MaxArgCountExceeded   // "max arg count exceeded"
    | TruncatedRequest      // "truncated request": the stream ended inside the arguments

  /** What readArgumentList produces. */
  datatype ReadOutcome =
    | EndOfStream                 // null: the stream ended before a count line
    | WireError(fault: WireFault) // an IOException
    | ArgList(args: seq<string>)  // the argument strings of one request
    | NegativeCount(argc: int)    // new String[argc] with argc < 0: a NegativeArraySizeException

  /** An outcome and the number of lines it took from the stream. */
  datatype Reading = Reading(outcome: ReadOutcome, consumed: nat)

  /**
   * readArgumentList on the stream lines: the count line, then the
   * upper-bound check (before any argument line is read), then the array
   * allocation that a negative count makes throw, then argc lines.
   */
  function ReadArgs(lines: seq<string>): (r: Reading)
    ensures r.consumed <= |lines|
  {
    if |lines| == 0 then Reading(EndOfStream, 0)
    else match ParseInt(lines[0])
      case None => Reading(WireError(InvalidWireFormat), 1)
      case Some(argc) =>
        if argc > MAX_ZYGOTE_ARGC then Reading(WireError(MaxArgCountExceeded), 1)
        else if argc < 0 then Reading(NegativeCount(argc), 1)
        else if |lines| - 1 < argc then Reading(WireError(TruncatedRequest), |lines|)
        else Reading(ArgList(lines[1..1 + argc]), 1 + argc)
  }

  /** End of stream on the count line is the clean end, not an error. */
  lemma ReadAtEndOfStream()
    ensures ReadArgs([]) == Reading(EndOfStream, 0)
  {
  }

  /**
   * A count line that is not an int, or that is above 1024, is refused
   * with the count line as the only line taken.
   */
  lemma ReadBadCount(lines: seq<string>)
    requires |lines| > 0
    ensures ParseInt(lines[0]).None? ==> ReadArgs(lines) == Reading(WireError(InvalidWireFormat), 1)
    ensures ParseInt(lines[0]).Some? && ParseInt(lines[0]).value > MAX_ZYGOTE_ARGC ==>
            ReadArgs(lines) == Reading(WireError(MaxArgCountExceeded), 1)
  {
  }

  /**
   * When it succeeds, the request is the next argc lines, in order, after
   * the count line; and it succeeds exactly when the count is an int in
   * 0..1024 and that many lines follow it.
   */
  lemma ReadSucceeds(lines: seq<string>)
    ensures ReadArgs(lines).outcome.ArgList? <==>
            && |lines| > 0 && ParseInt(lines[0]).Some?
            && 0 <= ParseInt(lines[0]).value <= MAX_ZYGOTE_ARGC
            && ParseInt(lines[0]).value <= |lines| - 1
    ensures ReadArgs(lines).outcome.ArgList? ==>
            var argc := ParseInt(lines[0]).value;
            && |ReadArgs(lines).outcome.args| == argc
            && ReadArgs(lines).consumed == 1 + argc
            && (forall i :: 0 <= i < argc ==> ReadArgs(lines).outcome.args[i] == lines[1 + i])
  {
  }

  /** A valid count with fewer lines after it than it announces is a truncated request; the whole stream is taken. */
  lemma ReadTruncated(lines: seq<string>)
    requires |lines| > 0 && ParseInt(lines[0]).Some?
    requires 0 <= ParseInt(lines[0]).value <= MAX_ZYGOTE_ARGC
    requires |lines| - 1 < ParseInt(lines[0]).value
    ensures ReadArgs(lines) == Reading(WireError(TruncatedRequest), |lines|)
  {
  }

  /** Negative counts pass both checks and reach the array allocation. */
  lemma ReadNegativeCount(lines: seq<string>)
    requires |lines| > 0 && ParseInt(lines[0]).Some? && ParseInt(lines[0]).value < 0
    ensures ReadArgs(lines) == Reading(NegativeCount(ParseInt(lines[0]).value), 1)
  {
  }

  /** Only a read of the count line can take no lines: every other outcome takes at least that line. */
  lemma ReadTakesCountLine(lines: seq<string>)
    ensures ReadArgs(lines).consumed == 0 <==> ReadArgs(lines).outcome.EndOfStream?
    ensures ReadArgs(lines).outcome.EndOfStream? <==> |lines| == 0
  {
  }

  /** The client side of the format (Process.zygoteSendArgsAndGetPid): the count, then the arguments. */
  function EncodeArgs(args: seq<string>): (lines: seq<string>)
    ensures |lines| == 1 + |args| && lines[1..] == args
  {
    [IntToString(|args|)] + args
  }

  /**
   * What the client writes the zygote reads back, whatever follows it on
   * the stream: exactly the arguments, taking exactly the request's lines,
   * so the next request starts right after it.
   */
  lemma ReadEncoded(args: seq<string>, rest: seq<string>)
    requires |args| <= MAX_ZYGOTE_ARGC
    ensures ReadArgs(EncodeArgs(args) + rest) == Reading(ArgList(args), 1 + |args|)
  {
    var lines := EncodeArgs(args) + rest;
    ParseIntOfToString(|args|);
    assert lines[0] == IntToString(|args|);
    assert lines[1..1 + |args|] == args;
  }

  /** A client that sends more than 1024 arguments is refused on the count line. */
  lemma ReadOversized(args: seq<string>, rest: seq<string>)
    requires MAX_ZYGOTE_ARGC < |args| <= INT_MAX
    ensures ReadArgs(EncodeArgs(args) + rest) == Reading(WireError(MaxArgCountExceeded), 1)
  {
    var lines := EncodeArgs(args) + rest;
    ParseIntOfToString(|args|);
    assert lines[0] == IntToString(|args|);
  }

  /** Two requests sent back to back are read back one after the other. */
  lemma ReadTwoRequests(first: seq<string>, second: seq<string>)
    requires |first| <= MAX_ZYGOTE_ARGC && |second| <= MAX_ZYGOTE_ARGC
    ensures var lines := EncodeArgs(first) + EncodeArgs(second);
      && ReadArgs(lines) == Reading(ArgList(first), 1 + |first|)
      && ReadArgs(lines[1 + |first|..]).outcome == ArgList(second)
  {
    var lines := EncodeArgs(first) + EncodeArgs(second);
    ReadEncoded(first, EncodeArgs(second));
    assert lines[1 + |first|..] == EncodeArgs(second) + [];
    ReadEncoded(second, []);
  }
}
