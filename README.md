# Zygote spawn requests, modelled in Dafny

This project models how the Android zygote handles one connection on its
command socket (`com.android.internal.os.ZygoteConnection`):

- the wire format of a spawn request: a count line, then that many argument lines;
- the argument parser (`Arguments.parseArgs`);
- the four security policies applied before the fork;
- one turn of the serving loop (`runOnce`), with the parent's reply (`handleParentProc`) and the child's dispatch (`handleChildProc`);
- the collector countdown of `run`.

It also models the alpha classifier of `android.graphics.PixelFormat` and its format constants.

Files and modules:

- `wrappers.dfy` (`Wrappers`): `Option` and `Result`.
- `java_lang.dfy` (`JavaLang`): the library calls the parser relies on, stated as functions:
  - `String.equals`, `startsWith`, `indexOf`, `split(",")` and `split(",", 2)`;
  - `Integer.parseInt` and `Long.decode`;
  - `Integer.toString`, as the partner of parsing.
- `zygote_wire.dfy` (`ZygoteWire`): `ReadArgs` specifies `readArgumentList`. `EncodeArgs` is the client side of the format.
- `zygote_arguments.dfy` (`ZygoteArguments`):
  - `Parse` specifies `parseArgs` one flag at a time (`FlagStep`, `ParseLoop`);
  - the class `Arguments` holds the fields that `parseArgs` updates in place, and `Arguments.ParseArgs` is proved to follow `Parse`.
- `zygote_duplicates.dfy` (`ZygoteDuplicates`): a once-only flag given a second time is refused however many other flags come between the two.
- `zygote_policy.dfy`:
  - `CapabilityBits`: the bit-level subset test;
  - `ZygotePolicy`: the four policies as functions on the argument record, and in-place methods on an `Arguments` object proved against them.
- `zygote_connection.dfy` (`ZygoteConnection`):
  - `RunOnceTurn` specifies one turn;
  - the class `Connection` holds the socket state, and `Connection.RunOnce` and `Connection.Run` are proved against the specification functions;
  - `Replay` folds a trace of turns over the connection state, and `Faithful` says each turn of the trace is `RunOnceTurn` on what the earlier turns left;
  - `RunOnceAsWritten` keeps two defects of the source (see Findings).
- `pixel_format.dfy` (`PixelFormat`).

Modelling choices:

- The socket is the sequence of lines not yet read plus the sequence of ints written back. End of stream is an empty sequence.
- What the native side answers is an `Env`, one per request. This covers:
  - the descriptor query;
  - `ro.factorytest` and `ro.debuggable`;
  - the peer's capability query;
  - the pid the fork returns;
  - whether writing the reply succeeds.
- The peer's credentials are a parameter of the connection.
- Java ints and longs are unbounded integers, range-checked where the source parses them. Capability sets are `bv64`.
- The debug flags are a set, and `DebugWord` gives the int word the fork receives. The flag values are `DEBUG_ENABLE_DEBUGGER` = 1, `DEBUG_ENABLE_CHECKJNI` = 2 and `DEBUG_ENABLE_ASSERT` = 4, as in `dalvik.system.Zygote`.
- `Integer.parseInt` is modelled on an optional `-` and ASCII decimal digits, with a value in the 32-bit range. Other Unicode digits are not modelled (see Left out).
- `Long.decode` accepts:
  - an optional `-`;
  - a prefix of `0x`, `0X` or `#` for hexadecimal, or a leading `0` for octal;
  - ASCII digits and the ASCII letters `a`-`f` and `A`-`F`;
  - a value in the signed 64-bit range.

Where the doc comments and the code disagree, the model follows the code:

- The doc comment of `applyUidSecurityPolicy` says the system uid may ask for a uid greater than 1000. The code allows 1000 itself (`>=`).
- The doc comment of `Arguments` writes `--classpath`. The code tests `-classpath`, with one dash, and takes the next argument as the value.

## Model

Source paths are relative to the repository root.

| member | source | states |
|---|---|---|
| PixelFormat.FormatHasAlpha | android/graphics/PixelFormat.java:83-95 | the result is true exactly for A_8, LA_88, RGBA_4444, RGBA_5551, RGBA_8888, TRANSLUCENT and TRANSPARENT, and false for every other int |
| PixelFormat.AlphaFormatsHaveAlpha | android/graphics/PixelFormat.java:84-92 | each of the seven switch cases has alpha |
| PixelFormat.SystemChosenFormats | android/graphics/PixelFormat.java:26-36 | TRANSLUCENT and TRANSPARENT (at least one alpha bit) have alpha; OPAQUE does not |
| PixelFormat.OtherFormatsHaveNoAlpha | android/graphics/PixelFormat.java:24-73 | every other named format (UNKNOWN, OPAQUE, RGBX_8888, RGB_888, RGB_565, L_8, RGB_332, the YCbCr formats, JPEG) has no alpha |
| PixelFormat.FormatConstantsDistinct | android/graphics/PixelFormat.java:24-73 | the seven alpha constants are pairwise distinct, and none equals another named format, so the switch has no overlapping case |
| JavaLang.StartsWithIsPrefix | com/android/internal/os/ZygoteConnection.java:348 | `startsWith` holds exactly when the prefix is an initial segment of the string |
| JavaLang.EqualsIsEquality | com/android/internal/os/ZygoteConnection.java:345 | `equals` is string equality |
| JavaLang.StartsWithExcludes | com/android/internal/os/ZygoteConnection.java:345-435 | a string that starts with one flag neither starts with nor equals a flag that differs from it at some position, so the if-chain's tests exclude each other |
| JavaLang.IndexOf | com/android/internal/os/ZygoteConnection.java:355 | `indexOf` returns -1 or a position in the string |
| JavaLang.IndexOfFindsFirst | com/android/internal/os/ZygoteConnection.java:355 | -1 exactly when the char is absent; otherwise the char is at that position and nowhere before it |
| JavaLang.AfterEqualsOfFlag | com/android/internal/os/ZygoteConnection.java:354-355 | for an argument starting with a flag whose only `=` is its last char, `substring(indexOf('=') + 1)` is exactly what follows the flag |
| JavaLang.Fields | com/android/internal/os/ZygoteConnection.java:393-394 | every comma-separated field, empty ones included, at least one; `FieldsHaveNoComma` and `JoinFieldsOfFields` show these are the pieces between the commas |
| JavaLang.FieldsHaveNoComma | com/android/internal/os/ZygoteConnection.java:394 | no comma-separated field contains a comma |
| JavaLang.JoinFieldsOfFields | com/android/internal/os/ZygoteConnection.java:394 | joining the fields with commas gives back the original string |
| JavaLang.DropTrailingEmptyDropsEmpty | com/android/internal/os/ZygoteConnection.java:394 | `split` removes only empty strings, only from the end, and the result does not end in one |
| JavaLang.Split | com/android/internal/os/ZygoteConnection.java:393-394 | `split(",")`: the whole string when there is no comma, otherwise the fields without trailing empty ones, as `SplitParts` states |
| JavaLang.SplitParts | com/android/internal/os/ZygoteConnection.java:393-394 | `split(",")` parts contain no comma; a string without a comma is its own single part; otherwise the parts are the fields without the trailing empty ones |
| JavaLang.SplitLimit2 | com/android/internal/os/ZygoteConnection.java:382 | `split(",", 2)` gives one or two parts |
| JavaLang.SplitLimit2Parts | com/android/internal/os/ZygoteConnection.java:382 | one part exactly when there is no comma, and then it is the whole string; otherwise the part before the first comma, the comma and the rest rebuild the string |
| JavaLang.Digit | com/android/internal/os/ZygoteConnection.java:354-355 | a digit value is below the radix, or -1 |
| JavaLang.ParseInt | com/android/internal/os/ZygoteConnection.java:480-481 | a parsed value is in the 32-bit range, and the string is non-empty and either starts with `-` or is all digits |
| JavaLang.DecodeLong | com/android/internal/os/ZygoteConnection.java:385-389 | a decoded value is in the signed 64-bit range |
| JavaLang.DigitChar | com/android/internal/os/ZygoteConnection.java:480 | the char written for a decimal digit reads back as that digit |
| JavaLang.NatToString | com/android/internal/os/ZygoteConnection.java:480 | decimal digits with no leading zero, whose value is the number |
| JavaLang.ParseIntOfToString | com/android/internal/os/ZygoteConnection.java:474-481 | `Integer.parseInt` reads back every 32-bit int that `Integer.toString` writes |
| JavaLang.DecodeLongOfToString | com/android/internal/os/ZygoteConnection.java:385-389 | `Long.decode` reads back the decimal form of every long |
| JavaLang.HexDigitChar | com/android/internal/os/ZygoteConnection.java:385-389 | the char written for a hexadecimal digit reads back as that digit in radix 16 |
| JavaLang.NatToHex | com/android/internal/os/ZygoteConnection.java:385-389 | hexadecimal digits, at least one, whose radix-16 value is the number |
| JavaLang.OctalDigitChar | com/android/internal/os/ZygoteConnection.java:257-258 | the char written for an octal digit is one of `0`-`7` and reads back as that digit in radix 8 |
| JavaLang.NatToOctal | com/android/internal/os/ZygoteConnection.java:257-258 | octal digits, at least one, whose radix-8 value is the number |
| JavaLang.DecodeLongOfOctal | com/android/internal/os/ZygoteConnection.java:257-258 | `Long.decode` reads back `0` and the octal digits of every long, with a `-` before a negative one |
| JavaLang.DecodeLongOfHex | com/android/internal/os/ZygoteConnection.java:385-389 | `Long.decode` reads back `0x` and the hexadecimal digits of every long, with a `-` before a negative one |
| ZygoteWire.ReadArgs | com/android/internal/os/ZygoteConnection.java:458-501 | a read never takes more lines than the stream holds |
| ZygoteWire.ReadAtEndOfStream | com/android/internal/os/ZygoteConnection.java:474-479 | end of stream before the count line is the null result, with nothing read |
| ZygoteWire.ReadBadCount | com/android/internal/os/ZygoteConnection.java:480-489 | a count that is not an int is "invalid wire format"; a count above 1024 is "max arg count exceeded"; either way only the count line is taken |
| ZygoteWire.ReadSucceeds | com/android/internal/os/ZygoteConnection.java:458-501 | a read succeeds exactly when the count is an int in 0..1024 and that many lines follow; the result is those lines, in order, and count + 1 lines are taken |
| ZygoteWire.ReadTruncated | com/android/internal/os/ZygoteConnection.java:492-497 | a valid count with too few lines after it is "truncated request", and the stream is consumed |
| ZygoteWire.ReadNegativeCount | com/android/internal/os/ZygoteConnection.java:486-491 | a negative count passes both checks and reaches the array allocation |
| ZygoteWire.ReadTakesCountLine | com/android/internal/os/ZygoteConnection.java:473-479 | a read takes no line exactly at end of stream; every other outcome takes at least the count line |
| ZygoteWire.EncodeArgs | com/android/internal/os/ZygoteConnection.java:461-468 | the client writes one line more than the arguments, and the arguments follow the count line |
| ZygoteWire.ReadEncoded | com/android/internal/os/ZygoteConnection.java:458-501 | whatever follows an encoded request of at most 1024 arguments, reading returns exactly those arguments and takes exactly the request's lines |
| ZygoteWire.ReadOversized | com/android/internal/os/ZygoteConnection.java:486-489 | a request of more than 1024 arguments is refused after the count line alone |
| ZygoteWire.ReadTwoRequests | com/android/internal/os/ZygoteConnection.java:458-501 | two requests sent back to back are read back in turn |
| ZygoteArguments.DebugWord | com/android/internal/os/ZygoteConnection.java:364-369 | the debug word is below 8, and the bit of each flag is set exactly when the flag is in the set |
| ZygoteArguments.Classify | com/android/internal/os/ZygoteConnection.java:345-438 | the branch of the if-chain an argument reaches, the first test that holds; the `Classify...` lemmas show that every flag spelling reaches its own branch |
| ZygoteArguments.ClassifyIds | com/android/internal/os/ZygoteConnection.java:345-363 | `--` and only `--` is the separator; `--setuid=` and `--setgid=` reach their own branches |
| ZygoteArguments.ClassifyDebug | com/android/internal/os/ZygoteConnection.java:364-369 | the three debug flags reach the debug branch, each with its own flag |
| ZygoteArguments.ClassifyPeerWaitRuntimeInit | com/android/internal/os/ZygoteConnection.java:370-373 | `--peer-wait` and `--runtime-init` reach their own branches |
| ZygoteArguments.ClassifyCapabilities | com/android/internal/os/ZygoteConnection.java:374 | `--capabilities=...` reaches its branch |
| ZygoteArguments.ClassifyRlimit | com/android/internal/os/ZygoteConnection.java:391 | `--rlimit=...` reaches its branch |
| ZygoteArguments.ClassifyClasspath | com/android/internal/os/ZygoteConnection.java:411 | `-classpath` (one dash) reaches its branch |
| ZygoteArguments.ClassifySetGroups | com/android/internal/os/ZygoteConnection.java:422 | `--setgroups=...` reaches its branch |
| ZygoteArguments.ParseAll | com/android/internal/os/ZygoteConnection.java:428-435 | parsing the group list gives one value per string |
| ZygoteArguments.ParseAllParsesEach | com/android/internal/os/ZygoteConnection.java:428-435 | the group list parses exactly when every entry parses, and then holds each value in order |
| ZygoteArguments.CapabilitySets | com/android/internal/os/ZygoteConnection.java:380-390 | the permitted and effective sets of a `--capabilities=` value, or none when a part does not decode; `CapabilitySetsParts` states the one-part and two-part cases |
| ZygoteArguments.CapabilitySetsParts | com/android/internal/os/ZygoteConnection.java:380-390 | a value without a comma sets both capability sets to its decoding; `p,e` sets permitted to p and effective to e; either is refused when a part does not decode |
| ZygoteArguments.RlimitOf | com/android/internal/os/ZygoteConnection.java:391-404 | the rlimit tuple of a `--rlimit=` value: its `split(",")` parts read as `RlimitOfParts` states |
| ZygoteArguments.RlimitOfParts | com/android/internal/os/ZygoteConnection.java:393-404 | a value is refused unless it has exactly three parts; the tuple is the three parsed ints in order, and it exists exactly when all three parse |
| ZygoteArguments.FlagStep | com/android/internal/os/ZygoteConnection.java:342-438 | a flag consumes one or two arguments (two only when there is a next argument); the loop stops without consuming exactly at an unrecognised argument, and after consuming one exactly at `--`; stopping leaves the record unchanged |
| ZygoteArguments.KindStep | com/android/internal/os/ZygoteConnection.java:345-438 | the loop stops exactly at the separator or a positional argument; `-classpath` consumes two arguments and every other flag one |
| ZygoteArguments.ParseLoop | com/android/internal/os/ZygoteConnection.java:342-439 | the loop stops between where it started and the end of the arguments |
| ZygoteArguments.Turn | com/android/internal/os/ZygoteConnection.java:342-439 | one turn and the loop after it stop between the current position and the end |
| ZygoteArguments.Parse | com/android/internal/os/ZygoteConnection.java:338-450 | on success the remaining arguments are a suffix of the request, and `--runtime-init` never comes with a classpath |
| ZygoteArguments.StepMarksGiven | com/android/internal/os/ZygoteConnection.java:348-431 | once accepted, `--setuid=`, `--setgid=`, `--capabilities=`, `-classpath` and `--setgroups=` mark their field as given |
| ZygoteArguments.RepeatRejected | com/android/internal/os/ZygoteConnection.java:348-426 | each of those flags is rejected as a duplicate once its field is given |
| ZygoteArguments.DebugFlagStep | com/android/internal/os/ZygoteConnection.java:364-369 | a debug flag adds its flag, changes nothing else, and changes nothing when the flag is already set |
| ZygoteArguments.RlimitStep | com/android/internal/os/ZygoteConnection.java:391-410 | `--rlimit=` is refused unless it has three parts, refused when a part does not parse, and otherwise appends the tuple to the list, creating the list on first use |
| ZygoteArguments.ClasspathStep | com/android/internal/os/ZygoteConnection.java:411-421 | `-classpath` is refused as the last argument, and otherwise takes the next argument as the classpath, consuming two |
| ZygoteArguments.ParseLoopStopsAt | com/android/internal/os/ZygoteConnection.java:345-438 | the loop ends at `--`, consuming it, and at the first unrecognised argument, keeping it |
| ZygoteArguments.Finish | com/android/internal/os/ZygoteConnection.java:441-449 | the code after the loop: the loop's error, the "incompatible" error for `--runtime-init` with a classpath, or the record with the arguments from where the loop stopped; `ParseRuntimeInitWithClasspath` and `ParseRemainingArgs` state both outcomes of `Parse` |
| ZygoteArguments.RepeatedFlagRejected | com/android/internal/os/ZygoteConnection.java:348-435 | the adjacent case: the same once-only flag twice in a row makes the request fail, with a duplicate error when the first one was accepted |
| ZygoteArguments.RepeatedClasspathRejected | com/android/internal/os/ZygoteConnection.java:411-421 | the adjacent case for `-classpath`: `-classpath x -classpath y` is rejected as a duplicate |
| ZygoteDuplicates.GivenPersists | com/android/internal/os/ZygoteConnection.java:342-438 | no turn of the loop that goes on clears the given mark of a once-only flag |
| ZygoteDuplicates.FlagRunGoesOn | com/android/internal/os/ZygoteConnection.java:342-438 | a turn inside a run of flags does not stop the loop |
| ZygoteDuplicates.FlagRunRest | com/android/internal/os/ZygoteConnection.java:342-438 | what follows the first turn of a run (two arguments for `-classpath`, one otherwise) is again a run |
| ZygoteDuplicates.RunTurn | com/android/internal/os/ZygoteConnection.java:342-438 | the first turn of a run either fails, or advances to the rest of the run with a record that keeps every given once-only flag and marks the flag of this turn; the loop fails there only if it fails after |
| ZygoteDuplicates.GivenRejected | com/android/internal/os/ZygoteConnection.java:348-426 | the loop fails at a once-only flag whose field is already given |
| ZygoteDuplicates.RepeatAnywhere | com/android/internal/os/ZygoteConnection.java:342-438 | once a once-only flag is given, the loop fails at its next occurrence, after any run of other flags |
| ZygoteDuplicates.RepeatAfterRun | com/android/internal/os/ZygoteConnection.java:342-438 | the loop fails when a once-only flag occurs twice, each occurrence reached through a run of flags |
| ZygoteDuplicates.ParseRejectsRepeat | com/android/internal/os/ZygoteConnection.java:338-450 | `parseArgs` refuses a request in which the loop reaches the same once-only flag twice, whatever lies between or after |
| ZygoteDuplicates.SmuggledSetUidRejected | com/android/internal/os/ZygoteConnection.java:348-355 | `--setuid=u --peer-wait --setuid=v` is refused, whatever u and v are |
| ZygoteArguments.ClasspathAtEndRejected | com/android/internal/os/ZygoteConnection.java:416-421 | `-classpath` as the last argument is rejected for want of a value |
| ZygoteArguments.RepeatedDebugFlag | com/android/internal/os/ZygoteConnection.java:364-369 | a debug flag given twice in a row parses as if given once |
| ZygoteArguments.RlimitFlagAdvances | com/android/internal/os/ZygoteConnection.java:391-410 | a valid `--rlimit=` appends its tuple to whatever list came before and the loop continues at the next argument, so repeated rlimits are kept in order |
| ZygoteArguments.ParseRuntimeInitWithClasspath | com/android/internal/os/ZygoteConnection.java:441-444 | the parse fails as "incompatible" exactly when the loop ended with both `--runtime-init` and a classpath |
| ZygoteArguments.ParseRemainingArgs | com/android/internal/os/ZygoteConnection.java:446-449 | on success the remaining arguments are exactly those from where the loop stopped |
| ZygoteArguments.Arguments.constructor | com/android/internal/os/ZygoteConnection.java:283-319 | a new Arguments object holds the field initialisers |
| ZygoteArguments.Arguments.ParseArgs | com/android/internal/os/ZygoteConnection.java:338-450 | the object's fields end as `Parse` gives them, or the method returns the error `Parse` gives |
| ZygoteArguments.Arguments.TakeTurn | com/android/internal/os/ZygoteConnection.java:342-439 | the loop body at one position follows the loop's specification: it throws the turn's error, or continues (advancing at least one) or breaks with the record the loop specifies |
| ZygoteArguments.Arguments.ApplyFlag | com/android/internal/os/ZygoteConnection.java:345-438 | the branch of the if-chain for the argument updates the fields as the step specifies, or throws its error |
| ZygoteArguments.Arguments.ApplySetUid | com/android/internal/os/ZygoteConnection.java:348-355 | `--setuid=`: the step `KindStep` specifies (a duplicate is rejected, a value that does not parse is a number format error, otherwise the uid is set); afterwards the uid counts as specified in every outcome, including the number format error |
| ZygoteArguments.Arguments.ApplySetGid | com/android/internal/os/ZygoteConnection.java:356-363 | `--setgid=`: the step `KindStep` specifies, as for the uid; afterwards the gid counts as specified in every outcome, including the number format error |
| ZygoteArguments.Arguments.ApplyCapabilities | com/android/internal/os/ZygoteConnection.java:374-390 | `--capabilities=`: a duplicate is rejected; otherwise both sets are decoded as `CapabilitySets` specifies |
| ZygoteArguments.Arguments.ApplyRlimit | com/android/internal/os/ZygoteConnection.java:391-410 | `--rlimit=` appends one tuple, as `RlimitOfParts` specifies |
| ZygoteArguments.Arguments.ApplySetGroups | com/android/internal/os/ZygoteConnection.java:422-435 | `--setgroups=`: a duplicate is rejected; otherwise the group list is parsed as `ParseAll` specifies |
| ZygoteArguments.DecodeCapabilities | com/android/internal/os/ZygoteConnection.java:380-390 | splitting at the first comma, then `Long.decode` of one part for both sets or of each of the two parts, computes `CapabilitySets` |
| ZygoteArguments.ParseRlimit | com/android/internal/os/ZygoteConnection.java:393-404 | the array-filling loop computes `RlimitOfParts` |
| ZygoteArguments.ParseGroups | com/android/internal/os/ZygoteConnection.java:428-435 | the loop that fills the array from its last entry down computes `ParseAll` |
| CapabilityBits.SubsetBitsIsWithin | com/android/internal/os/ZygoteConnection.java:644-658 | the source's test `(~sup & sub) == 0` holds exactly when sub's bits are contained in sup's |
| CapabilityBits.SubsetBitsGivesWithin | com/android/internal/os/ZygoteConnection.java:644-658 | one direction of that equivalence |
| CapabilityBits.WithinGivesSubsetBits | com/android/internal/os/ZygoteConnection.java:644-658 | the other direction |
| CapabilityBits.SubsetBitsPerBit | com/android/internal/os/ZygoteConnection.java:644-658 | under the source's test, every bit of sub is a bit of sup |
| ZygotePolicy.UidPolicy | com/android/internal/os/ZygoteConnection.java:519-561 | the uid policy on the argument record: the record with inherited ids or the violation; `RootPassesUidPolicy`, `SystemUidPolicy`, `AppUidPolicy` and `UidPolicyResult` state its meaning per peer |
| ZygotePolicy.RootPassesUidPolicy | com/android/internal/os/ZygoteConnection.java:519-524 | a root peer passes the uid policy whatever it asks for |
| ZygotePolicy.SystemUidPolicy | com/android/internal/os/ZygoteConnection.java:526-542 | a system-uid peer is refused exactly outside factory test mode when it names a uid below 1000; uid 1000 itself is allowed |
| ZygotePolicy.AppUidPolicy | com/android/internal/os/ZygoteConnection.java:543-560 | any other peer is refused exactly when it names a uid, a gid or groups; a request that passes runs as the peer's uid and gid |
| ZygotePolicy.InheritIdsFields | com/android/internal/os/ZygoteConnection.java:552-560 | an unspecified uid or gid is taken from the peer; both end specified; no other field changes |
| ZygotePolicy.UidPolicyResult | com/android/internal/os/ZygoteConnection.java:519-561 | on success, the uid and gid are specified, inherited from the peer where not named, and nothing else changes; the only errors are the system and app restrictions |
| ZygotePolicy.ApplyUidSecurityPolicy | com/android/internal/os/ZygoteConnection.java:519-561 | in place: refuses without touching the object, or leaves the fields `UidPolicy` gives |
| ZygotePolicy.DebuggerPolicy | com/android/internal/os/ZygoteConnection.java:572-576 | the record with the debugger flag added on a debuggable build; `DebuggerPolicyFlags` and `DebuggerPolicyWord` state what changes |
| ZygotePolicy.DebuggerPolicyFlags | com/android/internal/os/ZygoteConnection.java:572-576 | the debugger flag ends set exactly when the build is debuggable ("1") or it was already set; no other flag and no other field changes |
| ZygotePolicy.DebuggerPolicyWord | com/android/internal/os/ZygoteConnection.java:572-576 | in the word passed to the fork, the policy ors in DEBUG_ENABLE_DEBUGGER on a debuggable build |
| ZygotePolicy.ApplyDebuggerSecurityPolicy | com/android/internal/os/ZygoteConnection.java:572-576 | in place: the fields become what `DebuggerPolicy` gives; it never throws |
| ZygotePolicy.RlimitPolicy | com/android/internal/os/ZygoteConnection.java:590-603 | the rlimit policy's violation, if any; `RlimitPolicyRefuses` states who may set rlimits |
| ZygotePolicy.RlimitPolicyRefuses | com/android/internal/os/ZygoteConnection.java:590-603 | root and the system uid pass whatever they ask; any other peer passes exactly when it asks for no rlimits, so an app's process keeps the zygote's limits; a refusal is always "This UID may not specify rlimits" |
| ZygotePolicy.CapabilitiesPolicy | com/android/internal/os/ZygoteConnection.java:615-659 | the capability policy's violation, if any, given the peer's capability query; `CapabilitiesPolicyPasses`, `CapabilityQueryFailureRefuses` and `CapabilitiesWithinPeer` state when it passes and what passing guarantees |
| ZygotePolicy.CapabilitiesPolicyPasses | com/android/internal/os/ZygoteConnection.java:615-659 | passes exactly when no capability is asked for, or the peer is root, or the query succeeds with effective within permitted and permitted within the peer's permitted set |
| ZygotePolicy.CapabilityQueryFailureRefuses | com/android/internal/os/ZygoteConnection.java:632-637 | when there is something to check for a non-root peer, a failed capability query refuses the request |
| ZygotePolicy.CapabilitiesWithinPeer | com/android/internal/os/ZygoteConnection.java:644-658 | what passes for a non-root peer grants no effective bit outside permitted and no permitted bit the peer lacks |
| ZygotePolicy.ApplyPolicies | com/android/internal/os/ZygoteConnection.java:201-204 | the four policies in order, each on the record the one before left; `ApplyPoliciesPasses` shows the chain passes exactly when each policy passes on the request |
| ZygotePolicy.PoliciesKeepChecked | com/android/internal/os/ZygoteConnection.java:201-204 | the uid and debugger policies leave unchanged the fields that the rlimit and capability policies read |
| ZygotePolicy.ApplyPoliciesPasses | com/android/internal/os/ZygoteConnection.java:201-204 | the four policies in order pass exactly when the uid, rlimit and capability policies each pass on the request; an app peer's request then runs as the peer with no rlimits; a debuggable build enables the debugger |
| ZygotePolicy.ApplySecurityPolicies | com/android/internal/os/ZygoteConnection.java:201-204 | in place: the first policy that throws gives the error, or the fields become what `ApplyPolicies` gives; `peerWait` is untouched |
| ZygoteConnection.Admit | com/android/internal/os/ZygoteConnection.java:198-204 | the parser and then the four policies: the record to fork with, or the parser's or the policies' error; `TryFork` and `RefusedRequestGetsMinusOne` state that the fork happens exactly on admission |
| ZygoteConnection.TryFork | com/android/internal/os/ZygoteConnection.java:198-221 | the fork is called exactly when parsing and the policies admit the request, with their record and the env's pid; otherwise the pid is -1; parsedArgs is null exactly when parsing failed, and keeps the parsed `peerWait` |
| ZygoteConnection.PoliciesKeepPeerWait | com/android/internal/os/ZygoteConnection.java:201-204 | no policy changes `peerWait` |
| ZygoteConnection.ChildDispatch | com/android/internal/os/ZygoteConnection.java:723-755 | the child runs `zygoteInit` with the remaining arguments exactly when `--runtime-init` was given; otherwise it fails for want of a class name exactly when nothing remains; otherwise the class name and its arguments rebuild the remaining arguments, loaded from the given classpath |
| ZygoteConnection.ParentTurn | com/android/internal/os/ZygoteConnection.java:796-816 | corrected (see Findings): the parent stops exactly when writing the pid fails or the request asked for `--peer-wait`; no exception escapes, also when the request did not parse |
| ZygoteConnection.RunOnceTurn | com/android/internal/os/ZygoteConnection.java:167-232 | a turn takes exactly the lines the read takes |
| ZygoteConnection.KeepServingConsumes | com/android/internal/os/ZygoteConnection.java:167-232 | a turn that goes on serving has taken at least one line; no exception escapes the corrected turn |
| ZygoteConnection.ReadFailureStops | com/android/internal/os/ZygoteConnection.java:173-186 | corrected (see Findings): end of stream, an IOException from the read or from the descriptor query, and an unallocatable count close the socket and stop the loop |
| ZygoteConnection.RefusedRequestGetsMinusOne | com/android/internal/os/ZygoteConnection.java:214-221 | a request the parser or a policy refuses is never forked, and the peer reads -1 |
| ZygoteConnection.ParentStopsIff | com/android/internal/os/ZygoteConnection.java:228-231 | corrected (see Findings): the parent stops exactly when the write fails or `--peer-wait` was parsed; an admitted request is forked with the policies' record, and the peer reads the child's pid |
| ZygoteConnection.ChildRunsDispatch | com/android/internal/os/ZygoteConnection.java:223-227 | in the child, runOnce runs `ChildDispatch` on the admitted record and returns true |
| ZygoteConnection.Connection.constructor | com/android/internal/os/ZygoteConnection.java:88-105 | a new connection has all its input pending, nothing written, no fork, and is open |
| ZygoteConnection.Connection.ReadLine | com/android/internal/os/ZygoteConnection.java:474 | takes the next line, or returns null at end of stream |
| ZygoteConnection.Connection.ReadArgumentList | com/android/internal/os/ZygoteConnection.java:458-501 | returns what `ReadArgs` specifies and takes exactly the lines it says |
| ZygoteConnection.Connection.CloseSocket | com/android/internal/os/ZygoteConnection.java:237-244 | marks the socket closed and changes nothing else |
| ZygoteConnection.Connection.HandleParentProc | com/android/internal/os/ZygoteConnection.java:769-817 | corrected (see Findings): when the write fails, stops without closing the socket; after a successful write, appends the pid to the written ints, and closes the socket and stops when the peer waits |
| ZygoteConnection.Connection.Spawn | com/android/internal/os/ZygoteConnection.java:198-221 | parses, applies the policies in place and forks as `TryFork` specifies, recording the fork |
| ZygoteConnection.Connection.RunOnce | com/android/internal/os/ZygoteConnection.java:167-232 | corrected (see Findings): pending lines, written ints, closed flag, forks, return value and child action follow `RunOnceTurn`; a turn that goes on serving consumes input |
| ZygoteConnection.Connection.Run | com/android/internal/os/ZygoteConnection.java:126-151 | corrected (see Findings): at least one turn runs; the ghost trace has one entry per turn, is `Faithful` (each entry is `RunOnceTurn` on the input the earlier turns left), and the final state is its `Replay` from the initial state; every turn but the last goes on serving and the last stops; the collector runs `GcCount` times, which is turns / (GC_LOOP_COUNT + 1) for a non-negative countdown |
| ZygoteConnection.AfterTurn | com/android/internal/os/ZygoteConnection.java:147-149 | the connection state after one turn: its lines taken, its reply and fork appended, the socket closed if the turn closed it |
| ZygoteConnection.Replay | com/android/internal/os/ZygoteConnection.java:147-149 | the state after a trace of turns, one after another; `Connection.Run` ends in the replay of its trace |
| ZygoteConnection.ReplayKeepsHistory | com/android/internal/os/ZygoteConnection.java:147-149 | replaying turns only adds: earlier written ints and forks stay a prefix, a closed socket stays closed, and the pending lines only shrink |
| ZygoteConnection.Faithful | com/android/internal/os/ZygoteConnection.java:147-149 | each turn of the trace is `RunOnceTurn` on the lines the earlier turns left; `FaithfulExtend`, `FaithfulConsumes` and `FaithfulStops` are its lemmas |
| ZygoteConnection.FaithfulExtend | com/android/internal/os/ZygoteConnection.java:147-149 | running `RunOnceTurn` on what the trace left extends a faithful trace by one turn, and the replay of the longer trace is one more turn applied to the replay |
| ZygoteConnection.FaithfulConsumes | com/android/internal/os/ZygoteConnection.java:147-149 | along a faithful trace of turns that all go on serving, each turn takes at least one line, so the loop ends within the input's length |
| ZygoteConnection.FaithfulStops | com/android/internal/os/ZygoteConnection.java:147-149 | a faithful trace that stops at its last turn has taken input, unless it stopped at once on an empty stream |
| ZygoteConnection.LoopCount | com/android/internal/os/ZygoteConnection.java:128-145 | the countdown at the start of each turn; `LoopCountCycles` and `LoopCountNegative` give its closed form |
| ZygoteConnection.GcCount | com/android/internal/os/ZygoteConnection.java:140-145 | the collections before the first t turns; `GcCountClosedForm` gives t / (g + 1) |
| ZygoteConnection.CountdownStep | com/android/internal/os/ZygoteConnection.java:140-145 | one turn of the countdown: restart and collect when it is at or below zero, otherwise count down |
| ZygoteConnection.LoopCountCycles | com/android/internal/os/ZygoteConnection.java:140-145 | with countdown g >= 0, turn t starts with g - t mod (g + 1) |
| ZygoteConnection.GcCountClosedForm | com/android/internal/os/ZygoteConnection.java:126-151 | after t turns the collector has run t / (g + 1) times, or t times when g is negative |
| ZygoteConnection.LoopCountNegative | com/android/internal/os/ZygoteConnection.java:140-142 | a negative countdown is restarted before every turn |
| ZygoteConnection.ParentTurnAsWritten | com/android/internal/os/ZygoteConnection.java:796-816 | handleParentProc as written: after writing the pid it reads `parsedArgs.peerWait`, so a request that did not parse ends in a NullPointerException |
| ZygoteConnection.RunOnceAsWritten | com/android/internal/os/ZygoteConnection.java:167-232 | runOnce as written: a negative count escapes as a NegativeArraySizeException, and the parent runs `ParentTurnAsWritten`; `AsWrittenDiffersOnlyThere` compares it with `RunOnceTurn` |
| ZygoteConnection.AsWrittenDiffersOnlyThere | com/android/internal/os/ZygoteConnection.java:167-232 | runOnce as written differs from the corrected turn exactly on a negative count or on a written reply to a request that did not parse |
| ZygoteConnection.LoneClasspathRefused | com/android/internal/os/ZygoteConnection.java:411-421 | the request `-classpath` alone does not parse |
| ZygoteConnection.UnparsableRequestEscapes | com/android/internal/os/ZygoteConnection.java:808 | as written, the request `1`, `-classpath` gets -1 and then a NullPointerException escapes runOnce; the corrected turn goes on serving |
| ZygoteConnection.NegativeCountEscapes | com/android/internal/os/ZygoteConnection.java:486-491 | as written, the count line `-1` makes a NegativeArraySizeException escape runOnce; the corrected turn closes the socket and stops |

## Left out

- The socket, its buffered reader and its output stream are left out. They are replaced by the pending lines and the written ints. `setSoTimeout` and the timeout it sets are not modelled.
- Passed file descriptors are not modelled: the new stderr `PrintStream`, `reopenStdio` and the closing of descriptors. Only whether the descriptor query throws is kept.
- Logging (`Log`, `logAndPrintError`) is left out. So are the messages of the exceptions: an error is its datatype constructor.
- The native calls are parameters (`Env`), not models:
  - `SystemProperties.get`;
  - `Zygote.forkAndSpecialize`;
  - `ZygoteInit.capgetPermitted`, `setpgid`, `getpgid`, `setCloseOnExec`, `setCapabilities`, `closeServerSocket`;
  - `ZygoteInit.gc`, which only counts as a collection.
- The `IllegalArgumentException` that `forkAndSpecialize` itself could throw is not modelled.
- The conversion of the rlimit list to `int[][]` (ZygoteConnection.java:206-210) is not modelled. The fork receives the record with the list of tuples.
- Class loading is not modelled: `PathClassLoader`, `invokeStaticMain` and `RuntimeInit.zygoteInit`. `ChildDispatch` says which of them runs, with which arguments. The `MethodAndArgsCaller` trampoline is not modelled.
- The child's setup before the dispatch (ZygoteConnection.java:682-721) is not modelled: capabilities, the peer-wait socket, and closing the sockets.
- The parent's call to `setpgid` (ZygoteConnection.java:772-783) is not modelled. It only logs on failure.
- ZygoteArguments.RlimitFlagAdvances: it states one `--rlimit=` step over any list that came before. A whole run of several rlimit flags is stated only through repeated use of this step.
- ZygoteConnection.TryFork: after a policy refusal, the parent's view of the parsed record keeps only `peerWait`. No other field is read after a refusal.
- JavaLang.ParseInt: only ASCII digits `0`-`9` are accepted. Java's `Integer.parseInt` also accepts the other Unicode decimal digits (through `Character.digit`). So a `--setuid=`, `--setgid=`, `--rlimit=` or `--setgroups=` value, or a count line, written with such digits parses in the source but is refused here as a number format error or as "invalid wire format".
- JavaLang.DecodeLong: only ASCII digits and the ASCII letters `a`-`f`, `A`-`F` are accepted. Java's `Long.decode` also accepts other Unicode decimal digits, and full-width hexadecimal letters. So a `--capabilities=` value written with such characters decodes in the source but is refused here as a number format error.
- In PixelFormat, the natives `getPixelFormatInfo` and `nativeClassInit`, and the fields `bytesPerPixel` and `bitsPerPixel`, are not modelled.
- The rest of the repository is not part of this model.

## Findings

| source | as written | input that shows it | evidently intended | confidence | as-written member | corrected member |
|---|---|---|---|---|---|---|
| com/android/internal/os/ZygoteConnection.java:198-230 | when `new Arguments(args)` throws, `parsedArgs` stays null. The catch sets pid to -1, and `handleParentProc` writes -1 and then reads `parsedArgs.peerWait` (line 808), so a NullPointerException escapes `runOnce` and `run` | the request lines `1`, `-classpath`, with descriptors available and a successful write | a refused request is answered with -1 and the connection goes on serving, as for a policy refusal | not executed | ZygoteConnection.UnparsableRequestEscapes | ZygoteConnection.RunOnceTurn |
| com/android/internal/os/ZygoteConnection.java:480-491 | the count is checked only against the upper bound 1024. A negative count reaches `new String[argc]`, which throws a NegativeArraySizeException that the IOException handler of `runOnce` (lines 176-180) does not catch | the count line `-1` | a negative count is refused like the other malformed counts: the socket is closed and the loop stops | not executed | ZygoteConnection.NegativeCountEscapes | ZygoteConnection.RunOnceTurn |
