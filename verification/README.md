# callblock: a Dafny model of a caller-ID call blocker

`callblock.py` watches a voice modem for caller-ID reports and hangs up on
callers whose number starts with a listed prefix or whose name contains a
listed fragment. This project models its core as pure Dafny functions over
immutable values and proves properties of them:

- **Blacklist** (`Blacklists`): `update_blacklist` turns the `Numbers` and
  `Names` option texts of the `Blacklist` section into a list of number
  prefixes and a list of upper-cased name fragments. The blocking decision
  of `call_loop` scans the numbers first and the names only when no number
  matched.
- **Call** (`Calls`): the record of one call. The name is upper-cased on
  construction. The stamp is the month, day, hour and minute the device
  sends; the year is not modelled.
- **Caller-ID parsing** (`CallerId`): `wait_for_call` over a sequence of
  reads. A read is a chunk of text or an interrupted read.
  - Chunks mentioning `RING` or `AT+VCID=1` are skipped.
  - An empty or interrupted read means no call.
  - Any other chunk is stripped, split into lines and parsed as
    `KEY = VALUE` fields, later keys overwriting earlier ones.
  - A chunk that does not form a call gives an explicit `Malformed` result.
    This is where the source raises an uncaught exception.
- **AT transceiver** (`Modems`): `send`, `reset`, `open`, `close`, `pickup`
  and `hangup`. The modem value carries the data that replaces the
  operating system: the counts successive `os.write` calls report and the
  texts successive `os.read` calls return. It also carries a log of every
  command written.
  - `send` terminates the command and treats a short write as failure.
  - It then reads up to ten response lines and succeeds when one contains
    `OK`.
  - The method `ReadResponse` is the source's nested loops. It is proved
    equal to the recursive `Await`, and both are proved against the
    reference `Attempts`, the list of the ten buffers read.
- **Call loop** (`CallLoop`): `call_loop` as a function of the ticks it
  meets. A tick is what `wait_for_call` returned, the value of the
  `running` flag afterwards, and the blacklist in force. The loop ends
  `Stopped` once the flag is clear and `Crashed` on a malformed report.
  If the ticks run out while it is still running, it ends `Pending`.

`Text` models the Python string operations used: `strip`, `upper`,
`startswith`, `in`, `str.split(' = ')` and `re.split('[\n\r]+', …)`.
`Results` holds the `Option` and `Result` wrappers.

Behaviour of the code worth knowing, as the model states it:

- `wait_for_call` turns an `InterruptedError` from `os.read` into the end
  of the wait with no call (callblock.py:148-154). Since Python 3.5
  (PEP 475), `os.read` retries by itself after a signal whose handler
  returns normally. A handler that raises propagates its own exception
  instead, so on current interpreters this branch is not reached either
  way. The model keeps it as the `Interrupted` read. A sequence of reads
  without `Interrupted` describes current interpreters, on which a signal
  takes effect only once the next read returns.
- `signal_handler` (callblock.py:264-278) can raise. On `SIGHUP`,
  `config.read` (callblock.py:272) raises a `configparser.Error` for a
  malformed file. The default `ConfigParser` (callblock.py:44) interpolates
  `%`, so `get` in `update_blacklist` (callblock.py:251, 254) raises for a
  value holding a lone `%`. Such an exception leaves `wait_for_call` and
  `call_loop` and ends the program without `modem.close()`. The same
  `update_blacklist` call at start-up (callblock.py:358) fails the same way.
- A malformed report ends the loop with `Crashed`: the exception raised
  by the field unpacking or `strptime` is not caught anywhere.
- A chunk containing `RING` is skipped whole, even when it also holds a
  report.
- The matcher itself does match an empty entry: Python's `startswith('')`
  and `'' in s` are true. Empty entries cannot reach it only because
  `update_blacklist` drops them (`Blacklists.FromConfig`).

## Model

| member | source | states |
|---|---|---|
| `Calls.MakeCall` | callblock.py:47-52 | a call keeps the stamp and number it is given, and its name is the given name upper-cased: same length, letters equal ignoring case, no lower-case letter left |
| `Calls.MakeCallIdempotent` | callblock.py:52 | normalising a call's name again changes nothing, and a name is left as it is exactly when it is already upper case |
| `Calls.ParseStamp` | callblock.py:166 | a `DATE`/`TIME` pair is accepted only as a valid month, day, hour and minute, whose text is exactly the pair |
| `Calls.StampRoundTrip` | callblock.py:166 | every valid stamp is read back from its own `MMDD` and `HHMM` text |
| `Calls.ParseStampRejects` | callblock.py:166 | a rejected pair is the text of no valid stamp |
| `Calls.TwoDigits` | callblock.py:166 | two digits are read as the number whose zero-padded text they are; anything else is refused |
| `Text.Upper` | callblock.py:52 | `str.upper()` replaces each lower-case letter by its capital and keeps every other character |
| `Text.UpperIdempotent` | callblock.py:52 | upper-casing twice is upper-casing once |
| `Text.Strip` | callblock.py:162 | `str.strip()` gives a slice of the text, everything around it is whitespace, and it neither starts nor ends with whitespace |
| `Text.StripBlank` | callblock.py:162 | text that is all whitespace strips to the empty string |
| `Text.Find` | callblock.py:158 | the leftmost occurrence of a substring, or none when it occurs nowhere |
| `Text.ContainsMeaning` | callblock.py:158 | the `in` test holds exactly when the leftmost-occurrence search finds one |
| `Text.ContainsExtended` | callblock.py:235 | a string containing a fragment still contains it with text added around it |
| `Text.SplitLines` | callblock.py:162 | `re.split('[\n\r]+')` gives line-break-free pieces that concatenate to the text without its breaks; only the first and last can be empty; the first is empty exactly when the text is empty or starts with a break |
| `Text.SplitLinesWoven` | callblock.py:162 | lines without breaks, only the first and last possibly empty, woven with any non-empty runs of breaks split back into exactly those lines |
| `Text.SplitLinesCuts` | callblock.py:162 | every text is its lines woven with non-empty runs of breaks; with `SplitLinesWoven`, the cuts are exactly the maximal runs of breaks |
| `Text.SplitLinesAfterRun` | callblock.py:162 | a line, a run of breaks and text starting with no break split into that line followed by the lines of the text |
| `Text.StripPadded` | callblock.py:251 | stripping text that neither starts nor ends with whitespace, with any whitespace around it, gives that text |
| `Text.SplitLinesJoin` | callblock.py:162 | splitting lines joined by `\r\n` gives the lines back, when they hold no break and only the first is empty |
| `Text.SplitOn` | callblock.py:163 | `str.split(sep)` gives pieces that join back to the text; there is one piece exactly when the separator does not occur; the first piece ends at the leftmost occurrence |
| `Blacklists.NonEmpty` | callblock.py:252 | the filter keeps exactly the non-empty entries, loses no text, changes nothing when no entry is empty, and drops a lone entry exactly when it is empty |
| `Blacklists.NonEmptyAppend` | callblock.py:252 | the filter keeps the order: filtering a concatenation concatenates the filtered parts |
| `Blacklists.Entries` | callblock.py:251-252 | an option value becomes non-empty, break-free entries whose concatenation is the stripped value without its line breaks; a blank value gives none |
| `Blacklists.EntriesOfLines` | callblock.py:251-252 | a value listing non-empty, break-free entries that neither start nor end with whitespace, separated by any runs of breaks and with any whitespace before the first and after the last, gives exactly those entries in order |
| `Blacklists.FromConfig` | callblock.py:247-261 | a missing section gives empty lists; otherwise the entries are non-empty, names are upper case, and the lists hold exactly the text of the stripped options, names upper-cased |
| `Blacklists.EntriesOfListing` | callblock.py:251-252 | an option value that is blank throughout lists nothing, and one laid out as in `EntriesOfLines`, with padding of its own, lists exactly its entries in order |
| `Blacklists.FromConfigOfLines` | callblock.py:247-256 | a section whose two options are each either blank or laid out as in `EntriesOfLines`, each with its own padding, gives exactly the listed numbers and the listed names upper-cased, in order, and an empty list for a blank option |
| `Blacklists.ConfigScenario` | callblock.py:250-256 | `Numbers` listing `2025` and `555` on the lines after the key (`"\n2025\n555"`), with a blank `Names`, gives the prefixes `2025` and `555` and no names |
| `Blacklists.FlattenUpperAll` | callblock.py:255 | upper-casing each name entry upper-cases their concatenation |
| `Blacklists.FirstPrefix` | callblock.py:229-232 | the number scan stops at the first prefix of the number, or finds none at all |
| `Blacklists.FirstFragment` | callblock.py:233-237 | the name scan stops at the first fragment contained in the name, or finds none at all |
| `Blacklists.Judge` | callblock.py:229-237 | a number match is the first matching prefix; the names are consulted only when no prefix matched; a pass means no prefix and no fragment matched |
| `Blacklists.BlockedIff` | callblock.py:229-237 | a call is blocked exactly when some number entry is a prefix of its number or some name entry occurs in its name |
| `Blacklists.IsBlocked` | callblock.py:219-237 | the two loops with `break` block exactly when some entry matches, and agree with `Judge` |
| `Blacklists.NumberMatchIgnoresName` | callblock.py:229-233 | a matching number blocks whatever the caller's name is, because the names are then not scanned |
| `Blacklists.NoSectionNeverBlocks` | callblock.py:257-259 | without a `Blacklist` section no call is blocked |
| `Blacklists.NumberScenario` | callblock.py:229-232 | the prefix `2025` blocks the number `2025551234` |
| `Blacklists.NameScenario` | callblock.py:233-237 | the fragment `TELEMARKETER` blocks the name `ACME TELEMARKETER INC` |
| `CallerId.ParseLine` | callblock.py:163 | a line is a field when it has exactly one separator; key and value are the text before and after it |
| `CallerId.ParseLineIsSplit` | callblock.py:163 | a line is accepted exactly when `str.split(' = ')` gives two pieces, and key and value are those pieces |
| `CallerId.Collect` | callblock.py:161-164 | the dictionary is built only when every line is a field, else the error is the first bad line's; every key comes from some line |
| `CallerId.CollectLastWins` | callblock.py:164 | every key of a line is in the dictionary, and it maps to the value of the last line that sets it |
| `CallerId.ParseChunk` | callblock.py:161-169 | a chunk gives a call exactly when its lines are all fields, all four keys are present and `DATE`/`TIME` form a valid stamp; the call's number is `NMBR`, its name `NAME` upper-cased, and its stamp prints as `DATE` and `TIME` |
| `CallerId.WaitForCall` | callblock.py:146-171 | the wait consumes a prefix of the reads in which every read but the last is a skipped chunk; running out of reads means no call; otherwise the outcome is that of the last read consumed |
| `CallerId.SkippedReadsIrrelevant` | callblock.py:157-159 | chunks with `RING` or `AT+VCID=1` before a read change nothing the wait returns |
| `CallerId.BlankChunkIsMalformed` | callblock.py:153-163 | a non-empty chunk of blanks and line breaks is not a report: its one empty line has no separator |
| `CallerId.ReportRoundTrip` | callblock.py:161-169 | the report the device sends for a call parses back into that call, when number and name hold no line break or separator and the name does not end in whitespace |
| `CallerId.ChunkOfFields` | callblock.py:161-169 | a chunk whose fields hold a stamp's text, a number and a name is the call with that stamp, number and name |
| `CallerId.ReportLines` | callblock.py:162 | stripping and splitting the device's report gives back its four field lines |
| `CallerId.ReportFields` | callblock.py:161-164 | the four field lines of a report make the dictionary of its date, time, number and name |
| `CallerId.ChunkOfBadFields` | callblock.py:161-164 | a chunk with a line that is not a field is malformed, with the first bad line's error |
| `CallerId.EmptyNameIsMalformed` | callblock.py:162-163 | a report with an empty name is malformed: stripping removes the blank after the last separator |
| `CallerId.KeyLine` | callblock.py:163 | a line with a key of four capital letters and a separator-free value splits into that key and value |
| `CallerId.ExampleParsed` | callblock.py:161-169 | the report `DATE = 1225`, `TIME = 1430`, `NMBR = 2025551234`, `NAME = JOHN DOE` is a call on 25 December at 14:30 from that number and name |
| `Modems.Terminate` | callblock.py:105-106 | the written command ends in a line break; it is the command itself exactly when that already ends in CR or LF, and otherwise the command followed by CR |
| `Modems.TerminateIdempotent` | callblock.py:105-106 | a terminated command is not terminated again |
| `Modems.ReadLine` | callblock.py:114-121 | one response line consumes a prefix of the reads, and consumes at least one read unless none is left |
| `Modems.ReadLineMeaning` | callblock.py:114-121 | the buffer is the concatenation of the reads consumed; every read before the last was non-empty and did not end a line; the last was empty, ended the line, or was the last read there is |
| `Modems.ReadBuffer` | callblock.py:114-121 | the source's inner `while` loop computes the response line |
| `Modems.Await` | callblock.py:113-126 | waiting consumes no more reads than there are, and with no attempts left it fails without reading |
| `Modems.AwaitMeaning` | callblock.py:113-126 | waiting succeeds exactly when one of the response lines read contains `OK` |
| `Modems.ReadLines` | callblock.py:113-126 | the source's `for` loop over the attempts succeeds, and consumes reads, exactly as the recursive `Await` does |
| `Modems.ReadResponse` | callblock.py:112-126 | the source's `for` loop around the line reader succeeds exactly when one of the ten response lines contains `OK`, leaving the reads `Await` leaves |
| `Modems.Send` | callblock.py:100-126 | a closed modem answers false and is untouched; otherwise the terminated command is logged and one write count used; a short write fails without reading; a full one succeeds exactly when one of the ten response lines contains `OK`, and uses the reads those lines took |
| `Modems.SilentModemFails` | callblock.py:113-126 | with no reply left, ten empty lines are read and the command fails |
| `Modems.OkAnswer` | callblock.py:113-124 | an `OK` line in reply to a fully written command is success |
| `Modems.Reset` | callblock.py:128-134 | a closed modem answers false; `ATZ` is written first, and `AT+VCID=1` after it exactly when `ATZ` succeeded; success means both were written |
| `Modems.ResetNeedsBoth` | callblock.py:132-134 | reset succeeds exactly when `ATZ` and then `AT+VCID=1` both succeed |
| `Modems.Open` | callblock.py:70-98 | when the device cannot be opened, the modem is untouched and the result is false; otherwise the modem has the new descriptor and has written `ATZ`, then `AT+VCID=1` exactly when `ATZ` succeeded, and `open` succeeds exactly when both commands do |
| `Modems.Close` | callblock.py:136-144 | a closed modem is untouched; an open one writes `ATZ` and ends with descriptor -1 |
| `Modems.CloseIdempotent` | callblock.py:136-138 | closing twice is closing once |
| `Modems.OpenThenClose` | callblock.py:70-144 | opening and then closing leaves the modem closed, with the reset sequence and then `ATZ` in the log |
| `Modems.Pickup` | callblock.py:173-174 | a closed modem answers false and is untouched; an open one writes `ATH1` and keeps its descriptor |
| `Modems.PickupAnswered` | callblock.py:173-174 | on an open modem, `pickup` writes `ATH1` using one write count, fails on a short write without reading, and otherwise succeeds exactly when one of the ten response lines contains `OK`, using the reads those lines took |
| `Modems.Hangup` | callblock.py:176-177 | a closed modem answers false and is untouched; an open one writes `ATH0` and keeps its descriptor |
| `Modems.HangupAnswered` | callblock.py:176-177 | on an open modem, `hangup` writes `ATH0` using one write count, fails on a short write without reading, and otherwise succeeds exactly when one of the ten response lines contains `OK`, using the reads those lines took |
| `Modems.PicksUpOnce` | callblock.py:238-242 | the commands of a block pick the line up exactly once |
| `Modems.BlockCall` | callblock.py:238-242 | blocking writes `ATH1`, `ATH0` and `ATZ`, each step taken whatever the previous returned, and then `AT+VCID=1` exactly when that `ATZ` succeeded; the descriptor is unchanged |
| `CallLoop.Handle` | callblock.py:229-242 | a blocked call on an open modem writes the block commands; any other call, or a closed modem, leaves the modem as it is |
| `CallLoop.Loop` | callblock.py:216-244 | the loop uses no more ticks than it is given, never changes the descriptor, leaves a closed modem as it is, and does nothing if not running |
| `CallLoop.RunningBeforeEnd` | callblock.py:219-225 | every tick before the last one the loop used was running and well formed |
| `CallLoop.PendingUsesAll` | callblock.py:219-225 | a loop that has not ended was running and used every tick, the last of which left the flag set |
| `CallLoop.CrashOnMalformed` | callblock.py:219-221 | a crash is due to the malformed report of the last tick the loop used |
| `CallLoop.StopOnCleared` | callblock.py:219-225 | a loop entered running stops on a well-formed tick that cleared the flag |
| `CallLoop.PickupsCountBlockedCalls` | callblock.py:238-242 | on an open modem the loop writes one `ATH1` per blocked call among the ticks it used |
| `CallLoop.HandlePickups` | callblock.py:238-240 | handling a call writes one `ATH1` when it is blocked and none otherwise |
| `CallLoop.NoBlockNoCommands` | callblock.py:229-242 | a loop that meets no blocked call writes nothing to the modem |
| `CallLoop.EmptyBlacklistNoCommands` | callblock.py:257-259 | with no `Blacklist` section in force, the loop never touches the modem |
| `CallLoop.EndIsFinal` | callblock.py:219-225 | once the loop has stopped or crashed, later ticks change nothing |
| `CallLoop.MalformedCrashes` | callblock.py:161-166 | a malformed report ends the loop at once and writes nothing |
| `CallLoop.SingleCall` | callblock.py:219-244 | one call followed by a cleared flag: a blocked call writes the block commands and nothing else, an unblocked one writes nothing, and the loop stops after it |

## Left out

- Serial line setup in `open` (callblock.py:72-96): `os.open` is a parameter of `Modems.Open` that gives a descriptor or fails. The `fcntl`/`termios` calls are operating-system configuration with nothing to model. A failure in them after `os.open` succeeded, which leaves the new descriptor in place, is not modelled.
- `daemonize`, `main` and `signal_handler` (callblock.py:180-213, 264-373): forking, the pid file, argument parsing and logging setup. A signal's effect reaches the loop only as the `running` flag and the blacklist of each tick. Concurrency and the in-place mutation of the shared dictionary are not modelled.
- The clock: `datetime.now()` and `datetime.today().year` (callblock.py:50, 167). A stamp has no year.
- `Calls.ParseStamp`: does not model `strptime`'s variable-width fields, such as a one-digit month. Nor does it model the 29 February that fails under `strptime`'s default year 1900. It accepts exactly the fixed-width `MMDD` and `HHMM` form the device sends, with 29 days in February.
- Byte decoding (callblock.py:107, 155): text is a sequence of characters, assumed ASCII. `str.upper()` is modelled on ASCII letters only, and `str.strip()` on ASCII whitespace.
- `ConfigParser` (callblock.py:250-254): `Blacklists.FromConfig` receives the section's two option values already extracted, with a missing option as the empty string.
- The crash path of a configuration reload (callblock.py:264-278, 358): an exception from `config.read` or from `%` interpolation in an option value, and the end of the program it causes, are not modelled. Nor is it modelled that `config.read` merges into the existing parser, so that a reload never removes a section or an option. `CallLoop.Loop` takes each tick's blacklist as given.
- `MAX_READ` (callblock.py:67): a read returns whatever the next element of the input holds. The 255-byte bound on a single read is not modelled.
- Exceptions from the operating system: `os.write`, `os.read` or `os.close` raising `OSError`, and an interrupted read inside `send`, are not modelled. `send` reads only text or end of file.
- `send` with an empty command on an open modem raises `IndexError` (callblock.py:105). `Modems.Send` requires a non-empty command there; every caller passes a literal command.
- Logging calls (callblock.py:227, 239): they have no effect on the modem or the loop.
- `CallLoop.Loop`: states the command log through `CallLoop.PickupsCountBlockedCalls` and `Modems.BlockCall` rather than as one list of commands. What `reset` writes depends on the modem's replies.
- Ticks are abstract: `CallLoop.Loop` takes each tick's `wait_for_call` outcome as given rather than computing it from the same reads `send` consumes, so the sharing of one input stream between waits and command replies is not modelled.
