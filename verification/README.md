# Verified models of NUT's protocol and decision code

This project models the parts of Network UPS Tools on which the others rely, and proves what they
are for: the shutdown decisions of upsmon, the configuration-line parser and its encoder, the timer
daemon of upssched, the two client libraries, and the string algorithms in the common library.

`dafny verify dfyconfig.toml` checks everything.

## How it is organised

Each component comes in two layers. Functions on values say what one step does, and lemmas prove
properties of them over every input or every run. Classes and methods keep the form of the source:
records updated in place, linked lists walked and relinked, buffers filled by index, loops with
their invariants. Every such method is proved to do what its function says.

| files | component |
|---|---|
| `Text`, `Streams` | C strings, `strtol`, `strcasecmp`; byte streams in chunks and their lines |
| `ParseConf`, `ParseConfContext` | the scanner, its three entry points, the encoder; the context with its reallocated storage |
| `Tokens`, `TokenLists`, `Formats` | bounded appending and token lists; what adding tokens means; validation of dynamic printf formats |
| `UpsSched`, `UpsSchedDaemon`, `UpsSchedClient` | the timer daemon over whole runs; its linked list; the message a client builds, end to end |
| `UpsMon`, `UpsMonRuns` | one UPS record: every handler, the status step, the judgement; runs of events |
| `UpsMonStatus`, `UpsMonNotices`, `UpsMonRepeats`, `UpsMonSafety`, `UpsMonOutage`, `UpsMonPace` | which flags a status leaves; which notices alternate; how far apart warnings are; safety over runs; an outage from its first report to the shutdown; the polling pace |
| `UpsMonNode`, `UpsMonList`, `UpsMonDaemon`, `UpsMonProgram` | the record in place; all UPSes, power and reloading on values; the linked list; runs of the whole program |
| `NutSocket`, `NutCodec`, `NutClient` | the C++ client: line reassembly, escape and explode, pipelined queries |
| `UpsClientReader`, `UpsClientCommand`, `UpsClientQuery` | the C client: bounded line reader, command builder, GET and LIST |
| `Upsd` | how the server reads commands, and its answers to GET VAR and LIST VAR, which both clients read |
| `Counterexamples` | one concrete input for each promise that does not hold for all |

Time and the network are inputs. A clock value comes with every step. What `read` meets is a script
of chunks, timeouts and failures; a script that is over stands for a closed connection. Notices,
commands run and bytes sent are recorded in logs that the theorems talk about. Constants defined in
headers appear under their own names; the parser's limits are parameters.

## Where the code does less than its comments say

Each of these is a theorem with the exact condition, for all inputs; module `Counterexamples` gives one
failing input for each.

- common/parseconf.c:31 says that parsing is identical however it is fed. It is when the line ends
  cleanly (`SameHoweverFed`); for printable lines that means outside quotes and not after a
  backslash. A file whose last line is a lone word without newline yields nothing
  (`LastLineWithoutNewline`).
- `pconf_encode` leaves an unterminated backslash in a buffer of one byte (`EncodeInto`).
- `vsnprintfcat` keeps a byte in reserve, so an exact fit loses its last character
  (`AppendKeepsAllIffSpare`), and `str_add_unique_token` then reports success for a word that is not
  in the list (`NewWordListedIffSpare`), and for an argument of several words likewise
  (`AddTokensExact`). Its comment at common/common.c:2113 promises 1 only when all tokens were added;
  one new token among listed ones is enough (`OneMeansAllAdded`, `OneMeansAllListed`).
- `minimize_formatting_string` promises NULL for a buffer that is too short (common/common.c:2831-2834).
  It returns NULL for a size of zero alone; otherwise the form is cut, and when it fills the stated
  size the terminator is written one byte behind it (`MinimizeInto`).
- `sendcmd` of upssched truncates silently; the daemon then never sees the intended arguments
  (`CommandArrivesIffFits`).
- The notices of upsmon alternate per condition until an operating system wake-up finds the condition
  on: it forgets the flags without notice, and the agreement never returns (`AlternationBreaksIff`).
- `Socket::read` drops what it gathered before the last chunk when it times out
  (`TimeoutKeepsAllIff`).
- `escape` and the server's parser disagree about number signs, and so do the server's encoder and
  `explode`: values that hold one cannot be set through the C++ library, and are read through it
  with DEL in its place (`SetCommandArrivesIff`, `RowArrivesIff`). The C library reads them as they
  are (`ListReturnsVariables`).
- The comment in `build_cmd` says arguments arrive intact. An argument without a space that is
  empty or holds an equals sign among other characters does not, and a command that does not fit
  the buffer is never read as its arguments (`ArgsArriveIff`).
- The manual page of `upscli_list_next` says that a response which is not part of the list is an
  error. The check looks at argument slots and not at the words of the line, so a line that breaks off
  is taken for a row when an earlier line left the missing words (`OnlyRowsOfTheListIff`).
- The test for the efficiency modes in a mode buzzword passes for every text that lacks one of its
  four marks (`EcoAfterStatus`).

The pipelined query and the one-device query of the C++ client differ only with a server that accepts a
device with the empty name (`AgreesWithOneAtATime`); upsd does not (server/netlist.c:301-304).

## Model

| member | source | states |
|---|---|---|
| `ParseConf.PrintableLineSameHoweverFed` | common/parseconf.c:523-654 | For any printable line without a parse error: string, character and file entry points give the same words and leave the word buffer empty, unless the line ends in a quote or after a backslash, and then the character entry point has no line yet |
| `ParseConf.SameHoweverFed` | common/parseconf.c:31 | "Parsing is identical no matter how you feed it", with its exact condition for arbitrary characters: line and characters agree if and only if the scan ends between words, in a comment, or in an unquoted word that is not empty or no longer has an argument slot |
| `ParseConf.FileFedLikeChars` | common/parseconf.c:523-558 | A newline-terminated file line gives the same scan as feeding its characters, and nothing after the newline is read |
| `ParseConf.LastLineWithoutNewline` | common/parseconf.c:523-558 | Without a final newline the file entry point agrees with `pconf_line` if and only if some word was already complete; a lone last word is not reported and stays in the buffer (line 546 tests `numargs`) |
| `ParseConf.AfterParseError` | common/parseconf.c:523-654 | A parse error ends the line for all three entry points; the string one drops what comes behind it, the other two read it as a further line |
| `ParseConf.LineBoundaryLeavesNoWord` | common/parseconf.c:216-233 | However a line is fed and whatever the limits, its end leaves the word buffer empty for the next line |
| `ParseConf.RunEncoded` | common/parseconf.c:598-631 | The scanner undoes `pconf_encode` inside quotes, and outside them for text without spaces and equals signs |
| `ParseConf.RunQuoteLine` | common/parseconf.c:236-380 | A line of quoted encodings adds exactly its words, as far as the word and argument limits allow |
| `ParseConf.ParseUndoesQuoting` | common/parseconf.c:560-594 | For every list of printable words, empty ones included: parsing the quoted encodings yields the words cut to the limits, and yields the list itself if and only if it is within the limits |
| `ParseConf.FitAllExactly` | common/parseconf.c:120-233 | The limits change nothing if and only if the number of words and every word length are within them |
| `ParseConf.FeedLineThenNewline` | common/parseconf.c:633-654 | A stream of characters completes a line exactly where the scan of the line plus newline ends |
| `ParseConfContext.Context.constructor` | common/parseconf.c:402-428 | A fresh context is between lines with no words |
| `ParseConfContext.Context.ReserveArg` | common/parseconf.c:120-150 | Growing the argument list, or one slot of it, keeps every argument before the new one and leaves room for the word |
| `ParseConfContext.Context.AddArgWord` | common/parseconf.c:120-175 | The word goes to the end of the list of strings that the reallocated, reused slots hold, unless the argument limit is reached |
| `ParseConfContext.Context.AddChar` | common/parseconf.c:178-213 | One character extends the word unless it is not printable or the word limit is reached, growing the buffer when needed |
| `ParseConfContext.Context.EndOfWord` | common/parseconf.c:216-233 | The word becomes an argument and the buffer is emptied |
| `ParseConfContext.Context.FindWordStart` | common/parseconf.c:236-268 | State function against the scan of values |
| `ParseConfContext.Context.FindEol` | common/parseconf.c:271-279 | State function against the scan of values |
| `ParseConfContext.Context.QuoteCollect` | common/parseconf.c:290-316 | State function, including the parse error on an unescaped number sign |
| `ParseConfContext.Context.QcLiteral` | common/parseconf.c:319-327 | State function against the scan of values |
| `ParseConfContext.Context.Collect` | common/parseconf.c:330-368 | State function, including the word an equals sign makes of itself |
| `ParseConfContext.Context.CollectLiteral` | common/parseconf.c:371-379 | State function against the scan of values |
| `ParseConfContext.Context.ParseChar` | common/parseconf.c:462-492 | One character dispatched on the state; a finished line ignores it |
| `ParseConfContext.Context.Line` | common/parseconf.c:560-594 | The context after `pconf_line` is the scan of the line, whatever storage earlier lines left, and the argument slots beyond its words keep what those lines left in them |
| `ParseConfContext.Context.Char` | common/parseconf.c:633-654 | The context, the argument slots with their stale words, and the return code after `pconf_char` |
| `ParseConfContext.Context.FileNext` | common/parseconf.c:523-558 | The context, the rest of the file and the return code after `pconf_file_next` |
| `ParseConfContext.EncodeInto` | common/parseconf.c:598-631 | In any buffer but one of a single byte facing an escaped first character, `pconf_encode` leaves the full encoding of the longest prefix that fits, followed by zeros; in that one case the wrapped size test leaves an unterminated backslash |
| `ParseConfContext.FitCountIsLongest` | common/parseconf.c:609-627 | The prefix encoded is the longest whose encoding fits |
| `ParseConfContext.EncodedPrefixReadsBack` | common/parseconf.c:598-631 | The buffer never ends in a dangling escape: scanning it gives back the encoded prefix |
| `Tokens.AppendFormatted` | common/common.c:1931-1975 | In-place `vsnprintfcat`: the text kept, the return value, and the bytes beyond the stated size untouched |
| `Tokens.AppendKeepsAllIffSpare` | common/common.c:1936-1958 | Nothing is lost if and only if one byte stays unused besides the terminator |
| `Tokens.StrContainsToken` | common/common.c:2010-2042 | The search loop finds a position where the token stands between spaces or ends, if there is one |
| `Tokens.StandsIffListed` | common/common.c:2006-2042 | For every non-empty token without spaces, that is membership in the list of words |
| `Tokens.StrAddUniqueToken` | common/common.c:2057-2155 | In-place addition of one or several tokens, null arguments and callbacks included, with the combined return code, equals offering the argument's words one by one |
| `Tokens.NoObjection` | common/common.c:2044-2056 | Callbacks that object to nothing leave everything as it is without them |
| `Tokens.AddSpaced` | common/common.c:2073-2117 | The loop over an argument with spaces |
| `Tokens.ObjectionSticks` | common/common.c:2086-2092 | A failure or an objection to one word sticks in the combined return code |
| `TokenLists.AddTokensExact` | common/common.c:2044-2155 | For every list, size and argument: the words become the old ones followed by the new ones if and only if there are none or all of them leave a byte to spare; the code is 1, 0 or -2 as the comment at the head says, and without room -1, unless a word fits exactly, is cut, and nothing behind it fails |
| `TokenLists.OneMeansAllAdded` | common/common.c:2112-2115 | "1 if all tokens were successfully added", with its exact condition |
| `TokenLists.OneMeansAllListed` | common/common.c:2112-2115 | Read as "all tokens are in the list", it holds if and only if no cut goes unnoticed |
| `TokenLists.WordsAddedIffRoom` | common/common.c:2127-2149 | The words that come to stand in the list when it runs full |
| `TokenLists.UnseenMeaning` | common/common.c:2044-2056 | The words added are exactly the new ones, each once, in the order first seen |
| `TokenLists.NewWordListedIffSpare` | common/common.c:2141-2151 | An exact fit passes the size test and reports success, but the word is listed if and only if one more byte is there |
| `Formats.MinimizeInto` | common/common.c:2828-3007 | Null arguments and a size of zero are refused; otherwise the minimized form is written, cut to the stated size, and the terminator stays inside it if and only if the form is shorter, and else is written one byte behind |
| `Formats.ValidateFormat` | common/common.c:3029-3135 | The return code of the validation as a function of both formats; -1 if and only if one is missing, never -2 |
| `Formats.MinimizeRendersSignature` | common/common.c:2828-3007 | Minimizing any well-formed printf format renders its argument signature |
| `Formats.CodeUnique` | common/common.c:2828-3007 | No argument code is the beginning of another |
| `Formats.PrefixIffSignaturePrefix` | common/common.c:2828-3007 | Minimized strings are uniquely decodable: text prefix and signature prefix are the same |
| `Formats.VerdictComparesSignatures` | common/common.c:3038-3046 | For well-formed formats: 0 if and only if the signatures are equal, 1 if and only if the dynamic one is a proper beginning of the reference, negative otherwise |
| `UpsSched.RunConserves` | clients/upssched.c:123-261 | In every run: started timers are pending, fired or cancelled, as multisets, and all timers are distinct |
| `UpsSched.TimerInOnePlace` | clients/upssched.c:123-261 | Every timer ever started with a valid offset is in exactly one of the three places, once |
| `UpsSched.SelectSplits` | clients/upssched.c:175-199 | A pass parts the queue into due and not due without loss |
| `UpsSched.FiresAtFirstDuePass` | clients/upssched.c:151-199 | No timer fires before its time; it fires in the first pass at or after it; what is pending was never due |
| `UpsSched.ExitsAfterEmptyWait` | clients/upssched.c:151-173 | The daemon has exited if and only if its last EMPTY_WAIT passes all found an empty queue |
| `UpsSched.RoundFeeds` | clients/upssched.c:681-792 | One round of reading equals feeding its bytes to the parser, and returns 1 exactly when a line was completed |
| `UpsSched.ServeFeeds` | clients/upssched.c:688-692 | Short reads, empty reads and the US_MAX_READ cut-off never change the lines served, and all bytes are read unless the connection closes |
| `UpsSched.ServeDaemonPerforms` | clients/upssched.c:640-792 | However its reads split it, a connection does to the timer list what its lines say, each once and in order |
| `UpsSchedDaemon.TimerDaemon.StartTimer` | clients/upssched.c:202-239 | Linked-list append, or nothing for a negative offset |
| `UpsSchedDaemon.TimerDaemon.RemoveTimer` | clients/upssched.c:123-149 | Unlinks one node and keeps the others in order |
| `UpsSchedDaemon.TimerDaemon.CancelTimer` | clients/upssched.c:241-261 | Removes the first timer of that name, or runs the alternative command if there is one |
| `UpsSchedDaemon.TimerDaemon.FireDue` | clients/upssched.c:175-199 | The in-place walk fires the due nodes in queue order and keeps the rest in order |
| `UpsSchedDaemon.TimerDaemon.CheckTimers` | clients/upssched.c:151-200 | One pass on the linked list, with the count of empty passes |
| `UpsSchedDaemon.SockArg` | clients/upssched.c:640-669 | A parsed line does to the timer list what its command says; a lone CANCEL takes the name an earlier line left in its slot |
| `UpsSchedDaemon.SockRead` | clients/upssched.c:681-792 | One round of reading on the in-place parser context with its stale slots, and, when it completes a line, its command performed on the timer list and the answer sent |
| `UpsSchedClient.BuildMessage` | clients/upssched.c:1201-1209 | The two fixed buffers hold the message as specified, truncation included |
| `UpsSchedClient.MessageWhole` | clients/upssched.c:1201-1209 | A message that fits is the quoted command line plus newline |
| `UpsSchedClient.SendReachesDaemon` | clients/upssched.c:681-792 | End to end for printable arguments that fit: the daemon completes exactly one line with the intended arguments, wherever reads split it |
| `UpsSchedClient.CommandArrives` | clients/upssched.c:640-792 | And serving that connection, in any number of rounds, does to the timer list exactly what the intended START or CANCEL does, once |
| `UpsSchedClient.CommandArrivesIffFits` | clients/upssched.c:1201-1209 | The arguments arrive if and only if the whole line fits the buffers |
| `UpsMonStatus.FlagAfterStatus` | clients/upsmon.c:2748-2768 | After any non-empty status each of the nine flags is set if and only if a word says so, or it was set before and its name occurs anywhere in the text |
| `UpsMonStatus.KnownStatusSetsExactly` | clients/upsmon.c:2729-2925 | For statuses of the known upper-case words: set if and only if its word is present, whatever was set before |
| `UpsMonStatus.SpellingsApart` | clients/upsmon.c:2811-2879 | No string spells two status words, so the order of the comparisons does not matter |
| `UpsMonStatus.ApplyWordsSets` | clients/upsmon.c:2800-2925 | The words set exactly the flags they name |
| `UpsMonStatus.EcoAfterStatus` | clients/upsmon.c:2770-2790 | The ECO flag after any non-empty status: a word says so, or a mode buzzword lacks one of the four marks, or it was set before and ECO occurs in the text |
| `UpsMonNotices.NoticesAlternate` | clients/upsmon.c:676-762 | Over every run without wake-up the notices that CAL, OFF, BYPASS, OVER, TRIM and BOOST began and ended strictly alternate per UPS, and the last one agrees with the flag |
| `UpsMonNotices.AlternationBreaksIff` | clients/upsmon.c:3994-3998 | Over every run, for all six conditions: the notices alternate and agree with the flag if and only if no wake-up came while the condition was on; a lost agreement is never regained, and once the condition is reported again a notice has been doubled |
| `UpsMonNotices.CommBadsSeparated` | clients/upsmon.c:631-673 | In every run, wake-ups included, a COMMOK lies between any two COMMBADs |
| `UpsMonRepeats.WarningsSpaced` | clients/upsmon.c:649-674 | Over every run in which the clock does not run back: more than NOCOMMWARNTIME between two NOCOMM, and more than RBWARNTIME (line 1595) between two REPLBATT about a UPS |
| `UpsMonSafety.NeverOnLineAndOnBattery` | clients/upsmon.c:867-906 | In every run ONLINE and ONBATT are never both set |
| `UpsMonSafety.NeverHeardNeverCritical` | clients/upsmon.c:1558-1561 | A UPS of which no non-empty status was ever parsed is never critical, in any run |
| `UpsMonSafety.LowBatteryOutlastsDelay` | clients/upsmon.c:1446-1516 | With OBLBDURATION, critical by OB+LB only if an earlier judgement at least that long ago started the delay and every judgement between saw OB+LB or was decided by an earlier clause |
| `UpsMonSafety.DelayRunsItsTime` | clients/upsmon.c:1446-1516 | The converse over every run: after the judgement that started the delay, while none finds the UPS outside OB+LB, a judgement no earlier clause decides waits if and only if fewer than OBLBDURATION seconds have passed, and then a primary is critical |
| `UpsMonSafety.OutsideLowBattery` | clients/upsmon.c:1409-1430 | What the judgement excluded there means: exactly the uncritical judgements outside OB+LB |
| `UpsMonSafety.SecondaryGivesUpAfterHostsync` | clients/upsmon.c:1523-1534 | A secondary gives up on its primary only if no processed word left the UPS outside OB and LB, or calibrating, in the last HOSTSYNC seconds |
| `UpsMonSafety.SecondaryWaitsWithinHostsync` | clients/upsmon.c:2645-2658 | A secondary that still waits was reassured within HOSTSYNC seconds, or never |
| `UpsMonSafety.SecondaryWaitsItsTime` | clients/upsmon.c:1523-1538 | After the last reassurance a secondary that no earlier clause decides gives up if and only if more than HOSTSYNC seconds have passed since |
| `UpsMonSafety.FailureLoggedEveryMax` | clients/upsmon.c:3047-3127 | In any run of the record made of judgements and of failures with one code, which was not the code before: the failure after n others is logged if and only if n mod the maximum is 0; only the first for a maximum of 0; every one for a negative maximum |
| `UpsMonSafety.FailuresThrottle` | clients/upsmon.c:3047-3127 | The counters in the record after such a run are those after its number of failures |
| `UpsMonSafety.ThrottleCounts` | clients/upsmon.c:3062-3068 | The post-incremented counter is the number of failures modulo the maximum |
| `UpsMonPace.DelayPace` | clients/upsmon.c:1456-1466 | The subtraction loop computes the greatest common divisor of POLLFREQALERT and OBLBDURATION |
| `UpsMonPace.CommonPaceMissesNothing` | clients/upsmon.c:1446-1466 | Polling at that pace meets the end of the delay exactly and every moment of the alert pace |
| `UpsMonOutage.OutageTimeline` | clients/upsmon.c:1446-1538 | An outage with any statuses whose words report OB and LB and take nothing back, and any judgements in between: the first judgement with OBLBDURATION in force starts the delay; every later one waits exactly until that many seconds have passed, and then a primary is critical, a secondary by its HOSTSYNC clock |
| `UpsMonOutage.OutageUnderDelay` | clients/upsmon.c:1446-1538 | The same for an outage that finds a delay already running, measured from its beginning |
| `UpsMonOutage.OutageWithoutDelay` | clients/upsmon.c:1518-1538 | Without OBLBDURATION: a primary is critical at every judgement of the outage; a secondary that was neither on battery nor low before it exactly when more than HOSTSYNC seconds have passed since the first report |
| `UpsMonOutage.PlainOutage` | clients/upsmon.c:2729-2925 | The plain status OB LB begins such an outage whatever was known before, and goes on with one |
| `UpsMonNode.UpsNode.ApplyWord` | clients/upsmon.c:2811-2879 | The comparisons in their order and the handler of the word on the record in place: flag, state, clocks and notice (lines 676-906 and 1595-1739) |
| `UpsMonNode.UpsNode.BeforeWords` | clients/upsmon.c:2748-2798 | What happens before the words are looked at: the record is alive again, disappeared conditions end with their notices, and the ECO mode is set or ended by the buzzwords |
| `UpsMonNode.UpsNode.UpsIsGone` | clients/upsmon.c:649-674 | Handler on the record in place: COMMBAD when contact is lost, then NOCOMM by its two intervals |
| `UpsMonNode.UpsNode.DropConnection` | clients/upsmon.c:1741-1787 | Forgets the link state without a COMMBAD |
| `UpsMonNode.UpsNode.ParseStatus` | clients/upsmon.c:2729-2925 | The whole status step: early clears, then each space-separated word with its timer update |
| `UpsMonNode.UpsNode.PollFailed` | clients/upsmon.c:3040-3127 | Throttling, loss of contact and dropped connection |
| `UpsMonNode.UpsNode.PollSucceeded` | clients/upsmon.c:3013-3038 | Throttle reset, then the status |
| `UpsMonNode.UpsNode.IsUpsCritical` | clients/upsmon.c:1274-1539 | All clauses in order, with their effects on the record |
| `UpsMonNode.UpsNode.Recalc` | clients/upsmon.c:1551-1568 | Promotion of a dead UPS, then the judgement |
| `UpsMonNode.UpsNode.Redefine` | clients/upsmon.c:1790-1902 | Changed parameters and when they drop the connection |
| `UpsMonList.StartUpLeavesNamedSystems` | clients/upsmon.c:1904-2044 | At start-up the list holds each named system once, in file order |
| `UpsMonList.NamesAlwaysDistinct` | clients/upsmon.c:3413-3462 | After start-up and any sequence of reloads no system is in the list twice, so the reload theorems hold of every reload |
| `UpsMonList.LoadInvariant` | clients/upsmon.c:1904-2044 | Reading MONITOR lines keeps names distinct and marks exactly the named systems as retained |
| `UpsMonList.ReloadLeavesNamedSystems` | clients/upsmon.c:3413-3462 | After a successful reload the list holds exactly the systems of the valid lines, each once, survivors in their old order and then new ones in file order, and the total is the sum over all valid lines |
| `UpsMonList.TotalIsListPower` | clients/upsmon.c:3431-3459 | When the file names no system twice the total is the sum of the power values in the list |
| `UpsMonList.RetainedSystems` | clients/upsmon.c:3440-3450 | What the sweep leaves |
| `UpsMonProgram.EveryRecordHasItsRun` | clients/upsmon.c:3413-3462 | Over every run of the program (start-up, polls of single UPSes, recalc, reloads, wake-ups) each record in the list has gone through a run of its own since it was added; a reload is to it a reset of the throttle and a change of its parameters |
| `UpsMonProgram.UnheardSystemsHoldShutdown` | clients/upsmon.c:1542-1578 | In no such run does recalc enter the shutdown while systems never heard from supply MINSUPPLIES |
| `UpsMonProgram.LonePrimaryShutsDownInTime` | clients/upsmon.c:1446-1578 | A host with one UPS, as its primary: in an outage the shutdown is entered at a judgement if and only if OBLBDURATION seconds have passed since the judgement that started the delay |
| `UpsMonDaemon.Monitoring.Recalc` | clients/upsmon.c:1542-1578 | The loop over the linked list judges every node once; unless the sum reaches 2 to the 32nd, the shutdown is entered if and only if the power values of the uncritical UPSes sum below MINSUPPLIES, and else the sum wraps around |
| `UpsMonDaemon.Monitoring.AddUps` | clients/upsmon.c:1904-2044 | Search for a duplicate, then append at the tail or redefine in place |
| `UpsMonDaemon.Monitoring.LoadConfig` | clients/upsmon.c:2405-2534 | The MONITOR lines of a file in order |
| `UpsMonDaemon.Monitoring.Sweep` | clients/upsmon.c:3439-3449 | Deletes in place what is not retained |
| `UpsMonDaemon.Monitoring.DeleteUps` | clients/upsmon.c:3359-3395 | Unlinks one node and keeps the others in order |
| `UpsMonDaemon.Monitoring.ReloadConf` | clients/upsmon.c:3413-3462 | The whole reload on the linked list |
| `NutSocket.Socket.Read` | clients/nutclient.cpp:635-664 | The loop over `_buffer` and fresh chunks |
| `NutSocket.Socket.Receive` | clients/nutclient.cpp:581-606 | One read: not connected, timed out, failed, or bytes |
| `NutSocket.ReadsStream` | clients/nutclient.cpp:635-664 | A read returns the byte stream up to its first newline, or how the stream ends, wherever the chunks were cut |
| `NutSocket.ReadIgnoresChunking` | clients/nutclient.cpp:635-664 | Two connections with the same bytes to come give the same results now and later |
| `NutSocket.DrainSplitsStream` | clients/nutclient.cpp:635-664 | Reading to the end yields exactly the stream split at its newlines |
| `Streams.LinesJoin` | clients/nutclient.cpp:635-664 | That split loses nothing |
| `NutSocket.TimeoutKeepsAllIff` | clients/nutclient.cpp:643-662 | After a timeout the next read still sees all received bytes if and only if no chunk, or one chunk into an empty buffer, had to be held |
| `NutCodec.Explode` | clients/nutclient.cpp:1276-1410 | The state-machine loop from any start position |
| `NutCodec.EscapeString` | clients/nutclient.cpp:1412-1429 | The escaping loop |
| `NutCodec.ExplodeUndoesEscape` | clients/nutclient.cpp:1276-1429 | For every vector of strings: exploding the escaped values, with a space before each as requests have it or only between them, returns the vector |
| `NutCodec.BareWordIff` | clients/nutclient.cpp:1276-1410 | An unquoted word comes back as itself if and only if it is not empty and holds no space, quote or backslash |
| `NutCodec.SetCommandArrivesIff` | clients/nutclient.cpp:1015-1019 | A value set through the library reaches the server's dispatcher unchanged, in one line and wherever the server's reads cut the command, if and only if it holds no number sign, which `escape` leaves alone and the parser rejects |
| `Upsd.HearIgnoresChunking` | server/upsd.c:886-910 | Without a parse error, where the reads of the server cut the stream makes no difference |
| `Upsd.ErringLosesHash` | server/upsd.c:886-910 | After a parse error at a number sign the rest of that read is dropped, and no line holds as many number signs as the text did |
| `NutCodec.ServerReadsEscaped` | clients/nutclient.cpp:1412-1429 | Against the server's scanner: the value, or a parse error |
| `NutCodec.RowArrivesIff` | clients/nutclient.cpp:1361 | Against the server's encoder: a row is read as name and value with every number sign turned into DEL (code 92 + 35), so unchanged if and only if there is none |
| `NutClient.DetectError` | clients/nutclient.cpp:1268-1274 | A line of exactly "ERR" throws outside the library's exceptions |
| `NutClient.TcpClient.ParseList` | clients/nutclient.cpp:1224-1252 | The reply loop over any connection |
| `NutClient.TcpClient.SendAsyncQueries` | clients/nutclient.cpp:1260-1266 | All queries in order |
| `NutClient.TcpClient.GetDeviceVariableValues` | clients/nutclient.cpp:949-964 | One device: the command, the reply loop, and the rows as a map from their first words; undefined when a row has none |
| `NutClient.TcpClient.GetEachDevice` | clients/nutclient.cpp:756-766 | The generic form, one device after the other |
| `NutClient.TcpClient.GetDevicesVariableValues` | clients/nutclient.cpp:966-1013 | The pipelined form: all queries first, then a reply per device |
| `NutClient.PipelinedQuery` | clients/nutclient.cpp:966-1013 | Against a server that answers in order, for any chunking: exactly the accepted devices, each with the meaning of its reply; throws if and only if all of a non-empty set are rejected; one query per device; no reply left unread |
| `NutClient.AgreesWithOneAtATime` | clients/nutclient.cpp:949-1013 | For every device: its entry is what the one-device query returns on that reply, and is absent when that throws, if and only if it is not an accepted device with the empty name |
| `NutClient.PipelinedRefinesGeneric` | clients/nutclient.cpp:756-766 | The generic form returns if and only if every device is accepted and none has the empty name, and then the pipelined one returns the same map having sent and read the same bytes |
| `NutClient.AcceptedExactly` | clients/nutclient.cpp:985-1003 | The map holds exactly the accepted devices |
| `NutClient.ServerListMeans` | server/netlist.c:60-74 | A list as the server writes it is a proper reply and becomes a map of exactly its variables, the status with FSD in front while a shutdown is forced, number signs turned into DEL |
| `UpsClientReader.Connection.ReadlineTimeout` | clients/upsclient.c:1585-1636 | The loop over the 64-byte buffer into the caller's buffer: the piece, its terminator, the untouched rest, the return code; on failure the LOGOUT sent and the error left, which that write may replace |
| `UpsClientReader.Connection.NetRead` | clients/upsclient.c:1611-1626 | A refill, or why there is none |
| `UpsClientReader.ReadsCut` | clients/upsclient.c:1609-1635 | One read takes one cut off the stream, however it was delivered |
| `UpsClientReader.ReadIgnoresChunking` | clients/upsclient.c:1609-1635 | Chunking never shows |
| `UpsClientReader.CutsRebuild` | clients/upsclient.c:1609-1635 | From the texts alone the stream can be rebuilt: no byte lost, duplicated or reordered, for every buffer size |
| `UpsClientReader.LineWholeIff` | clients/upsclient.c:1609-1635 | A line comes back whole with its newline consumed if and only if it is at most buflen - 2 long |
| `UpsClientReader.ShortLinesWhole` | clients/upsclient.c:1609-1635 | When no line is longer, the reads return the lines |
| `UpsClientReader.DrainCutsStream` | clients/upsclient.c:1585-1636 | Over a whole connection the reads return the cuts of its stream |
| `UpsClientCommand.BuildCmd` | clients/upsclient.c:1342-1369 | The loop over the arguments in the caller's buffer, truncation included |
| `UpsClientCommand.CommandClipped` | clients/upsclient.c:1342-1369 | For any arguments the buffer holds the whole command cut in front of its last two bytes, and a newline: the scratch buffer of the encoder never shows |
| `UpsClientCommand.CommandWholeIff` | clients/upsclient.c:1342-1369 | Nothing is cut if and only if two bytes stay free for newline and terminator |
| `UpsClientCommand.CommandReadAs` | clients/upsclient.c:1351-1365 | What the server reads for arbitrary printable arguments: one line, of exactly these words |
| `UpsClientCommand.ArgsArriveIff` | clients/upsclient.c:1351 | "Encode all arguments so they arrive intact": they do if and only if the whole command fits the buffer and each argument has a space, is a lone equals sign, or is neither empty nor holds an equals sign |
| `UpsClientCommand.VerifyResp` | clients/upsclient.c:1372-1385 | Same if and only if the argument slots, stale ones included, begin with the words of the query ignoring case; different if and only if some slot differs; otherwise the loop runs beyond them |
| `UpsClientQuery.Client.Get` | clients/upsclient.c:1387-1438 | Command, reader, parser and checks in sequence, with the error recorded |
| `UpsClientQuery.Client.ListStart` | clients/upsclient.c:1440-1496 | The same for the start of a list |
| `UpsClientQuery.Client.ListNext` | clients/upsclient.c:1498-1545 | The same for each further line |
| `UpsClientQuery.GetAnswered` | clients/upsclient.c:1387-1438 | Any answer line that fits the buffer: ERR lines and answers that do not begin with the query's words are errors, every other answer is returned word by word; one command sent, exactly the line read |
| `UpsClientQuery.NextAnswered` | clients/upsclient.c:1498-1545 | Any further line that fits the buffer: error, end, or a row, by the argument slots as the line leaves them |
| `UpsClientQuery.OnlyRowsOfTheListIff` | docs/man/upscli_list_next.txt:57-62 | "If the response is not part of the list you have requested, it will return an error code": so it is, but for a line that breaks off within the query's words and finds the missing ones in stale slots |
| `UpsClientQuery.GetReturnsValue` | server/netget.c:231-264 | End to end: the server reads the command as the words it was built from, and the value the driver set comes back as the server shows it, number signs included |
| `UpsClientQuery.ListReturnsVariables` | clients/upsclient.c:1440-1545 | Against the server's list with lines that fit: rows in order with every value as the server shows it, number signs included, then the end; one query sent, exactly the reply read |
| `Counterexamples.OpenQuote` | common/parseconf.c:31 | A line with an open quote: the string entry point reports a word, the character one no line |
| `Counterexamples.LoneLastWord` | common/parseconf.c:523-558 | A file that ends in a lone word yields nothing |
| `Counterexamples.OneByteBuffer` | common/parseconf.c:598-631 | A one-byte buffer is left with a backslash and no terminator |
| `Counterexamples.ExactFit` | common/common.c:2141-2151 | A token that fits exactly loses its last character and is reported as added |
| `Counterexamples.NotAllAdded` | common/common.c:2113 | One listed and one new token: the result is 1 |
| `Counterexamples.LongTimerName` | clients/upssched.c:1201-1209 | A timer name of 512 letters, the longest the configuration parser lets through: the daemon does not see the arguments |
| `Counterexamples.WokenWhileCalibrating` | clients/upsmon.c:3994-3998 | Calibration reported, a wake-up, calibration reported again: two notices that it began |
| `Counterexamples.TimeoutAfterTwoChunks` | clients/nutclient.cpp:643-662 | Two chunks and a timeout: the first chunk is gone |
| `Counterexamples.FullBuffer` | common/common.c:2831-2834 | A size of one byte, filled by the form: no NULL, and the terminator behind it |
| `Counterexamples.NamelessDevice` | clients/nutclient.cpp:949-1013 | With a server that lists a device with the empty name the pipelined query returns it and the one-device query throws |
| `Counterexamples.BrokenOffRow` | clients/upsclient.c:1498-1545 | After a row, a line that breaks off after its first word is taken for another row |
| `Counterexamples.NumberSign` | clients/nutclient.cpp:1412-1429 | The value "#" does not arrive when set through the C++ library, wherever reads cut the command, and is read through it as DEL |
| `Counterexamples.EqualsSign` | clients/upsclient.c:1351 | SET with an argument that holds an equals sign and an empty one: the server completes the line SET, a, =, b |

## Left out

- UpsMonNode.UpsNode.ParseStatus: tokens outside the known vocabulary and the OTHER and NOTOTHER notices about them; the tree they are kept in is not part of this model.
- UpsMonNode.UpsNode.ApplyWord: for ALARM, the comparison of alarm texts is an input that says whether the text is news.
- UpsMonNode.UpsNode.IsUpsCritical: the clock is read once per step where the source may read it several times within one.
- UpsMonNode.UpsNode.Redefine: the addition to the total of the power values belongs to `Monitoring.AddUps`.
- UpsMonDaemon.Monitoring.LoadConfig: configuration directives other than MONITOR; their values are an input of every step.
- UpsMonList.LoadInvariant: reading while reloading; `StartUpLeavesNamedSystems` is about start-up.
- UpsSchedDaemon.SockArg: on a connection that never had a second argument a lone CANCEL reads a slot that does not exist; the outcome is reported as undefined and nothing is said of the program after it.
- NutClient.TcpClient.GetDevicesVariableValues: a list row without any word makes the source read past the end of a vector; the outcome is reported as undefined and nothing is said of the program after it. The other two queries do the same.
- UpsClientCommand.VerifyResp: when every argument slot ever filled agrees and the query is longer still, the source reads beyond them; the outcome is reported as undefined, and so in `Client.ListStart` and `Client.ListNext`.
- NutSocket.Socket.Write: writes that fail, time out or are short; every line written is recorded whole.
- The status word of upsmon is a set of flags; its bit representation, and the tests that a mask of several bits is set, do not appear.
- The sleep interval of upsmon apart from the pace computed for the OBLBDURATION delay: `try_restore_pollfreq` tests all bits of a mask at once, so the interval does not follow the alert states.
- Shutdown itself, NOTIFYCMD, SHUTDOWNCMD, wall messages and logging: only which notice or command is due is recorded.
- Sockets, TLS, name lookup, fork, signals, pipes, process files, lock files, the system bus and all Windows branches.
- Error numbers behind an ERR line in the C client, and `pconf_finish` on a lost connection.
- Writing a command through the C client is taken to succeed while the connection is open; only the LOGOUT of a disconnect may fail.
- GET and LIST queries other than those for variables, and `server.*` variables, on the side of the server.
- Characters above 127 as negative C characters, memory exhaustion, and overflow of the clock.
- common/nutconf.cpp and the command-line and CGI programs, which would add only easy members or rely on files that are not part of this model.
