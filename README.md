# PortKnocker auto-knock engine in Dafny

PortKnocker is a Windows desktop tool. It sends a "knock": a sequence of
TCP connection attempts and empty UDP datagrams to chosen ports of a
destination, which makes a port-knocking daemon open a door. It keeps
saved destinations, called *profiles*. It can also knock on its own:
- A connection monitor polls the machine's TCP table.
- It reports each new outbound connection to a watched port.
- Auto-knock rules, called *mappings*, pick the profile to knock for that
  connection's remote address and port. A rule has one of three kinds:
  `AnyIp`, `ExactIp` (a host name or address) or `Cidr` (an IPv4 block).

This project models the engine behind that feature:

| file | module | what it models |
|---|---|---|
| `models.dfy` | `Models` | the persisted data (protocols, steps, profiles, rule kinds, rules, application state) and their defaults |
| `text.dfy` | `Text` | what the engine uses from .NET strings and integer parsing: whitespace trimming, splitting on separators, case-insensitive equality, and `int.TryParse` with its 32-bit range |
| `lists.dfy` | `Lists` | `FirstOrDefault`, `RemoveAll` and `Distinct` as sequence functions |
| `net.dfy` | `Net` | IP addresses (IPv4 as four octets; IPv6 as text), dotted-quad text and parsing, and a DNS answer |
| `bits.dfy` | `Bits` | 32-bit unsigned masks as integers: bitwise AND, shifts, and the prefix mask of a CIDR block |
| `ip_utils.dfy` | `IpUtils` | `TryParseCidr`, `IpInCidr` and the big-endian `ToUInt` |
| `rules.dfy` | `Rules` | host/IP matching, rule resolution (ExactIp before Cidr before AnyIp, first match within a kind), the port lists of rules, and the four step rows of the editor |
| `monitor.dfy` | `Monitor` | the `ConnectionMonitor` class (its seen set, watch ports and the poll/scan loop) over TCP tables passed in as snapshots |
| `knocker.dfy` | `Knocker` | the `PortKnockerService` class: validation, address resolution and the step loop, as a trace of attempts, log lines and pauses |
| `window.dfy` | `Window` | the main window's handlers as a class over the application state: save and delete a destination, add and delete a rule, start and stop the monitor |

## Environment as parameters

Everything the engine asks of the outside world is a parameter:
- DNS is a function from a host name to a `DnsResult` (addresses, or a
  failure with its message).
- The TCP table is a sequence of connections, or `None` when it could not
  be read.
- For each step, the network answers with a `SendOutcome`:
  - `ConnectFirst`: the connect task finished before the timeout;
  - `TimeoutFirst`: the timeout finished first;
  - `Threw(message)`: the send raised an exception.
- Cancellation is a predicate over checkpoints: before step *i*, and
  during the delay after step *i*.
- A knock returns what it would have done, in order, as `Action`s:
  - `Attempt` (a datagram sent or a connection attempted);
  - `Log` (a log line, with the source's exact texts);
  - `Pause` (the delay between steps).

  It is wrapped in a `KnockResult` that tells completion, cancellation
  and the two kinds of exception apart.

## Where the code and the documented behaviour differ

The model follows the code in both of these cases.
- A failed read of the TCP table leaves the seen set unchanged
  (`ConnectionMonitor.cs:43-47`: the exception from reading the table is caught before the trim at lines 80-87). The
  previous table's connections therefore stay suppressed.
- Cancellation during the delay after a step makes `Task.Delay` throw,
  which leaves the step loop (`PortKnockerService.cs:64-65`). The
  "Knock sequence completed." line is then not logged. Cancellation
  noticed at the top of the loop (line 45) breaks out and does log it.

## Model

| member | source | states |
|---|---|---|
| Models.DefaultStep | Models.cs:11-15 | a new step has port 0 and protocol TCP |
| Models.NewProfile | Models.cs:17-28 | a new profile has an empty name and address and exactly four placeholder steps |
| Models.DefaultMapping | Models.cs:37-44 | a new rule is an AnyIp rule with empty name, pattern and profile, and an empty port list |
| Models.NewAppState | Models.cs:47-52 | a new state is version 1 with no profiles and no rules |
| Text.Trim | MainWindow.xaml.cs:107-108 | the result is a slice of the input with only Unicode White_Space cut on each side; it is empty exactly when the input is blank; otherwise it starts and ends with non-whitespace |
| Text.TrimIdempotent | MainWindow.xaml.cs:401 | trimming twice is trimming once |
| Text.SplitJoin | MainWindow.xaml.cs:299-301 | splitting parts joined by a separator gives the parts back when no part holds a separator |
| Text.JoinSplit | MainWindow.xaml.cs:299-301 | joining the pieces of a split on one separator gives the text back |
| Text.EqualsIgnoreCaseWithoutLetters | MainWindow.xaml.cs:403 | for texts without lower-case letters (dotted quads), case-insensitive equality is equality |
| Text.TryParseInt | MainWindow.xaml.cs:123 | any parsed value lies in the 32-bit signed range, and blank text never parses |
| Text.TryParseIntText | MainWindow.xaml.cs:123 | the decimal text of every 32-bit value is read back as that value |
| Text.TryParseIntOfTrimmed | MainWindow.xaml.cs:301-302 | on trimmed text, reading skips no further space |
| Text.SpacesSkipped | MainWindow.xaml.cs:123 | leading and trailing tabs and spaces around a number are skipped |
| Text.NoBreakSpaceRefused | MainWindow.xaml.cs:123 | a no-break space before a number is not skipped by the integer reader |
| Text.NoBreakSpaceTrimmed | MainWindow.xaml.cs:301 | string.Trim cuts a leading no-break space |
| Text.NoBreakSpaceTrimmedFirst | MainWindow.xaml.cs:301-302 | trimming first removes that no-break space, so the port list reads the number |
| Text.ParseIntText | MainWindow.xaml.cs:123 | the decimal text of every 32-bit value parses back to that value |
| Text.ParseIntTextOutOfRange | MainWindow.xaml.cs:123 | the decimal text of a value outside 32 bits does not parse |
| Lists.FirstIndex | MainWindow.xaml.cs:218 | the result is the first index whose element matches, and none exactly when no element matches |
| Lists.RemoveAll | MainWindow.xaml.cs:265 | the kept elements are exactly those of the input that do not match |
| Lists.RemoveAllIdempotent | MainWindow.xaml.cs:490 | removing twice is removing once |
| Lists.Distinct | MainWindow.xaml.cs:313-314 | the result has the input's elements and no repeats |
| Lists.DistinctKeepsFirstOccurrenceOrder | MainWindow.xaml.cs:313-314 | the result lists elements in the order of their first occurrence in the input |
| Lists.DistinctOfDistinct | MainWindow.xaml.cs:453-455 | a list without repeats is its own distinct list |
| Net.ParseAddressText | ipUtils.cs:28-29 | every IPv4 address's dotted-quad text parses back to that address |
| Net.ParseAddressCanonical | ipUtils.cs:28-29 | a text that parses as an IPv4 address is that address's dotted-quad text |
| Net.AddressTextInjective | MainWindow.xaml.cs:410-411 | two IPv4 addresses have the same text exactly when they are equal |
| Net.ParseAddress | MainWindow.xaml.cs:402 | an address read as IPv6 keeps the text it was read from |
| IpUtils.FromToUInt | ipUtils.cs:36-41 | reading the big-endian value back into octets gives the address |
| IpUtils.ToFromUInt | ipUtils.cs:36-41 | every 32-bit value is the big-endian value of exactly one address |
| IpUtils.ToUIntInjective | ipUtils.cs:36-41 | two IPv4 addresses have the same big-endian value exactly when they are equal |
| IpUtils.ParseCidr | ipUtils.cs:10-19 | a parsed block has an IPv4 base and a prefix from 0 to 32; blank text never parses |
| IpUtils.ParseCidrMeaning | ipUtils.cs:10-19 | a text parses exactly when it is not blank, splits on '/' into exactly two parts, the first trimmed part is an IPv4 address and the second trimmed part reads as an integer from 0 to 32; the result is that address and that integer |
| IpUtils.TryParseCidr | ipUtils.cs:8-24 | success exactly when the text parses; on failure the network and mask are 0; blank text fails |
| IpUtils.BlockNetworkMasked | ipUtils.cs:21-22 | the network of a parsed block is unchanged by its own mask |
| Bits.PrefixMaskValue | ipUtils.cs:21 | the mask of prefix p is 2^32 - 2^(32-p): p one bits followed by zeros |
| Bits.MaskedEqual | ipUtils.cs:21-22 | two values agree under the prefix mask exactly when their top p bits agree |
| IpUtils.ParseCidrText | ipUtils.cs:10-19 | the text "a.b.c.d/p" of every IPv4 base and prefix 0..32 parses back to that base and prefix |
| IpUtils.TryParseCidrText | ipUtils.cs:8-24 | such a text gives the block's network and mask |
| IpUtils.TryParseCidrRejectsPrefix | ipUtils.cs:19 | a prefix below 0 or above 32 is rejected |
| IpUtils.IpInCidr | ipUtils.cs:26-34 | a match needs an IPv4 address and a parsable block |
| IpUtils.IpInCidrMeaning | ipUtils.cs:26-34 | a parsed IPv4 address is in a parsed block exactly when it shares the block's top p bits with the base |
| IpUtils.IpInCidrText | ipUtils.cs:26-34 | every base address lies in its own block, whatever the prefix |
| IpUtils.PrefixZeroMatchesAll | ipUtils.cs:26-34 | a /0 block holds every IPv4 address |
| IpUtils.PrefixThirtyTwoMatchesOnlyBase | ipUtils.cs:26-34 | a /32 block holds exactly its base address |
| IpUtils.NonIPv4NeverMatches | ipUtils.cs:29-30 | text that is not an IPv4 address is in no block |
| Rules.FindProfile | MainWindow.xaml.cs:388-389 | the profile found has the name ignoring case, and there is none exactly when no profile has it |
| Rules.FindProfileFirst | MainWindow.xaml.cs:388-389 | when several profiles have the name, the first one is found |
| Rules.ResolvedMatch | MainWindow.xaml.cs:407-413 | a resolved host matches exactly when one of its IPv4 addresses has the observed text |
| Rules.HostOrIpMatches | MainWindow.xaml.cs:397-420 | a blank pattern never matches; a literal pattern matches by text ignoring case; a failed lookup never matches; a resolved name matches through its IPv4 addresses |
| Rules.LiteralPatternIgnoresDns | MainWindow.xaml.cs:401-403 | a literal pattern's match does not depend on DNS |
| Rules.LiteralPatternMeansSameAddress | MainWindow.xaml.cs:401-403 | an observed IPv4 address matches an IPv4 literal pattern exactly when it is the same address |
| Rules.DefaultMappingAdmitsAll | MainWindow.xaml.cs:376-391 | a default rule admits every port and address, and leads to the profile with the empty name |
| Rules.PortFilterSkips | MainWindow.xaml.cs:376 | a rule whose non-empty port list leaves out the port never fires |
| Rules.BlankCidrNeverFires | MainWindow.xaml.cs:382 | a Cidr rule without a pattern never fires |
| Rules.Rank | MainWindow.xaml.cs:371 | every kind has a place in the ExactIp, Cidr, AnyIp order |
| Rules.ScanKindSpec | MainWindow.xaml.cs:373-392 | scanning one kind yields the first rule of that kind that fires, or none exactly when none fires |
| Rules.ResolveSpec | MainWindow.xaml.cs:369-395 | no profile exactly when no rule fires; otherwise the profile of a rule that fires, comes first of its kind, and has no rule of a more specific kind firing |
| Rules.ResolvePriorityOrder | MainWindow.xaml.cs:371-393 | the ExactIp scan decides first, then the Cidr scan, then the AnyIp scan |
| Rules.WinnerOfKind | MainWindow.xaml.cs:371-393 | the scan of the most specific kind that fires returns a winning rule's profile |
| Rules.WinsFrom | MainWindow.xaml.cs:371-393 | a firing rule with nothing before it of its kind and nothing of a more specific kind wins |
| Rules.TryResolveProfileForSpec | MainWindow.xaml.cs:369-395 | resolution over the state's rules and profiles has the properties of ResolveSpec |
| Rules.CandidateMeaning | MainWindow.xaml.cs:376-391 | a rule fires exactly when its port filter admits the port, its address test passes and its profile exists; the result is that profile |
| Rules.ExactIpFirst | MainWindow.xaml.cs:371-391 | a firing ExactIp rule guarantees a result, and that result comes from an ExactIp rule no later than it |
| Rules.AutoKnockTarget | MainWindow.xaml.cs:341-367 | the knock targets the observed address with the matched profile's steps, or with the editor's steps when no rule fires; nothing is knocked when neither has steps |
| Rules.ValidPorts | MainWindow.xaml.cs:299-304 | every kept port lies in 1..65535 |
| Rules.PortOf | MainWindow.xaml.cs:301-304 | a part gives a port exactly when its trimmed text reads as an integer in 1..65535, and the port is that integer |
| Rules.PortOfText | MainWindow.xaml.cs:301-304 | the decimal text of a valid port gives that port |
| Rules.ValidPortsMembers | MainWindow.xaml.cs:299-304 | a port is kept exactly when some part parses to it and it lies in 1..65535 |
| Rules.PortsTextRoundTrip | MainWindow.xaml.cs:453-455 | reading a comma-joined list of valid ports gives the list back |
| Rules.ValidPortsOfTexts | MainWindow.xaml.cs:453-455 | the texts of valid ports are all kept, in order |
| Rules.ParseIntSafe | MainWindow.xaml.cs:123 | the parsed value when the text parses, otherwise the fallback |
| Rules.StepsFromRows | MainWindow.xaml.cs:92-98 | the editor's steps are exactly the rows' steps with a positive port, in row order: the result is the row steps at increasing row indices that include every row whose step has a positive port |
| Rules.KeepPositiveFilter | MainWindow.xaml.cs:98 | keeping positive-port items is a filter: the kept items are those at increasing indices, and every item with a positive port is kept |
| Rules.PadSteps | MainWindow.xaml.cs:130-134 | the editor shows four rows: the profile's steps, then default steps |
| Rules.StepRowRoundTrip | MainWindow.xaml.cs:113-149 | showing a step with a positive 32-bit port in a row and reading it back gives the step |
| Rules.PlaceholderRowDropped | MainWindow.xaml.cs:137-139 | a step without a positive port reads back as port 0 |
| Rules.EditorRoundTrip | MainWindow.xaml.cs:90-149 | showing a profile with up to four real steps and reading the editor back gives its steps |
| Monitor.ConnectionMonitor.constructor | ConnectionMonitor.cs:17-23 | a new monitor is stopped, has seen nothing and watches port 8291 |
| Monitor.ConnectionMonitor.Start | ConnectionMonitor.cs:25-31 | the monitor is enabled; the seen set and ports are unchanged |
| Monitor.ConnectionMonitor.Stop | ConnectionMonitor.cs:33-37 | the monitor is disabled; the seen set and ports are unchanged |
| Monitor.ConnectionMonitor.ScanOnce | ConnectionMonitor.cs:53-88 | the events are those of ScanEvents over the old seen set, and the seen set becomes the watched keys of this table |
| Monitor.ConnectionMonitor.Run | ConnectionMonitor.cs:39-51 | polling a series of snapshots raises RunEvents and leaves the seen set at SeenAfter; a failed read is skipped |
| Monitor.ScanEventsMeaning | ConnectionMonitor.cs:59-76 | an event is raised exactly for a connection to a watched port in SynSent or Established whose key was not seen before and not earlier in the table |
| Monitor.ScanReportsWatchedPorts | ConnectionMonitor.cs:63 | every raised event is to a watched port |
| Monitor.SeenTableRaisesNothing | ConnectionMonitor.cs:67 | a table whose watched keys were all seen raises nothing |
| Monitor.RescanRaisesNothing | ConnectionMonitor.cs:80-87 | scanning the same table twice raises nothing the second time |
| Monitor.StateChangeRaisesAgain | ConnectionMonitor.cs:62 | the same connection moving from SynSent to Established is reported again |
| Monitor.ReappearingConnectionsRaiseAgain | ConnectionMonitor.cs:80-87 | connections that vanish for one poll are reported again when they return |
| Monitor.FailedPollSkipped | ConnectionMonitor.cs:43-47 | a failed read changes neither the events nor the seen set |
| Knocker.PreferredAddressMeaning | PortKnockerService.cs:35-40 | the address chosen is an answer; it is the first IPv4 answer when there is one, otherwise the first answer |
| Knocker.ChooseAddress | PortKnockerService.cs:35-40 | the loop returns the preferred address |
| Knocker.ResolveHost | PortKnockerService.cs:26-41 | the method resolves the trimmed target as ResolveTarget does |
| Knocker.ResolveTargetFails | PortKnockerService.cs:29-33 | resolution fails exactly when the text is no address and DNS fails or returns nothing; the message is DNS's own, or "Could not resolve host '<host>'." with the trimmed host when DNS answers with no address; a non-empty answer gives the preferred address |
| Knocker.LiteralAddressSkipsDns | PortKnockerService.cs:29 | a literal address is used as is, and the knock does not depend on DNS |
| Knocker.PortKnockerService.constructor | PortKnockerService.cs:13-16 | a new knocker waits 200 ms between steps and 400 ms for a TCP connect |
| Knocker.PortKnockerService.KnockAsync | PortKnockerService.cs:18-69 | the knock's outcome and actions are those of Knock |
| Knocker.PortKnockerService.WalkSteps | PortKnockerService.cs:43-66 | the step loop produces Walk over all the steps |
| Knocker.WalkBreaks | PortKnockerService.cs:45 | cancellation before a step ends the loop with the trace so far |
| Knocker.WalkSkips | PortKnockerService.cs:46 | a step without a positive port adds nothing |
| Knocker.WalkAttempts | PortKnockerService.cs:48-65 | a real step adds its attempt, its log line and, when the delay is positive, a pause |
| Knocker.WalkStopped | PortKnockerService.cs:45 | once the loop has stopped, later steps change nothing |
| Knocker.StepLineNotCompletion | PortKnockerService.cs:61-68 | no step's log line is the completion line |
| Knocker.WalkShape | PortKnockerService.cs:43-66 | the loop never logs the completion line and only attempts positive ports on the chosen address; it is thrown out only during a positive delay |
| Knocker.AttemptsAppend | PortKnockerService.cs:43-66 | the attempts of two traces joined are the attempts of each, joined |
| Knocker.UncancelledWalk | PortKnockerService.cs:43-66 | without cancellation, the loop attempts exactly the steps with a positive port, in order |
| Knocker.KnockArguments | PortKnockerService.cs:20-23 | a blank target or an empty step list is an argument error naming the parameter |
| Knocker.UncancelledKnockCompletes | PortKnockerService.cs:18-69 | without cancellation a knock completes, attempts exactly the positive-port steps in order on the resolved address, and ends with the completion line, logged once |
| Knocker.KnockEnding | PortKnockerService.cs:64-68 | a knock that ends normally ends with the completion line; one cancelled during a delay does not log it |
| Knocker.CancelledBeforeFirstStep | PortKnockerService.cs:45-68 | cancellation before the first step only logs the completion line |
| Knocker.PlaceholdersKnockNothing | PortKnockerService.cs:46 | steps without a positive port, such as a new profile's four, send nothing and only log the completion line |
| Window.FindMapping | MainWindow.xaml.cs:457 | the rule found has the name ignoring case, and there is none exactly when no rule has it |
| Window.ProfileFromEditor | MainWindow.xaml.cs:90-111 | the editor's profile has only positive-port steps and an empty name or address exactly when the text box is blank |
| Window.MainWindow.constructor | MainWindow.xaml.cs:21-36 | the window starts from the loaded state with "58291,8291" in the watch box and a new monitor already started on WatchPortsFor that text and the loaded rules, having seen nothing |
| Window.StartupWatchTextWritten | MainWindow.xaml.cs:26 | the startup text is the port list 58291, 8291 as the window writes port lists |
| Window.StartupWatchTextReads | MainWindow.xaml.cs:26 | the startup text reads as exactly the ports 58291 and 8291 |
| Window.StartupWatchPorts | MainWindow.xaml.cs:21-36 | the window opens watching 58291 and 8291 whatever the rules |
| Window.StartupWatchPortsWithoutRules | MainWindow.xaml.cs:21-36 | with no rules, the window opens watching exactly 58291 and then 8291 |
| Window.MainWindow.SaveProfile | MainWindow.xaml.cs:199-256 | a missing name, address or step is refused with the source's message and changes nothing; otherwise the profile is upserted and its ExactIp rule upserted |
| Window.MainWindow.DeleteProfile | MainWindow.xaml.cs:258-269 | without a selection it is refused; otherwise every profile with the name is removed and the rules are kept |
| Window.MainWindow.SaveMapping | MainWindow.xaml.cs:422-480 | a missing name, pattern or profile is refused with the source's message ("Enter a rule name.", the ExactIp and CIDR pattern messages, "Select a profile to use for this mapping.") and changes nothing; otherwise the rule is upserted with the distinct valid ports |
| Window.MainWindow.DeleteMapping | MainWindow.xaml.cs:482-495 | a blank name is refused; otherwise every rule with the name is removed |
| Window.MainWindow.EnableMonitor | MainWindow.xaml.cs:296-321 | the monitor watches WatchPortsFor and is started; its seen set is kept |
| Window.MainWindow.ToggleMonitor | MainWindow.xaml.cs:271-282 | a running monitor is stopped; a stopped one is enabled with the current watch ports |
| Window.UpsertProfileSpec | MainWindow.xaml.cs:218-227 | after saving, the name finds a profile with the new address and steps; an existing profile keeps its place and name; otherwise the profile is appended; other profiles are untouched |
| Window.UpsertProfileIdempotent | MainWindow.xaml.cs:218-227 | saving the same profile twice is saving it once |
| Window.UpsertAutoMappingSpec | MainWindow.xaml.cs:229-251 | after saving, the destination's name finds an ExactIp rule for its address and profile, with its earlier ports or [58291]; other rules are untouched |
| Window.UpsertMappingSpec | MainWindow.xaml.cs:457-475 | after adding or updating, the name finds a rule with the new fields; an existing rule keeps its place and name; otherwise it is appended |
| Window.UpsertMappingIdempotent | MainWindow.xaml.cs:457-475 | adding the same rule twice is adding it once |
| Window.DeleteProfileSpec | MainWindow.xaml.cs:265 | after deleting, no profile has the name and every profile with another name remains |
| Window.DeleteMappingSpec | MainWindow.xaml.cs:490 | after deleting, no rule has the name and every rule with another name remains |
| Window.ResolvedProfileStored | MainWindow.xaml.cs:369-395 | auto-knock only ever picks a stored profile |
| Window.DeletedProfileNeverResolved | MainWindow.xaml.cs:265 | a deleted destination is never picked again, even by rules that still name it |
| Window.SavedDestinationAutoKnocks | MainWindow.xaml.cs:218-251 | after saving an IPv4 destination, a connection to that address on a port of its rule resolves to a profile |
| Window.RulePortsMembers | MainWindow.xaml.cs:306-311 | the gathered ports are exactly the ports of some rule |
| Window.WatchPortsForSpec | MainWindow.xaml.cs:296-321 | the watch list is non-empty and without repeats; it holds every typed port and every rule port and nothing else, or is [8291] when there are none |

## Left out

- Null lists, null steps and a null rule port list are not modelled: sequences are never null.
- The log callback is always present: the trace records every line the source would log.
- The lock that lets only one automatic knock run at a time (`KnockProfileAsync`) is not modelled: there is no concurrency in the model.
- WPF plumbing is not modelled: message boxes, the dispatcher, rebuilding the list boxes, `AppendLog` and window styling. The window's handlers return a refusal message instead of showing it.
- Loading and saving the state file (`ProfileStore.cs`, `SaveState`, `LoadStateAndBind`) is not modelled: it is file I/O. The constructor takes the loaded state as a parameter.
- `Logger.cs` and `App.xaml.cs` are not part of this model.
- Net.ParseAddress: `IPAddress.TryParse` is lenient. It accepts forms such as short or octal dotted quads and scoped IPv6. The model accepts only the canonical dotted quad with octets 0..255 and no leading zeros, and treats a text of hex digits, colons and dots holding at least two colons as IPv6, so some texts .NET rejects, such as "1:2:", are still taken as IPv6. IPv6 addresses are kept as their text, not as canonical 128-bit values.
- Text.TryParseInt: `int.TryParse` also accepts culture-specific forms. The model reads an optional '+' or '-' and decimal digits. It skips only U+0009 to U+000D and space around them, as `NumberStyles.Integer` does. The port lists trim with the full Unicode White_Space set first.
- The rule kind combo box (`Enum.TryParse`) is an optional kind; an unreadable kind is AnyIp, as in the source.
- `CurrentFromUI` also copies the delay boxes into the knocker; the model keeps the delays fixed in the knocker's fields.
- The manual knock button and `KnockProfileAsync`'s own validation are not modelled. Auto-knock's choice of what to knock is modelled by Rules.AutoKnockTarget.
- Knocker.KnockArguments: the argument error carries the parameter name and the source's message, without the suffix .NET appends.
- Timing is not modelled. Each TCP attempt's race between the connect and the 400 ms timeout is an oracle answer (`ConnectFirst` or `TimeoutFirst`). A refused connection also finishes the connect task first, so it logs "TCP CONNECTED" as in the source.
- A UDP send logs the same line whatever the oracle answers, unless it throws; the 300 ms socket timeouts are not modelled.
- Exception messages from sockets and DNS are oracle strings, not the .NET texts.
- Exceptions thrown in the middle of a scan are not modelled; only a failed table read (`None`) is.
- Text.EqualsIgnoreCase: ordinal case-insensitive comparison is modelled on ASCII letters only; other scripts' case pairs are not folded.
- The monitor's string key "ip:port:state" is modelled as a triple of address, port and state. This is equivalent because the key splits uniquely from the right. The port and the state name contain no ':', while an IPv6 address may contain several.
- The monitor loop's cancellation token and its polling interval are not modelled: Run takes the series of snapshots the loop would see.
