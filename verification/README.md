# Proxora: verified model of the library algorithms

Proxora manages Proxmox VE hosts. Its `lib/` directory holds the algorithms that work on users' files,
credentials, uploads, network configuration and access rights. This project models the hardest of them in
Dafny and proves what they are for: which inputs they handle right, what every run keeps, and where a promise
fails.

`dafny verify dfyconfig.toml` checks everything. There are no assumptions: what lies outside the library
(the keyed hash, `URL`, `isWireguardKey`, `localeCompare`, a worker's result) is a parameter, and the laws it
must satisfy are `requires` clauses.

## How the model is laid out

Code that works step by step is a method with the loops of the source, proved equal to a specification
function; what the code is for is then proved about that function, as lemmas over all inputs. Code that
updates an object is a class (`UploadClient.Upload`, `RateTracker.Tracker`, `WorkerPool.Pool`) whose methods
are proved against a state machine or against the whole history.

| files | what they model |
|---|---|
| `Text`, `Words` | trimming, splitting, joining, numerals, first appearances; 32-bit words with wrap-around |
| `MarkupFormat`, `MarkupNesting`, `MarkupConservation`, `MarkupIdempotence` | the markup printer: its loops, its indentation, what it keeps |
| `TidyText` | the white-space tidier |
| `Base32`, `Base32Values`, `Totp` | the base-32 codec of section 6 of RFC 4648 and the codes of RFC 4226 and RFC 6238 |
| `UploadProtocol`, `UploadSafety`, `UploadOutcome`, `UploadClient`, `RateTracker` | the WebSocket upload and its rate estimate |
| `WorkerPool` | the concurrent worker pool |
| `WireguardConf`, `WireguardRoundTrip`, `WireguardPeers`, `WireguardReading`, `WireguardAgain` | the WireGuard printer and parser |
| `Cidr`, `CidrSpelled` | IPv4 prefixes |
| `SuiteIds`, `SuiteSlugs`, `SuiteApps`, `SuiteLists` | suite app ids and stored lists |
| `SuiteRewrite`, `SuiteHrefs`, `SuiteScripts`, `SuiteRouting`, `SuiteMoves` | page rewriting and routing |
| `GuestPaths`, `GuestPathParts`, `GuestPathLaws` | the guest path resolver, parents, names, breadcrumbs, renames |
| `VncHandshake` | the VNC acknowledgement stripper, folded over chunks |
| `StableSort`, `TemplateVersions`, `TemplateSpelling`, `TemplateGroups`, `TemplateLines`, `TemplateCatalog`, `TemplateRows` | version order, template grouping and merging |
| `NextVmid` | the guest id allocator |
| `AlertHysteresis` | disk and temperature alerts over runs of scans |
| `GuestScope`, `Permissions`, `PermissionTables`, `PermissionChecks` | access scopes, overrides, permission checks and their tables |

## Where a promise fails

Some promises one would expect of this code do not hold on every input. Each is proved with its exact condition
and an input on which it fails.

- Formatting markup is idempotent just when no token that is copied as it stands, that is, one starting with "<"
  once it is trimmed, still holds CR LF after CR LF has been normalised (`MarkupIdempotence.FormatIdempotentIff`);
  `<a\r\r\nb>` holds one (`MarkupIdempotence.FormatNotIdempotent`).
- Tidying is idempotent just when the text does not start with two byte-order marks (`TidyText.TidyIdempotentIff`,
  `TidyText.TidyNotIdempotent`).
- `suiteAppId` gets by with one candidate more than there are ids taken, whatever the ids, just for roots that are
  not 40 characters long with "-n" at the end for some n from 2 on (`SuiteIds.OneMoreSufficesIff`). For a root of that
  kind one more is tried just when the ids taken are the numbered candidates up to there and the root is among them
  (`SuiteIds.OneMoreIff`, `SuiteIds.BoundIsReached`).
- `ensureIpInAllowedIps` is idempotent just when the host is no dotted quad or has no octet above 255: `interfaceIpv4`
  lets such a host through and `ipv4ToInt` does not (`Cidr.EnsuredIdempotentIff`, `Cidr.EnsuredNotIdempotent`).
- Printing a WireGuard configuration that was read and reading it again gives the same one just when every peer that
  was kept had a keepalive above zero (`WireguardAgain.SecondRoundTripIff`): one that was switched off is read as
  missing, and then printed and read as 25 (`WireguardAgain.KeepaliveComesBack`).
- A path of an app comes back from the proxy as it was just when it is static or is neither "/r" nor below "/r/"
  (`SuiteRouting.RoutedBackIff`, `SuiteRouting.BumpedPathIsLost`).
- What the browser receives depends on how the upstream is cut just when "OK" is followed by CR or LF
  (`VncHandshake.CutsDoNotMatterIff`, `VncHandshake.LateLineEndIsPassedOn`); a cut agrees with the whole stream just
  when its first buffer of two bytes holds all that is dropped (`VncHandshake.SameAsWholeIff`).
- The update flag of a template package is wrong just when something is installed, the newest row is newer than the
  newest installed one, and the newest row has no name or the name of that one (`TemplateGroups.UpdateFlagIsRightIff`,
  `TemplateGroups.UpdateFlagMissesUnnamed`). Rows that come from `mergeTemplateCatalog` with a catalog of named
  templates are never of that kind (`TemplateCatalog.MergedFlagIsRight`).
- All storage volumes with a file name are listed just when no two of them have file names that agree up to case;
  of several with one name the last is listed (`TemplateCatalog.AllListedIff`, `TemplateCatalog.ListedIff`,
  `TemplateCatalog.SharedFileIsLost`).
- The number that the upload reports at its end is covered by bytes that have left the socket's buffer just when the
  total leaves room for what still waits or was discarded; for the default total that is an empty buffer
  (`UploadSafety.LastReportEarnedIff`, `UploadSafety.LastReportNotEarned`). The reports after each chunk are always
  covered (`UploadSafety.ProgressIsEarned`).
- The hysteresis flag means what it says just for limits in the right order (`AlertHysteresis.FlagIsHotIff`); the
  settings are always read that way (`AlertHysteresis.DiskLimits`, `AlertHysteresis.CpuLimits`).
- What is granted without naming a host is granted for some host or guest, except by an override of a guest for
  something that is no action on guests, or by one under the empty host id (`Permissions.CoarseIsWitnessed`,
  `Permissions.CoarseWithoutWitness`). With the program's own tables "hosts.view" is such a permission
  (`PermissionTables.HostsViewWithoutWitness`). The server stores overrides of guests normalized
  (server/services/user-service.ts:68-79), and then the exception for guests is void
  (`Permissions.StoredGrantsAreWitnessed`).

The third splice of `rewriteRoots`, for escaped quotes, never finds anything: the first one has already moved
these roots (`SuiteRewrite.NoEscapedRoot`).

## Model

| member | source | states |
|---|---|---|
| MarkupFormat.FormatMarkup | lib/guest-file-format.ts:38-68 | the tokenising loop with its `indent` and `lines` computes `Format`, which `MarkupNesting.EveryTextIsNested` describes without it |
| MarkupFormat.PushToken | lib/guest-file-format.ts:44-65 | one turn of the loop adds what `Layout` says; `MarkupNesting.KindsOfTags` and `FormatIsPretty` say what that is for each kind of tag |
| MarkupFormat.PushLines | lib/guest-file-format.ts:62-65 | a text token adds its non-blank lines, trimmed and indented |
| MarkupNesting.FormatIsPretty | lib/guest-file-format.ts:38-68 | markup is printed by its nesting: the two tags of an element in one column, its content two columns deeper, a tag without content where it stands |
| MarkupNesting.EveryTextIsNested | lib/guest-file-format.ts:38-68 | every text whose tags end in ">" is such markup, with stray closing tags outside all elements and unclosed elements lasting to the end |
| MarkupNesting.KindsOfTags | lib/guest-file-format.ts:46-58 | which tags close, which stand alone (comment, declaration, instruction, "/>", the fourteen void names in any case), which open |
| MarkupConservation.FormatKeepsContent | lib/guest-file-format.ts:38-68 | for every text the sequence of characters that are not white space is unchanged |
| MarkupConservation.FormatReflows | lib/guest-file-format.ts:38-68 | in addition no carriage return is added |
| MarkupIdempotence.FormatKeepsItems | lib/guest-file-format.ts:38-68 | unless a copied token holds CR LF, tokenising the output again finds the same tags and lines of text |
| MarkupIdempotence.FormatIdempotentIff | lib/guest-file-format.ts:38-68 | formatting twice is formatting once exactly where no token copied as it stands holds CR LF |
| MarkupIdempotence.FormatIdempotentWithoutCr | lib/guest-file-format.ts:38-68 | in particular for every text without carriage returns |
| MarkupIdempotence.FormatNotIdempotent | lib/guest-file-format.ts:39-39 | the exception is real: a text on which the second formatting differs |
| TidyText.TidyGuestFileText | lib/guest-file-format.ts:70-90 | the loops with their `blank` counter compute the specified text |
| TidyText.TidyLinesAreTidied | lib/guest-file-format.ts:70-90 | no tabs, CRs or trailing blanks, at most two blank lines in a row, none at the end |
| TidyText.TidyKeepsInk | lib/guest-file-format.ts:70-90 | apart from a byte-order mark only spaces, tabs and line ends change |
| TidyText.CleanLineIs | lib/guest-file-format.ts:76-76 | in a line every tab becomes two spaces, then the spaces at its end go, and nothing else |
| TidyText.TidyIdempotentIff | lib/guest-file-format.ts:70-90 | tidying twice is tidying once exactly where the text does not start with two byte-order marks |
| TidyText.TidyNotIdempotent | lib/guest-file-format.ts:72-72 | two marks in front of a letter: a text that loses one mark each time |
| TidyText.TidyFixedPoints | lib/guest-file-format.ts:70-90 | the texts left alone are the empty one and lists of tidy lines, each ended by LF |
| Base32.EncodeBase32 | lib/totp.ts:71-85 | with a 32-bit buffer that wraps, the output is the five-bit grouping of the bits, padded with zeros |
| Base32.DecodeBase32 | lib/totp.ts:87-103 | the letters read give the whole bytes of their bits; any other character is the error |
| Base32.LettersSpellAlphabet | lib/totp.ts:5-5 | the letters of the 32 values are the alphabet in its order |
| Base32.LowShiftIn | lib/totp.ts:76-76 | the wrapping shift keeps the bits that are still to be written |
| Base32.EncodedLength | lib/totp.ts:71-85 | n bytes take ceil(8n/5) characters |
| Base32Values.EncodedValue | lib/totp.ts:71-85 | the letters are the base-32 digits of the bytes read as a base-256 number, shifted up to whole letters |
| Base32Values.DecodedValue | lib/totp.ts:87-103 | the bytes are the number that the letters say, without the bits that fill no byte |
| Base32.RoundTrip | lib/totp.ts:71-103 | decoding gives back every byte string, however its encoding is spelled: in lower case or with the dotless or long letters that upper-case to ASCII, cut by spaces or hyphens, padded |
| Base32.RoundTripExact | lib/totp.ts:71-103 | decoding the encoding itself gives back every byte string |
| Base32.ReencodeIff | lib/totp.ts:71-103 | encoding what was decoded gives the same letters exactly for canonical spellings |
| Totp.Hotp | lib/totp.ts:58-69 | the masked and shifted bytes are the 31 bits that the last nibble points at, reduced and padded |
| Totp.TruncatedIs | lib/totp.ts:62-67 | the last nibble points at four bytes, read as one number without the sign bit |
| Totp.ExampleCode | lib/totp.ts:58-69 | the hash of the example in section 5.4 of RFC 4226 gives the value and the code stated there |
| Totp.CodeSpells | lib/totp.ts:58-69 | a code has exactly the wanted digits, and they spell the truncated hash modulo the power of ten |
| Totp.CodesAgree | lib/totp.ts:58-69 | two hashes give one code exactly when they agree modulo that power |
| Totp.VerifyTotp | lib/totp.ts:26-39 | accepted exactly when the code is that of a step within the window; every other outcome is named |
| Totp.InWindowIff | lib/totp.ts:26-39 | a code is accepted just when it is that of a moment at most `window` times thirty seconds away, and then has six digits |
| Totp.CounterIs | lib/totp.ts:27-27 | the counter is the number of whole thirty-second steps since the epoch |
| UploadProtocol.RunKeepsInv | lib/guest-file-transfer.ts:135-260 | the invariant of the upload holds after every run of events |
| UploadSafety.SettlesOnce | lib/guest-file-transfer.ts:169-179 | at most one outcome; after it neither the outcome nor the wire changes |
| UploadSafety.StepIsSafe | lib/guest-file-transfer.ts:142-260 | every event keeps the invariant and, once settled, the outcome and the wire |
| UploadOutcome.OutcomeOfRun | lib/guest-file-transfer.ts:165-258 | the outcome of every run: none while no event says anything, else what the first one says, told from the events ("done", error or garbled frame, abort, error, close and timeout before and after "go", a stuck pump) |
| UploadOutcome.ResolvedIff | lib/guest-file-transfer.ts:221-227 | success is reported exactly for a "done" frame that arrives before anything else has settled the call |
| UploadOutcome.HandshakeFailedIff | lib/guest-file-transfer.ts:165-195 | a handshake failure is reported exactly for an error, a close or the timeout that comes first and before any "go" |
| UploadOutcome.OutcomeIsTold | lib/guest-file-transfer.ts:142-258 | as long as the pump is not stuck the outcome is a function of the list of events alone |
| UploadOutcome.ReadyIsAnswered | lib/guest-file-transfer.ts:209-213 | every "ready" that finds the call undecided and the connection open is answered by one start frame, and no other |
| UploadOutcome.PumpStartsIff | lib/guest-file-transfer.ts:214-220 | the pump has been started exactly when a "go" has come |
| UploadOutcome.PumpWaitsIff | lib/guest-file-transfer.ts:135-140 | a waiting pump stays where it is exactly while more than 8 MiB wait in an open socket |
| UploadOutcome.SettlingCloses | lib/guest-file-transfer.ts:169-179 | the event that settles the call has the socket closed |
| UploadSafety.PumpStartsOnce | lib/guest-file-transfer.ts:214-220 | over every run the pump starts at most once |
| UploadSafety.BodyGoesOutInOrder | lib/guest-file-transfer.ts:235-258 | body bytes on the wire are a prefix of the body; the end frame goes out once, behind the whole body; what waits is at most the high-water mark and one chunk |
| UploadSafety.HandshakeFailureSentNothing | lib/guest-file-transfer.ts:165-167 | after a handshake failure no byte of the body has gone or will go out |
| UploadSafety.ProgressStaysInRange | lib/guest-file-transfer.ts:225-252 | every reported number lies between offset and total |
| UploadSafety.ProgressIsEarned | lib/guest-file-transfer.ts:221-252 | over every run each reported number is the offset as the pump starts, the total as it ends or as the server is done, or exactly what has left the socket |
| UploadSafety.LastReportEarnedIff | lib/guest-file-transfer.ts:251-254 | the total reported at the end is covered exactly when it leaves room for what waits in the buffer and what was discarded |
| UploadSafety.LastReportNotEarned | lib/guest-file-transfer.ts:251-254 | a run of one byte that reports the total while the byte still waits |
| UploadSafety.CanFinish | lib/guest-file-transfer.ts:235-258 | from every state of a running upload some events lead to the end with the whole body sent |
| UploadClient.Upload.constructor | lib/guest-file-transfer.ts:160-188 | the object starts valid in the initial state, or rejected when already aborted |
| UploadClient.Upload.OnAbort | lib/guest-file-transfer.ts:181-188 | the abort handler is the abort step; the object stays valid, and once settled neither the outcome nor the wire changes |
| UploadClient.Upload.OnTimeout | lib/guest-file-transfer.ts:165-167 | the timer is the timeout step; the object stays valid, and once settled neither the outcome nor the wire changes |
| UploadClient.Upload.OnError | lib/guest-file-transfer.ts:190-192 | the error handler is the error step; the object stays valid, and once settled neither the outcome nor the wire changes |
| UploadClient.Upload.OnClose | lib/guest-file-transfer.ts:193-195 | the close handler is the close step; the object stays valid, and once settled neither the outcome nor the wire changes |
| UploadClient.Upload.HandleFrame | lib/guest-file-transfer.ts:196-233 | the message handler is the message step for every frame; the object stays valid, and once settled neither the outcome nor the wire changes |
| UploadClient.Upload.PumpOn | lib/guest-file-transfer.ts:241-254 | each stretch of the pump between two waits is the pump step; the object stays valid, and once settled neither the outcome nor the wire changes |
| UploadClient.Upload.PumpRead | lib/guest-file-transfer.ts:244-249 | the stretch after a read is the read step; the object stays valid, and once settled neither the outcome nor the wire changes |
| UploadClient.Upload.Handle | lib/guest-file-transfer.ts:160-258 | every event of the browser is its step; the object stays valid, and once settled neither the outcome nor the wire changes |
| UploadClient.Drive | lib/guest-file-transfer.ts:142-260 | any run of callbacks on a valid object is the run of the protocol; the object stays valid, and once settled neither the outcome nor the wire changes |
| UploadClient.RunUpload | lib/guest-file-transfer.ts:142-260 | a fresh object ends in the protocol state of the events, with the outcome that the first deciding event gives |
| RateTracker.Tracker.Prune | lib/guest-file-transfer.ts:13-13 | what is left is the end of the deque, and its second sample lies in the window |
| RateTracker.Tracker.Slide | lib/guest-file-transfer.ts:11-15 | after a push and the pruning the deque starts at the anchor of the whole history, ends with the new sample and otherwise lies in the window |
| RateTracker.Tracker.Update | lib/guest-file-transfer.ts:10-23 | the pruned deque answers what the whole history would |
| RateTracker.OldSamplesDoNotMatter | lib/guest-file-transfer.ts:12-13 | what lies before the window changes no answer |
| RateTracker.SteadySpeedIsExact | lib/guest-file-transfer.ts:16-19 | a steady speed is estimated exactly |
| RateTracker.EtaShape | lib/guest-file-transfer.ts:16-22 | no estimate within 250 ms; else the speed is bytes over time and never negative, and the time to go is the rest over the speed, zero, or unknown |
| WorkerPool.EverySchedule | lib/async-pool.ts:1-20 | every interleaving: indices claimed once and in order, bounded counter and flight, bounded length, all results in place |
| WorkerPool.RunFacts | lib/async-pool.ts:11-16 | every run keeps the invariant and hands out the indices one by one |
| WorkerPool.MeasureFalls | lib/async-pool.ts:12-16 | a measure falls at each step |
| WorkerPool.Bounds | lib/async-pool.ts:7-13 | `next` never passes the items plus the loops |
| WorkerPool.ReturnedIsComplete | lib/async-pool.ts:10-19 | when all loops have returned every result is in its place |
| WorkerPool.QuietIff | lib/async-pool.ts:10-18 | a run at rest has all loops returned exactly when no worker fails |
| WorkerPool.Pool.TakeIndex | lib/async-pool.ts:13-15 | a loop claims the next index of the shared counter |
| WorkerPool.Pool.StoreResult | lib/async-pool.ts:15-15 | a loop writes its result into the shared array |
| WorkerPool.MapPool | lib/async-pool.ts:1-20 | under any schedule the call succeeds exactly when every worker does, with their results in order, and is otherwise rejected at the very turn at which the first worker fails, with its index |
| WorkerPool.LimitIs | lib/async-pool.ts:7-7 | as many loops as wanted, one at least and no more than items |
| WorkerPool.NoMoreThanWanted | lib/async-pool.ts:7-18 | at no moment of any run are more items worked on than wanted |
| WorkerPool.RejectsAtFirst | lib/async-pool.ts:9-18 | of every run with a failure: the turn at which it is rejected, with no failure before and the failing item in that loop's hands |
| WorkerPool.RejectionIsFinal | lib/async-pool.ts:9-18 | whatever the loops still do leaves the rejection as it was, and they can run on until all are over |
| WorkerPool.RunGoesOn | lib/async-pool.ts:9-18 | runs compose, and the first failure is that of the first part that has one |
| WorkerPool.OthersStillRun | lib/async-pool.ts:9-18 | two items, of which the first fails: rejected while the other loop has still to take its item |
| WireguardConf.BuildWg0Conf | lib/wireguard-conf.ts:21-54 | the printing loop writes the header and the kept peers, which `WireguardPeers.KeptAreWritten` describes without it |
| WireguardConf.ParseIniSections | lib/wireguard-conf.ts:111-132 | the reading loop folds the lines into sections, for every text |
| WireguardConf.ParseWgQuickConf | lib/wireguard-conf.ts:149-177 | the parser's result or its first error, for every text |
| WireguardRoundTrip.RoundTrip | lib/wireguard-conf.ts:21-54 | for all single-line configurations, parsing the printed text gives the normal form or names the first thing missing; `WireguardPeers.ReadsWhatIsWritten` says it peer by peer |
| WireguardPeers.KeptAreWritten | lib/wireguard-conf.ts:36-43 | a peer is written just when its trimmed key is valid, its trimmed addresses are not blank, and no earlier such peer has the same key; in order, no key twice |
| WireguardPeers.ReadsWhatIsWritten | lib/wireguard-conf.ts:21-177 | for all single-line configurations one peer is read for each that is written, field by field, and there is an error just when the key is none, no part of the address is a dotted quad, or no peer is written |
| WireguardPeers.MtuIsRead | lib/wireguard-conf.ts:27-32 | the MTU printed is the one given between 1280 and 1420, else 1280 |
| WireguardReading.LinesDecide | lib/wireguard-conf.ts:114-116 | line ends of either kind, a byte-order mark, blank lines and space around lines do not matter |
| WireguardReading.NoiseIsIgnored | lib/wireguard-conf.ts:115-127 | comments and lines without a name or a value are ignored |
| WireguardReading.PreambleIsIgnored | lib/wireguard-conf.ts:118-124 | so is everything before the first heading |
| WireguardReading.SpellingDoesNotMatter | lib/wireguard-conf.ts:125-129 | nor do upper and lower case in names and space around names and values |
| WireguardReading.HeadingSpellingDoesNotMatter | lib/wireguard-conf.ts:118-122 | the same of the names in headings |
| WireguardReading.HeadingIff | lib/wireguard-conf.ts:118-118 | a heading is a name without "]" in brackets |
| WireguardReading.ValuesAreJoined | lib/wireguard-conf.ts:145-147 | the values of a name that stands in two lines are joined by a comma and a space |
| WireguardReading.KeepaliveIs | lib/wireguard-conf.ts:163-171 | a keepalive is a number from zero on; a negative one or none is read as missing |
| WireguardReading.PeersAre | lib/wireguard-conf.ts:158-174 | one peer is read for every section that gives one, in order, and the others are passed over |
| WireguardReading.InterfaceIs | lib/wireguard-conf.ts:150-152 | the first section named "interface" is the interface |
| WireguardReading.NoInterface | lib/wireguard-conf.ts:150-152 | without such a section there is none |
| WireguardAgain.SecondRoundTripIff | lib/wireguard-conf.ts:21-177 | printing and reading what was read gives the same exactly when every kept peer had a keepalive above zero |
| WireguardAgain.NormalAgainIff | lib/wireguard-conf.ts:21-177 | the form that is read is left alone by another round exactly under that condition |
| WireguardAgain.KeepaliveComesBack | lib/wireguard-conf.ts:49-50 | for any key: a keepalive of 0 is read as none and comes back as 25 the second time |
| WireguardRoundTrip.ReadsJoinedLines | lib/wireguard-conf.ts:114-117 | joined lines are read back as the non-blank trimmed ones |
| WireguardRoundTrip.AddBlock | lib/wireguard-conf.ts:115-130 | a printed block is read as one section with its fields |
| Cidr.SameNetworkIff | lib/wireguard-conf.ts:71-73 | the mask comparison in signed 32-bit arithmetic is agreement after division by 2^(32-p) |
| Cidr.FourOctetsValue | lib/wireguard-conf.ts:59-59 | the signed shifts of four octets give their big-endian value |
| Cidr.SameAddressIff | lib/wireguard-conf.ts:56-60 | two texts give one number exactly when they name the same four octets |
| Cidr.CidrContainsIpv4 | lib/wireguard-conf.ts:62-74 | containment for every pair of texts, malformed ones included |
| CidrSpelled.SpelledIsRead | lib/wireguard-conf.ts:56-60 | four numbers in dotted notation are read as an address exactly when none is above 255 |
| CidrSpelled.QuadIff | lib/wireguard-conf.ts:80-80 | four numbers pass for a dotted quad exactly when none has more than three digits |
| CidrSpelled.NetworkContainsIff | lib/wireguard-conf.ts:62-74 | a network in dotted notation with n bits contains an address exactly when both agree above the last 32 - n bits; with n above 32, nothing |
| CidrSpelled.AddressContainsIff | lib/wireguard-conf.ts:66-66 | without a prefix it contains just itself |
| Cidr.EnsureIpInAllowedIps | lib/wireguard-conf.ts:77-86 | the list it returns, for every list and address |
| Cidr.EnsuredCovers | lib/wireguard-conf.ts:77-86 | every address stays covered, and where the host was not, exactly the texts with its four octets are added |
| Cidr.EnsuredCoversHost | lib/wireguard-conf.ts:77-86 | a host with octets of at most 255 is covered afterwards |
| Cidr.EnsuredIdempotentIff | lib/wireguard-conf.ts:77-86 | idempotent exactly for inputs without an octet above 255 |
| Cidr.EnsuredNotIdempotent | lib/wireguard-conf.ts:77-86 | 256.0.0.1 is added to every list again and again |
| SuiteIds.SuiteAppId | lib/suite-embeds.ts:76-95 | the loop ends with the first free candidate, well formed and fresh |
| SuiteSlugs.RootIsSlug | lib/suite-embeds.ts:77-85 | the root of an id is the words of the name with hyphens between them, cut after 40 characters without a hyphen at the end, or "app" |
| SuiteIds.Pigeonhole | lib/suite-embeds.ts:86-92 | k - 1 numbered candidates that are all taken are k - 1 different ids |
| SuiteIds.NextCandidate | lib/suite-embeds.ts:88-92 | the candidates tried outnumber the ids taken by at most two, and each numbered one is well formed |
| SuiteIds.RootIsCandidateIff | lib/suite-embeds.ts:85-92 | the bare root is the candidate numbered n exactly when it has 40 characters and ends in that number |
| SuiteIds.OneMoreIff | lib/suite-embeds.ts:86-92 | the second extra candidate is tried exactly when the ids taken are the numbered candidates and hold the root |
| SuiteIds.OneMoreSufficesIff | lib/suite-embeds.ts:86-92 | one extra candidate suffices for all sets of ids exactly for roots that are not 40 characters long with a number at the end |
| SuiteIds.BoundIsReached | lib/suite-embeds.ts:86-92 | a root of that kind, taken alone, needs the third candidate |
| SuiteApps.ParseSuiteApps | lib/suite-embeds.ts:116-137 | the loop's list or its first complaint |
| SuiteApps.ReadSuiteEmbeds | lib/suite-embeds.ts:57-67 | the reader keeps the well-formed apps, the first of every id |
| SuiteApps.AcceptedListsReadBack | lib/suite-embeds.ts:54-137 | accepted lists have at most 24 proper apps with distinct ids and are a fixed point of storing and reading |
| SuiteLists.AcceptedListIs | lib/suite-embeds.ts:116-137 | an accepted list holds one app for every element that is not blank, in order, with its trimmed name, its address, its own id or the first free candidate |
| SuiteLists.RefusedIff | lib/suite-embeds.ts:116-137 | a list is refused with a complaint exactly for being none, for its length, or for the first element that is wrong in that way |
| SuiteLists.ReadListHolds | lib/suite-embeds.ts:57-67 | what is read of a stored list: of every id the first element that holds an app with it |
| SuiteRewrite.SpliceOnce | lib/suite-proxy.ts:417-420 | split and join is replacing every occurrence |
| SuiteRewrite.RewriteRoots | lib/suite-proxy.ts:406-415 | the eighteen splices are one scan with all rules at once |
| SuiteRewrite.ReplaceExtendsPass | lib/suite-proxy.ts:408-413 | one more splice adds one more rule to the scan |
| SuiteRewrite.NoEscapedRoot | lib/suite-proxy.ts:412-412 | the third splice has nothing left to find |
| SuiteRewrite.RewriteRootsIsComplete | lib/suite-proxy.ts:406-415 | no quoted root is left, a second rewriting changes nothing, only mounts are put in |
| SuiteMoves.QuotedRootIsMoved | lib/suite-proxy.ts:406-415 | a static root behind a quote goes below the mount and "/r", the root of the interface right below the mount |
| SuiteMoves.OthersAreCopied | lib/suite-proxy.ts:406-415 | everything else is copied |
| SuiteRewrite.NeedsRootRewriteIff | lib/suite-proxy.ts:89-94 | the guard holds exactly where rewriting changes the page |
| SuiteHrefs.RewriteJsHrefs | lib/suite-proxy.ts:383-404 | the cursor loop is one scan |
| SuiteHrefs.RewriteJsHrefsIsComplete | lib/suite-proxy.ts:383-404 | every link is followed by a slash or the mount, a second rewriting changes nothing, only mounts are put in |
| SuiteMoves.LinkGetsMount | lib/suite-proxy.ts:383-404 | a link gets the mount unless it has it or leads to another host |
| SuiteScripts.RewriteScript | lib/suite-proxy.ts:75-80 | the script branch with its guards is one rewriting after the other, up to style addresses |
| SuiteScripts.PassLinks | lib/suite-proxy.ts:76-77 | rewriting roots keeps every link linked and makes none that is not |
| SuiteScripts.ScriptIsComplete | lib/suite-proxy.ts:75-80 | after both, every link is followed by a slash or the mount, no quoted root is left, and neither rewriting changes anything again |
| SuiteRouting.ParseOfMounted | lib/suite-proxy.ts:33-47 | the proxy takes a mounted path apart into its id and path |
| SuiteMoves.AddressIsRead | lib/suite-proxy.ts:33-47 | the query is kept, a fragment is not, the bare mount leads to the root of the app |
| SuiteMoves.OnlyMountsAreRead | lib/suite-proxy.ts:33-47 | what is taken for an address of an app begins with the mount of a well-formed id |
| SuiteMoves.BumpIsTakenOff | lib/suite-proxy.ts:26-31 | the "/r" of static files is taken off again, and nothing else is |
| SuiteRouting.RoutedBackIff | lib/suite-proxy.ts:22-47 | a rewritten path comes back as it was exactly when it is static or is neither "/r" nor below "/r/" |
| SuiteRouting.BumpedPathIsLost | lib/suite-proxy.ts:22-47 | "/r/x" comes back as "/x" |
| GuestPaths.ResolveGuestPath | lib/guest-files.ts:60-82 | the loop with its stack is the walk over the segments |
| GuestPaths.ResolvedIsCanonical | lib/guest-files.ts:60-82 | results are absolute, of bounded length, without empty, "." or ".." segments |
| GuestPaths.ResolveIdempotent | lib/guest-files.ts:60-82 | a result resolves to itself |
| GuestPaths.ResolveFailsIff | lib/guest-files.ts:66-80 | it throws exactly on NUL, on ".." at the root and on too long a result |
| GuestPaths.ResolveInSteps | lib/guest-files.ts:60-82 | resolving against a directory and against its resolved form agree |
| GuestPathLaws.StepBack | lib/guest-files.ts:70-77 | a name and ".." cancel |
| GuestPathLaws.DotDotIsParent | lib/guest-files.ts:60-89 | ".." leads to the parent |
| GuestPathLaws.NoDotDotAtRoot | lib/guest-files.ts:73-73 | the root has none |
| GuestPathLaws.BackslashIsSlash | lib/guest-files.ts:70-70 | a backslash separates like a slash |
| GuestPathLaws.AbsoluteIgnoresDirectory | lib/guest-files.ts:61-65 | an absolute name stands for itself |
| GuestPathParts.ParentAndNameRebuild | lib/guest-files.ts:84-95 | parent and file name of a path that is not the root resolve to that path |
| GuestPathParts.RenameKeepsParent | lib/guest-files.ts:233-241 | a rename stays in the directory and gives the trimmed name |
| GuestPathParts.RenameFailsIff | lib/guest-files.ts:233-241 | a rename is refused exactly for bad names, the root, NUL and too long a result |
| GuestPathParts.GuestPathCrumbs | lib/guest-files.ts:273-284 | the loop gives the accumulated paths |
| GuestPathParts.CrumbsLeadToPath | lib/guest-files.ts:273-284 | the breadcrumbs lead from the root to the path, each the parent of the next |
| VncHandshake.VerdictIsOfTheStream | lib/vnc-handshake.ts:2-21 | for every cut the verdict is that of the bytes, and fewer than 16 bytes wait |
| VncHandshake.LongStreamsAreDecided | lib/vnc-handshake.ts:17-19 | 16 bytes are always decided, the same way for every cut |
| VncHandshake.PassedOnIsTheRest | lib/vnc-handshake.ts:7-21 | what is passed on is the stream without the dropped bytes |
| VncHandshake.OnlyAcknowledgementIsDropped | lib/vnc-handshake.ts:12-16 | dropped is "OK" with at most one CR and one LF, or nothing |
| VncHandshake.AcknowledgementIsDropped | lib/vnc-handshake.ts:12-16 | of a whole stream "OK" and one line end are dropped, be it CR, LF, or CR and LF |
| VncHandshake.RfbIsPassedOn | lib/vnc-handshake.ts:10-11 | a stream that starts with "RFB " is passed on as it is, however it is cut |
| VncHandshake.OthersFailAtSixteen | lib/vnc-handshake.ts:17-20 | anything else waits for sixteen bytes and then fails |
| VncHandshake.SameAsWholeIff | lib/vnc-handshake.ts:12-16 | a cut agrees with the whole stream exactly when the first buffer of two bytes holds the line end |
| VncHandshake.CutsDoNotMatterIff | lib/vnc-handshake.ts:2-21 | all cuts agree exactly where no CR or LF follows "OK" |
| VncHandshake.LateLineEndIsPassedOn | lib/vnc-handshake.ts:12-16 | "OK" and LF in two chunks: the LF is passed on, which it is not in one chunk |
| TemplateVersions.CompareTemplateVersion | lib/lxc-templates.ts:137-153 | the loop computes the comparison of the padded fields |
| TemplateVersions.CompareZeroIff | lib/lxc-templates.ts:146-152 | zero exactly for versions that agree after padding with zeros |
| TemplateVersions.CompareDecides | lib/lxc-templates.ts:147-151 | otherwise the first field that differs decides |
| TemplateVersions.CompareAntisymmetric | lib/lxc-templates.ts:137-153 | swapping the versions negates the answer |
| TemplateVersions.CompareTransitive | lib/lxc-templates.ts:137-153 | transitive whatever the numbers of fields, strictly if one comparison is strict |
| TemplateSpelling.SpelledAreCompared | lib/lxc-templates.ts:137-153 | versions as they are written compare number by number, dot and hyphen alike, words as zero, the shorter filled up with zeros |
| TemplateGroups.GroupTemplatePackages | lib/lxc-templates.ts:162-204 | the loops fill the groups, make a line of each and sort them; `TemplateLines.LinesTell` says what the lines tell |
| TemplateGroups.GroupsPartition | lib/lxc-templates.ts:163-169 | one group per key in order of first appearance, holding the rows with that key in order |
| TemplateGroups.OneLinePerKey | lib/lxc-templates.ts:170-198 | one line for every key, made from all rows with it |
| TemplateLines.LinesTell | lib/lxc-templates.ts:170-198 | every line tells of its rows: as latest one that no row is newer than, as installed one that no installed row is newer than or nothing, the texts of the first and else of the second, the volumes, and the update flag |
| TemplateLines.UpdateIsNewer | lib/lxc-templates.ts:179-184 | an update is only offered to a version newer than the one installed |
| TemplateGroups.NewestIsNewest | lib/lxc-templates.ts:172-178 | no row is newer than the one reported as latest, nor than the one reported as installed |
| TemplateGroups.OutdatedIff | lib/lxc-templates.ts:174-184 | some row is newer than all installed ones exactly when the two reported rows say so |
| TemplateGroups.UpdateFlagIsRightIff | lib/lxc-templates.ts:179-184 | the flag is right except where something is installed, the newest row is newer than the newest installed one, and has no name or the name of that one |
| TemplateGroups.UpdateFlagIsRight | lib/lxc-templates.ts:179-184 | it is right for names that are not empty and stand for one version each |
| TemplateGroups.UpdateFlagMissesUnnamed | lib/lxc-templates.ts:179-184 | a newer row without a name beside an installed one: the flag is wrong |
| TemplateGroups.VolidsAreConserved | lib/lxc-templates.ts:162-204 | the multiset of installed volumes is conserved |
| TemplateGroups.LinesAreInOrder | lib/lxc-templates.ts:199-203 | of two lines the first has the update, else is the installed one, else has the lesser headline |
| TemplateCatalog.MergeTemplateCatalog | lib/lxc-templates.ts:212-233 | the two loops over the map and the sort |
| TemplateCatalog.MergedRows | lib/lxc-templates.ts:213-228 | every file name has one row: the last of the catalog or what its first volume tells, naming its last volume |
| TemplateCatalog.MergedHolds | lib/lxc-templates.ts:212-233 | the list holds these rows and nothing else |
| TemplateRows.MergedRowsTell | lib/lxc-templates.ts:206-233 | every row belongs to a file name: texts of the last row of the catalog or of the first volume, installed exactly when a volume has the name, naming the last; and every file name has its row |
| TemplateCatalog.RowsAreInOrder | lib/lxc-templates.ts:206-232 | of two rows the first is the installed one, else the system one, else the lesser by headline and name |
| TemplateCatalog.ListedIff | lib/lxc-templates.ts:217-227 | a volume is listed exactly when it has a file name and is the last one with it |
| TemplateCatalog.AllListedIff | lib/lxc-templates.ts:217-227 | all volumes with file names are listed exactly when no two of them share one up to case |
| TemplateCatalog.SharedFileIsLost | lib/lxc-templates.ts:217-227 | one file on two storages: the first volume is not listed |
| TemplateCatalog.MergedFlagIsRight | lib/lxc-templates.ts:162-233 | in every package of a merged list of named templates the update flag is right |
| StableSort.SortPermutes | lib/lxc-templates.ts:174-176 | a sort only rearranges |
| StableSort.SortSorts | lib/lxc-templates.ts:174-176 | a sort by an order sorts |
| StableSort.SortIsStable | lib/lxc-templates.ts:174-176 | elements the comparator does not tell apart keep their order |
| StableSort.StableSortIsUnique | lib/lxc-templates.ts:174-176 | there is one stable sorted arrangement, so every stable sort gives it |
| NextVmid.NextSmallerVmid | lib/next-vmid.ts:20-39 | the greatest free id below the largest used one, else the least free above, else the least from the minimum |
| NextVmid.FreeFrom | lib/next-vmid.ts:29-37 | the upward search ends with the first free id when the skipped ids end |
| NextVmid.NextIsFree | lib/next-vmid.ts:20-39 | the id is at least the minimum, unused and not skipped |
| NextVmid.NextIsUnique | lib/next-vmid.ts:20-39 | the specification leaves no choice |
| NextVmid.NextDescends | lib/next-vmid.ts:33-38 | ids handed out one after another fall until everything below the largest is taken |
| NextVmid.NextAscends | lib/next-vmid.ts:33-38 | then they grow |
| NextVmid.MergeUsedGuestSets | lib/next-vmid.ts:3-17 | the usable ids and addresses of all parts, each once, in the order of first appearance |
| NextVmid.MergedIsUnion | lib/next-vmid.ts:3-17 | these are exactly the ids above zero and the addresses that some part reports |
| AlertHysteresis.DiskLimits | lib/disk-alerts.ts:37-67 | for every raw setting the clear limit is below the alert limit, both in range |
| AlertHysteresis.CpuLimits | lib/cpu-temp.ts:29-41 | the clear limit is at most the alert limit, equal only at the lowest one |
| AlertHysteresis.DiskLimitsAre | lib/disk-alerts.ts:37-67 | the nearest whole percentages from 1 to 99, by default 90 and 85; a clear limit that is not below the alert limit becomes five less |
| AlertHysteresis.CpuLimitsAre | lib/cpu-temp.ts:29-41 | the nearest whole degrees from 40 to 120, by default 85 and 75, likewise |
| AlertHysteresis.FlagIsHot | lib/disk-alerts.ts:152-161 | over every run of samples the flag holds exactly when some sample was at the alert limit and none below the clear limit since |
| AlertHysteresis.FlagIsHotIff | lib/disk-alerts.ts:152-161 | this is so exactly for limits in the right order |
| AlertHysteresis.NotifiesIff | lib/disk-alerts.ts:158-158 | an alert is raised exactly by a sample at the limit that finds none pending |
| AlertHysteresis.AlertsAreSeparated | lib/disk-alerts.ts:151-161 | between two alerts some sample was below the clear limit |
| AlertHysteresis.Remember | server/services/disk-watch.ts:42-73 | one cycle over all devices, with the flags of missing ones forgotten |
| AlertHysteresis.RunFollowsEachDevice | server/services/disk-watch.ts:42-73 | over every run of scans a device's flag depends on its own samples since it was last missing |
| AlertHysteresis.FlaggedIff | server/services/disk-watch.ts:42-73 | and holds exactly while these are hot |
| AlertHysteresis.LastScanAlerts | server/services/disk-watch.ts:50-70 | every scan raises for a device exactly the alerts its own samples add |
| GuestScope.GuestKeyInjective | lib/guest-scope.ts:85-87 | different guests have different keys, whatever their host ids hold |
| GuestScope.FilterIsPointwise | lib/guest-scope.ts:100-112 | the filtered list is the list filtered by the single check |
| GuestScope.SessionScopeFromGrants | lib/guest-scope.ts:30-70 | the loops over the grants fill the scope and the overrides |
| GuestScope.SessionOverride | lib/guest-scope.ts:53-60 | the override under a guest's key is that of the last grant for that very guest |
| GuestScope.SessionReaches | lib/guest-scope.ts:30-98 | which guests a session reaches, in terms of its grants |
| PermissionChecks.SessionReachesHost | lib/guest-scope.ts:30-92 | which hosts a session reaches, in terms of its grants |
| PermissionChecks.SessionHostOverride | lib/guest-scope.ts:47-53 | the override for a host is that of the last grant for that very host |
| Permissions.ExpandPermissions | lib/permissions.ts:222-231 | the nested loops give the granted names and what old names stand for |
| Permissions.ExpandIs | lib/permissions.ts:222-231 | a name is granted by itself or by an old name that stands for it |
| Permissions.SanitizeKeepsAnswers | lib/permissions.ts:237-244 | sanitizing changes no answer about a permission |
| Permissions.SanitizeIdempotent | lib/permissions.ts:237-240 | sanitizing twice is sanitizing once |
| Permissions.NormalizeCloses | lib/permissions.ts:289-297 | guest permissions include seeing the guest, writing includes reading, nothing foreign stays |
| Permissions.NormalizeIdempotent | lib/permissions.ts:289-297 | normalizing twice is normalizing once |
| Permissions.SpecificImpliesCoarse | lib/permissions.ts:323-354 | what is granted for a host or guest is granted without naming it |
| PermissionChecks.GlobalAsksRole | lib/permissions.ts:336-336 | a permission that is not tied to a host is granted exactly when it stands in the role, by its own or an older name |
| PermissionChecks.GlobalGroupsAskRole | lib/permissions.ts:254-336 | that is so of users, roles, audit, settings, peers, notifications, the update of the program and the creation of hosts |
| PermissionChecks.HostOverrideDecides | lib/permissions.ts:341-345 | with an override for the host in force and none for the guest, it decides and the role does not |
| PermissionChecks.GuestOverrideDecides | lib/permissions.ts:337-340 | with an override for the guest in force it decides an action on it, and neither host nor role does |
| PermissionChecks.RoleDecides | lib/permissions.ts:341-345 | with no override in force the role decides |
| PermissionChecks.AnyListWillDo | lib/permissions.ts:346-353 | without host and guest any list that holds it will do |
| PermissionChecks.NothingFromNothing | lib/permissions.ts:323-354 | who is granted something holds it in some list |
| Permissions.CoarseIsWitnessed | lib/permissions.ts:323-354 | in a session, what is granted without naming a host is granted for some host or guest, with the exact exceptions |
| Permissions.WitnessedIff | lib/permissions.ts:336-345 | for any holder a check with a host can succeed exactly by the role, a host override, or, for actions on guests, a guest override |
| Permissions.CoarseWithoutWitness | lib/permissions.ts:336-354 | an override of a guest for something that is no action on guests: granted, but for no host and no guest |
| Permissions.StoredGrantsAreWitnessed | server/services/user-service.ts:68-79 | with grants stored as the server writes them, what is granted without naming a host is granted for some host or guest, or by an override under the empty host id |
| Permissions.GuestGrantDecides | lib/permissions.ts:336-339 | in a session the last grant for the very guest decides an action on it when it overrides |
| PermissionChecks.HostGrantDecides | lib/permissions.ts:341-345 | in a session the last grant for the very host decides when it overrides, else the role |
| PermissionTables.TablesAreWellFormed | lib/permissions.ts:1-220 | the tables of the program are well formed, so the results on well-formed tables hold of them |
| PermissionChecks.HostScopedIff | lib/permissions.ts:254-262 | which permissions of the program are tied to a host |
| PermissionTables.HostsViewWithoutWitness | lib/permissions.ts:336-354 | with the tables of the program: a guest's override that holds "hosts.view" grants it, but for no host and no guest |
| PermissionTables.OldNamesAreNoPermissions | lib/permissions.ts:190-220 | no older name is a permission |

## Left out

- Texts are sequences of characters; lengths in UTF-16 code units differ from the model's for characters outside the basic plane.
- `toLowerCase` and `toUpperCase` are modelled for characters whose result can be an ASCII letter that the code looks for; `normalize("NFKD")` and the removal of marks are a parameter.
- The pattern `/^<\/?([^\s>/]+)/` and the list of void tags are modelled; the JSON formatter and the choice by file name (lib/guest-file-format.ts:93-115) are not.
- JavaScript numbers are exact integers or reals in the model: version fields, ids and keepalives beyond 2^53, and numerals from 10^21 up, which JavaScript prints with an exponent, are not.
- The bitwise `|` of values without a common bit is modelled as their sum.
- RateTracker.Tracker.Update: for a clock that does not run backwards; for one that does, "the window" has no meaning the source states.
- The upload's XMLHttpRequest path, the resume logic, base64 chunks, an `onProgress` callback that throws, a `null` frame, and everything the server does.
- The fields of a "done" frame and the texts of errors; failures are told apart by the class of the error.
- `isWireguardKey`, `new URL`, HMAC-SHA1 and `localeCompare` are parameters with stated laws.
- `sanitizeClientAllowedIps` and `serverPeerSnippet`: single cases without a property beyond their text.
- A missing optional text (`endpoint`, `presharedKey`) is `None`; other types than the declared ones are not.
- `rewriteHtmlAttributes`, `rewriteCssUrls` and the header rewriting: they rest on regular expressions with flags; the two rewriters with loops are modelled, and for scripts one after the other.
- The entry for two old settings of suite apps (lib/suite-embeds.ts:68-73).
- `packageKey` is a function from rows to keys; the grouping is proved for any such function. The reading of template file names is a parameter as well.
- The labels and translations of the permissions; their names, order, older names and classes are modelled.
- WorkerPool.MapPool: a rejection carries the index of the failing item, not the error its worker throws; which worker fails first is up to the schedule.
- Names that every JavaScript object inherits (`constructor`, `__proto__`) as ids or permission names; for the fields of a configuration they are modelled (`WireguardConf.AddLine`).
- The sensor readers of lib/cpu-temp.ts and the file-system choice of lib/disk-alerts.ts: they rest on the shape of foreign data.
- UploadOutcome.OutcomeOfRun: where the pump is suspended when it gets stuck is the state of the run; all else is told from the events.
- Resume offsets, upload metadata, shell quoting and directory listings of lib/guest-files.ts.
