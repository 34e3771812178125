# tls-forge: a verified model

This project models the logic of tls-forge that is hardest to get right by reading it: the protocol
between the SDKs and the transport process, the ClientHello parser and recorder, the pipeline that turns
a measured HTTP/1.1 request back into the same request, the shutdown of the servers, and the canonical
forms fingerprints are compared in. Each Dafny module is named after what it models.

Where the program changes state step by step, the module holds a class or a loop with the program's own
fields and branches, proved equal to a function of its inputs or of its old state; the theorems are about
those functions. Concurrent parts are state machines over atomic steps, and their theorems quantify over
every run. What a format or an answer is made of is stated with its own bytes, numbers and words, apart from
the functions that compute it.

| modules | subject |
|---|---|
| `Daemon`, `RequestSpec`, `NodeClient`, `NodeClientClass`, `NodeOutcomes`, `NodeRuns`, `PythonClient`, `PythonRuns` | requests over pipes to processes that are killed and replaced |
| `ClientHello`, `HelloRoundTrip`, `WireFormat`, `Recorder`, `Accessors`, `WireExtensions` | parsing a TLS ClientHello, whole and in pieces, and what its bytes say |
| `Headers`, `HeaderLaws` | layering header lists |
| `Capture`, `CaptureLaws`, `Layout`, `Replay`, `Redirect`, `WarmCookies` | an HTTP/1.1 identity: measured, replayed, redirected |
| `Shutdown`, `Serving`, `Completions`, `Navigations` | the concurrent parts of the proxy and of the capture server |
| `Http2`, `Http2Laws` | the capture server's HTTP/2 loop |
| `TrustAnchors`, `JA4`, `JA4Text`, `Redraw`, `Compare`, `Verdict` | canonical forms and comparison |
| `Netscape`, `NetscapeText`, `NetscapeRoundTrip` | cookies.txt |
| `Batch`, `Registry` | the batch pool, profile names |
| `Common`, `Bytes`, `Text`, `Sorting` | shared vocabulary |

`dafny verify dfyconfig.toml` checks everything.

## What the proofs found

- The recorder loses a ClientHello that ends more than one byte past its limit of 65536 bytes, or not,
  depending on how reads cut the stream: `Recorder.ChunkingMattersOnlyPastTheLimit` gives the exact
  boundary, for all streams and all chunkings, and `Recorder.ALongHelloIsLost` such a stream.
- `Header.Merge` is associative and idempotent on the right, but a header merged with itself, or into the
  empty header, is itself exactly when it is in lower case with repeats adjacent
  (`HeaderLaws.SelfIsIdentityIffNormal`, with two headers for which it is not in
  `HeaderLaws.NotEveryHeaderIsNormal`).
- A cookies.txt written by `EncodeNetscape` does not always load again: `Load` trims the whole file, so a
  set whose last value is empty or ends in white space is refused or changed, even where the same value
  earlier in the set is harmless. `NetscapeRoundTrip.LoadsWhatWasWritten` states exactly when a set
  survives, and `NetscapeRoundTrip.AnEmptyLastValueIsLost` gives one that does not.
- The comment on `track` in `echo/server.go` says the closing of the channel and the snapshot both happen
  under the mutex. The code closes the channel before it takes the mutex. The model follows the code, and
  the shutdown theorems hold of it as of the proxy, which does raise its flag under the mutex.
- A resolved family name is the best member for all version numbers, negative ones included; an unmeasured
  member below zero is never chosen (`Registry.FamilyMeansItsBest`).

## Model

| member | source | states |
|---|---|---|
| Daemon.Serve | daemon/daemon.go:172-256 | every non-blank line is answered once, in order, under its own id, until the input ends or cannot be read on, or the output breaks |
| Daemon.AnswerableConcat | daemon/daemon.go:172-197 | the lines that get an answer do not depend on how the input is split |
| Daemon.AnswersSay | daemon/daemon.go:199-256 | what was fetched is delivered under the id of its call; what was refused, unreachable or undeliverable, a call without a URL and a line that is no call get an error |
| Daemon.AnswerableKeeps | daemon/daemon.go:189-197 | every line that is not blank is asked as often as it comes, and no other |
| RequestSpec.NoAnswerCrosses | node/index.js:332-383 | in every run of a client, its processes and pipes that delay, repeat and mix lines, a call that was answered was answered with what a process made of exactly that call; both clients are instances |
| RequestSpec.StepKeepsNoCrossing | daemon/daemon.go:199-256 | one step, of the client or of a process, keeps answers and calls together |
| RequestSpec.HeardFor | daemon/daemon.go:199-256 | an answer under a call's id was made for that call, since ids are unique and echoed |
| RequestSpec.NextCompose | node/index.js:171-217 | steps of the client-side contract compose, so a handler may be several of them |
| NodeClient.StepKeeps | node/index.js:219-435 | every event handler keeps: accepted = settled ++ in flight ++ queue, a timer exactly for the job in flight, work only with a live process, listeners only of the newest process; and each is a step of the contract |
| NodeClient.ClosedIsFinal | node/index.js:219-224 | after close no event changes anything: nothing is accepted, written, settled or spawned |
| NodeClient.DeadlinesSettleEverything | node/index.js:393-434 | the deadlines alone settle every outstanding call, whether or not replacements can be started |
| NodeClient.FailAllKeeps | node/index.js:317-330 | failing everything settles every outstanding call in call order and leaves nothing pending |
| NodeClient.PumpKeeps | node/index.js:393-434 | sending the next job keeps the books, whichever way spawning goes |
| NodeClient.SettleAndPump | node/index.js:340-383 | settling one job and going on keeps the books, and the answer was heard under its id |
| NodeOutcomes.LineEnds | node/index.js:332-383 | a usable answer under the id in flight answers the call with what it says; an unusable one and garbage fail it; any other id changes nothing; then the next call is written |
| NodeOutcomes.LineIgnored | node/index.js:350-370 | with nothing in flight no line changes anything |
| NodeOutcomes.DeadlineEnds | node/index.js:414-423 | the deadline fails the call in flight as timed out and stops the process; the queue goes to a replacement, or fails if none can be started |
| NodeOutcomes.WriteErrorEnds | node/index.js:425-433 | the same for a write error of the call in flight, and nothing for one of another |
| NodeOutcomes.ExitEnds | node/index.js:271-279 | an exit fails the call in flight and no other |
| NodeOutcomes.EverythingFails | node/index.js:219-263 | a process that could not be started and closing fail every call outstanding, each with its reason, in call order |
| NodeOutcomes.CallIsTaken | node/index.js:171-217 | a call gets the next id; behind another it waits, alone it is written to the process there is or to a new one |
| NodeOutcomes.CallIsRefused | node/index.js:171-205 | a refused call leaves nothing behind but, past the URL check, a gap in the ids |
| NodeRuns.NodeAnswersDoNotCross | node/index.js:171-435 | in every run of the Node client with its processes, calls settle in call order, at most once, and answered calls with their own answers |
| NodeRuns.MachineKeeps | node/index.js:228-434 | runs of the Node client are runs of the shared contract |
| NodeRuns.AnAnsweredRun | node/index.js:332-383 | there are runs in which a call is written, answered, read and resolved |
| NodeClientClass.Client.Request | node/index.js:171-217 | an encodable call joins the queue under the next id and is sent if nothing is in flight; a refused one changes nothing but, past the URL check, the id; each a step of the contract |
| NodeClientClass.Client.Close | node/index.js:220-224 | kills, settles everything, and is final |
| NodeClientClass.Client.OnLine | node/index.js:332-383 | garbage fails the job in flight, a foreign id is dropped, its own id settles it |
| NodeClientClass.Client.OnTimeout | node/index.js:414-423 | the job fails and the process is replaced |
| NodeClientClass.Client.OnWriteError | node/index.js:425-433 | only a write error of the job in flight counts |
| NodeClientClass.Client.OnExit | node/index.js:271-279 | only the job in flight fails; queued jobs go to a replacement |
| NodeClientClass.Client.OnSpawnError | node/index.js:255-263 | everything outstanding fails, the exit listener is detached |
| NodeClientClass.Client.DoPump | node/index.js:393-434 | one job in flight at a time, first in first out |
| NodeClientClass.Client.DoFailAll | node/index.js:317-330 | the job in flight and then the queue are rejected in order |
| PythonClient.Client.Request | python/src/tlsforge/_client.py:184-233 | a request is the steps of taking an id, starting, writing and reading, each of which keeps the shared contract |
| PythonClient.Client.Exchange | python/src/tlsforge/_client.py:253-289 | the loop is those steps one after another: stale answers are skipped, the first other item or the deadline decides, and what came later stays in the queue |
| PythonClient.Client.EnsureStarted | python/src/tlsforge/_client.py:291-324 | one process at a time, each a new generation with a line queue of its own |
| PythonClient.Client.Close | python/src/tlsforge/_client.py:235-243 | closing is final and leaves no process |
| PythonClient.FirstFresh | python/src/tlsforge/_client.py:253-289 | the first line that is not an answer to some other request |
| PythonClient.AnswerWasHeard | python/src/tlsforge/_client.py:253-289 | a request is answered only by a line under its own id that was in its queue |
| PythonClient.Client.WriteLine | python/src/tlsforge/_client.py:326-335 | a failed write stops the process and fails the request |
| PythonClient.StepIsNext | python/src/tlsforge/_client.py:184-343 | every step, between which other threads and the processes may move, keeps: at most the request that holds the lock outstanding, settled in call order, written at most once; and is a step of the contract |
| PythonClient.FinishIs | python/src/tlsforge/_client.py:259-289 | the request ends by the first line that is no answer to another, or by the deadline, and leaves what came after it |
| PythonClient.WholeIsNext | python/src/tlsforge/_client.py:184-233 | a whole request hears only leftovers of its own process and what arrived |
| PythonClient.RequestEnds | python/src/tlsforge/_client.py:253-335 | a call that is written ends by the first line not under another id: its own answer, garbage, the end of the output, or by the deadline, each with its outcome, its process stopped or kept, and what came later left in the queue |
| PythonClient.RequestIsRefused | python/src/tlsforge/_client.py:214-233 | a refused call and one for which no process can be started |
| PythonRuns.PythonAnswersDoNotCross | python/src/tlsforge/_client.py:184-343 | in every run of the Python client with its processes and reader threads, calls settle in call order, at most once, and answered calls with their own answers |
| PythonRuns.MachineKeeps | python/src/tlsforge/_client.py:391-414 | runs of the Python client are runs of the shared contract, with each line delivered when it enters the queue |
| PythonRuns.AnAnsweredRun | python/src/tlsforge/_client.py:253-289 | there are runs in which a call is written, answered, read and settled |
| ClientHello.ParseClientHello | fingerprint/clienthello.go:96-153 | the hello, or the field at which it ends too early, exactly as the recursive reading of the layout of section 4.1.2 of RFC 8446 says |
| ClientHello.HandshakeBody | fingerprint/clienthello.go:155-198 | reassembly over records equals its recursive definition |
| ClientHello.Extensions | fingerprint/clienthello.go:138-152 | the extension loop equals its recursive definition |
| HelloRoundTrip.ParseReadsBack | fingerprint/clienthello.go:96-209 | every hello whose fields fit their prefixes, in every fragmentation into records, empty ones included, is read back exactly when its message is at most 2^17 bytes |
| HelloRoundTrip.ParseAcceptsOnlyHellos | fingerprint/clienthello.go:96-209 | whatever parses is such a serialisation, up to bytes after the extensions and after the message |
| HelloRoundTrip.ParseStable | fingerprint/clienthello.go:153-196 | a verdict other than missing bytes stands whatever follows |
| HelloRoundTrip.ParseOwnRaw | fingerprint/clienthello.go:96-151 | the raw bytes of a hello parse to that hello |
| HelloRoundTrip.FragmentsRead | fingerprint/clienthello.go:155-198 | reassembly takes exactly the records that carry the message |
| HelloRoundTrip.LongHelloParses | fingerprint/clienthello.go:155-198 | a hello of more than 65537 bytes within every limit of the parser |
| WireFormat.ABrowsersHelloParses | fingerprint/clienthello.go:44-209 | written byte by byte, in records of type 22 that carry a message of type 1, every hello whose fields fit parses, exactly when its message is at most 131072 bytes |
| WireFormat.WhatParsesIsAHello | fingerprint/clienthello.go:44-209 | and what parses begins with a byte 22 and is such bytes, up to something after the extensions and after the message |
| WireFormat.TheFirstRecordDecides | fingerprint/clienthello.go:155-182 | what a first record that is cut short, of another type, or with another message comes to |
| WireFormat.TooEarlyToJudge | fingerprint/clienthello.go:155-198 | until the last byte of a hello is there, the verdict is that bytes are missing |
| WireFormat.ABodyEndsSomewhere | fingerprint/clienthello.go:102-151 | a body that stops short is reported at the field in which it stops |
| WireFormat.AnyBody | fingerprint/clienthello.go:96-153 | a whole message is judged by its body alone |
| WireFormat.AnOddList | fingerprint/clienthello.go:117-124 | a cipher list of odd length is refused |
| WireFormat.ACutExtension | fingerprint/clienthello.go:142-151 | an extension that does not fit its block is refused |
| WireFormat.NumbersAreBigEndian | fingerprint/clienthello.go:200-209 | numbers of two and three bytes are big-endian |
| Recorder.RecordingConn.Read | echo/conn.go:34-46 | new bytes join the buffer, which is parsed again as a whole; recording ends with a hello or past the limit |
| Recorder.RecordsUnlessOverrun | echo/conn.go:34-46 | what is recorded is the hello of the stream, unless a read ended past the limit before the hello did |
| Recorder.BufferIsBounded | echo/conn.go:34-46 | after every read the buffer holds at most 65536 bytes |
| Recorder.ChunkingMattersOnlyPastTheLimit | echo/conn.go:34-46 | the result is the same for every chunking exactly when the hello is at most one byte past the limit |
| Recorder.ALongHelloIsLost | echo/conn.go:34-46 | a stream whose hello is recorded when it arrives at once and lost when it arrives in two |
| Recorder.WhatOverrunMeans | echo/conn.go:34-46 | the recording is given up exactly when a read leaves more than 65536 bytes, and fewer than the hello has |
| Accessors.FindExtension | fingerprint/clienthello.go:216-223 | the first extension of a kind |
| Accessors.ReadServerName | fingerprint/clienthello.go:235-256 | the first name of type zero, none after a malformed entry |
| Accessors.ReadStrings | fingerprint/clienthello.go:259-278 | strings up to the first that does not fit |
| Accessors.ReadKeyShareGroups | fingerprint/clienthello.go:308-328 | groups up to the first share that does not fit |
| Accessors.ReadApplicationSettings | fingerprint/clienthello.go:343-366 | the first of two numbers whose body can be read |
| Accessors.ReadWords | fingerprint/clienthello.go:377-389 | 16-bit values, none for an odd length |
| Accessors.ServerNameReadsBack | fingerprint/clienthello.go:235-256 | a written name list says its first host name |
| Accessors.ProtocolsReadBack | fingerprint/clienthello.go:259-278 | a written protocol list is read back |
| Accessors.SharesReadBack | fingerprint/clienthello.go:308-328 | written key shares say their groups in order |
| Accessors.Words8ReadBack | fingerprint/clienthello.go:377-389 | a written list behind one length byte is read back |
| Accessors.Words16ReadBack | fingerprint/clienthello.go:377-389 | a written list behind two length bytes is read back |
| WireExtensions.NumberZeroSaysTheHost | fingerprint/clienthello.go:235-256 | extension 0 says the first name of type 0 in its bytes, and its absence none |
| WireExtensions.NumbersTenAndThirteen | fingerprint/clienthello.go:280-300 | extensions 10 and 13 are the groups and the signature algorithms |
| WireExtensions.NumbersFortyThreeAndTwentySeven | fingerprint/clienthello.go:280-306 | extensions 43 and 27 are the versions and the certificate compressions |
| WireExtensions.NumbersElevenAndFortyFive | fingerprint/clienthello.go:329-341 | extensions 11 and 45 are the point formats and the key exchange modes |
| WireExtensions.NumberFiftyOneSaysTheShares | fingerprint/clienthello.go:308-328 | extension 51 says the groups it brings keys for |
| WireExtensions.NumbersSixteenAndTheSettings | fingerprint/clienthello.go:259-366 | extension 16 says the protocols; 17513 the settings, and 17613 where 17513 is missing or no list |
| WireExtensions.WhatABrokenListSays | fingerprint/clienthello.go:235-328 | a list that breaks off says what came before, and a name list then no name |
| WireExtensions.WhatASpoiltListSays | fingerprint/clienthello.go:377-389 | a list of values that is odd or too long says nothing |
| Accessors.SettingsReadBack | fingerprint/clienthello.go:343-366 | written application settings are read back from the first readable kind |
| JA4.WithoutGREASE | fingerprint/grease.go:21-29 | the meaningful values in order |
| JA4.TheSixteenValues | fingerprint/grease.go:12-14 | GREASE is exactly the sixteen values of section 2 of RFC 8701 |
| JA4.RedrawKeepsTheRest | fingerprint/grease.go:21-29 | redrawing reserved values leaves the meaningful ones |
| JA4.ReadNegotiableVersion | fingerprint/ja4.go:81-92 | the highest version offered, or the legacy field |
| JA4.ReadExtensions | fingerprint/ja4.go:152-161 | the hashed extension list, sorted |
| JA4.ReadJoinHex | fingerprint/ja4.go:183-189 | the comma-joined hexadecimal form |
| JA4.JoinHexInjective | fingerprint/ja4.go:183-189 | the hexadecimal form determines the list |
| JA4.SortedHexIsCanonical | fingerprint/ja4.go:177-181 | the sorted form determines the multiset and nothing more |
| JA4.RawIsCanonical | fingerprint/ja4.go:39-76 | two hellos have one raw JA4 exactly when prefix, ciphers, hashed extensions (as multisets) and signature algorithms (in order) agree |
| JA4Text.TheReadableThird | fingerprint/ja4.go:62-152 | the ten characters one by one, in the raw and in the hashed form: protocol, version, host name or not, two counts up to 99, the ends of the first protocol |
| JA4Text.TheListedThirds | fingerprint/ja4.go:32-76 | the rest: ciphers ascending; extension types but 0, 16 and reserved ones ascending; signature algorithms as they come; hashed, or twelve zeros for nothing |
| JA4Text.SettledIs | fingerprint/ja4.go:81-92 | the version is the highest meaningful one offered, or, where none is, the legacy field |
| JA4Text.JoinHexLists | fingerprint/ja4.go:183-189 | four lower-case hexadecimal digits a value, worth the value, with commas between |
| JA4Text.WithoutConcat | fingerprint/grease.go:21-29 | reserved values are left out and the order of the rest is kept |
| Sorting.TheFirstDifferenceDecides | profile/trustanchors.go:37 | lists are ordered by the first place where they differ |
| Redraw.RawIgnoresTheShuffle | fingerprint/ja4.go:39-189 | any permutation of the extensions that keeps same-kind order, any reordering of the ciphers, and reserved values and keys drawn afresh in the bytes leave JA4, raw and hashed, as it is |
| Redraw.SameAnswers | fingerprint/clienthello.go:216-408 | a redraw leaves every accessor's answer: exactly, or up to reserved values in the lists they are drawn in |
| Redraw.RedrawnBodySays | fingerprint/clienthello.go:308-389 | two bodies whose lists differ in reserved values, or whose keys differ, say the same apart from these |
| Redraw.ShuffleIsByKind | fingerprint/clienthello.go:216-223 | a permutation that keeps same-kind order, with redraws, leaves every kind the same list of redrawn bodies |
| Redraw.NeighboursMayPass | fingerprint/clienthello.go:216-223 | neighbours of different kinds may change places |
| Compare.Subtract | fingerprint/compare.go:255-269 | the loop over counts equals taking each occurrence away once |
| Compare.SubtractIsDifference | fingerprint/compare.go:255-269 | exact multiset difference, a subsequence of the minuend; both differences are empty exactly for equal multisets |
| Compare.CompareFields | fingerprint/compare.go:183-201 | the report, empty exactly when all pairs match |
| Compare.EmptyMeansMatching | fingerprint/compare.go:93-102 | display and verdict follow one rule |
| Compare.DifferenceSaysWhat | fingerprint/compare.go:213-239 | a difference says exactly what is missing and what is extra, with multiplicity and in order |
| Compare.ReportListsMismatches | fingerprint/compare.go:183-201 | the report names the mismatching fields, each once, in order |
| Compare.EqualStrings | fingerprint/compare.go:241-251 | sequence equality |
| Compare.SameIsAnEquivalence | fingerprint/compare.go:119-169 | no differences is an equivalence relation on hellos |
| Verdict.SameMeansAgreement | fingerprint/compare.go:119-134 | no differences exactly when the hellos agree on JA4 and on each of the eleven lists, for tables that tell things apart |
| Verdict.TheReportNames | fingerprint/compare.go:119-201 | a field is reported, under its name, exactly when the hellos disagree on what it stands for |
| Verdict.TheDifferenceShows | fingerprint/compare.go:203-239 | the reference is shown as reference and the candidate as candidate, sorted where order means nothing |
| Verdict.SameNamesSameList | fingerprint/compare.go:119-134 | names tell lists apart |
| Verdict.SameNamesSameBag | fingerprint/compare.go:119-134 | names tell multisets apart |
| Compare.TheShuffleIsNoDifference | fingerprint/compare.go:119-169 | a hello compared with that of another connection of the same browser, extensions permuted and reserved values and keys fresh, shows no differences |
| Headers.Merge | header.go:114-146 | the three loops lay the overrides over the base: replaced in place, repeats gathered, new names after |
| HeaderLaws.LayeredValues | header.go:114-146 | per name the override's values if present, else the base's |
| HeaderLaws.LayeredOrder | header.go:114-146 | the base's first-occurrence order, then names only the overrides have |
| HeaderLaws.LayeringIsAssociative | header.go:114-146 | profile, client and request layers may be grouped either way |
| HeaderLaws.LayeringTwiceIsOnce | header.go:114-146 | merging the same overrides again changes nothing |
| HeaderLaws.SelfIsIdentityIffNormal | header.go:114-146 | self-merge and merge into nothing are identities exactly on normal headers |
| HeaderLaws.NotEveryHeaderIsNormal | header.go:114-146 | one header with a capital and one with a repeat apart for which neither identity holds |
| HeaderLaws.UntouchedFieldsStay | header.go:114-146 | what the overrides do not name stays field by field, spelling and order included; what they name is theirs, in lower case |
| Headers.NothingToOverlay | header.go:114-146 | the empty header is a right identity |
| Capture.ReadHeaders | echo/h1.go:130-192 | the three parallel lists of a request are those of its header lines, or the error the first bad line gives |
| Capture.HTTP1FromCapture | profile/fromcapture.go:110-174 | the profile part has the measured spellings, or the names where none was measured, and only the groups the shared block does not carry |
| Capture.SharedHeaders | profile/fromcapture.go:41-108 | the shared block is the fields that may be carried, in their order |
| Capture.CarriedValues | profile/fromcapture.go:41-108 | per name the request's values, or none for what belongs to one request |
| Capture.CarriedOrder | profile/fromcapture.go:41-108 | the carried names keep their order of first occurrence |
| Capture.MeasuredIsSpelled | echo/h1.go:130-192 | a request as recorded stands for its own wire header |
| CaptureLaws.WhatIsShared | profile/fromcapture.go:25-34 | cookie, content-length, content-type, referer, origin, cache-control, pragma, Host and pseudo headers are not shared, every other name is |
| CaptureLaws.WhatTheHTTP1PartTakes | profile/fromcapture.go:110-174 | the HTTP/1.1 part lists every name but those of one request, Host included, and holds the values the shared block does not |
| CaptureLaws.HowItIsFirstSpelled | profile/fromcapture.go:127-139 | a name is spelled as where it first occurs |
| CaptureLaws.WhatIsMeasured | echo/h1.go:155-163 | three aligned lists: lower-case name with value, name, and the name as spelled |
| CaptureLaws.WhatTheLinesSay | echo/h1.go:141-164 | lines up to the empty one, at most a hundred, name and value trimmed; and the three errors, each in its place |
| Layout.ProfileHTTP1Headers | client.go:274-290 | the header list resolved from shared and HTTP/1.1 parts |
| Layout.MeasuredHTTP1Layout | client.go:415-455 | measured names that have something to send, in measured spelling and order, then the others in canonical spelling |
| Layout.CanonicalIsASpelling | client.go:447-449 | a canonical spelling is a spelling of the same name |
| Layout.HowANameIsSpelled | client.go:447-449 | letter by letter: capitals first and after hyphens, small letters elsewhere |
| Layout.WhoseHost | client.go:421-423 | the last Host of the caller, or that of the URL |
| Replay.ProfileHolds | client.go:274-290 | without overrides the client's list holds exactly what was measured |
| Replay.ReplayIsFaithful | client.go:261-290 | with any overrides: measured names first, in measured order and spelling, each with override or measured values, Host from caller or URL, other names after |
| Replay.ReplayReproduces | client.go:415-455 | without overrides the wire carries the measured names, order, spelling and values, and nothing else |
| Replay.WireReadsBack | echo/h1.go:130-192 | a clean request of at most 100 headers is measured as it was sent |
| Redirect.HeaderBlock.SetHeader | client.go:602-615 | the name's own spelling takes the value, or a canonical one is appended |
| Redirect.HeaderBlock.DeleteHeader | client.go:586-600 | every spelling of the name and its place in the order are gone |
| Redirect.RedirectHTTP1Layout | client.go:517-559 | per name: Host exactly the target, dropped means absent, changed or new means the hop's value, else the HTTP/1.1 value; survivors keep spelling and order, additions follow in sorted groups; order and fields stay consistent without duplicates |
| Redirect.DecidedAllIs | client.go:529-556 | what any list of decisions does to values, spellings and order |
| Redirect.PrepareRedirectLayout | client.go:486-511 | every hop is decided from the first request's layout and baseline, with the kept Host if there is one |
| Redirect.HopSends | client.go:486-556 | any hop of any chain, name by name: the hop's Host, what it brought or changed, nothing for what it withholds, the measured value for the rest |
| Redirect.WhoseHostAHopSends | client.go:495-502 | the kept Host where there is one, the target's where there is none |
| Redirect.DecidedAllSpellsAdded | client.go:602-615 | a name that is added has its canonical spelling |
| Redirect.ReturnsAsMeasured | client.go:486-556 | what one hop withheld and a later one carries unchanged goes out as measured again |
| Redirect.WithheldExactly | client.go:486-556 | a measured shared name is withheld on exactly the hops that do not carry it |
| Redirect.HopsStandAlone | client.go:486-511 | two hops that carry a name alike send it alike, whatever lies between them |
| Redirect.HopKeepsTheMeasuredForm | client.go:517-559 | on every hop the names not withheld keep the first layout's spelling and relative order |
| Redirect.OnlyTheLayoutGoesOut | client.go:465-484 | an HTTP/1.1 connection carries exactly the layout and what the transport added under other names |
| Redirect.ApplyHeaderLayout | client.go:633-642 | managed names give way to the layout |
| WarmCookies.Client.SeedWarmCookies | client.go:648-673 | the cookies due for a host, in order, each marked |
| WarmCookies.FiledAtTheFirstVisit | client.go:648-673 | over any visits a cookie with a domain is filed once, at the first host of its domain, and one without at the first visit to every host |
| WarmCookies.WhereACookieBelongs | client.go:659-662 | a cookie belongs to its domain and to hosts that end in a dot and the domain, whatever the case and with or without a dot in front |
| Shutdown.StepKeeps | proxy/proxy.go:118-188 | every step of accept loops, handlers and Close keeps the register, the wait group and the sweep in agreement |
| Shutdown.CloseLeavesNothing | proxy/proxy.go:118-139 | in every interleaving, when Close returns no loop and no handler is left and every accepted connection is closed |
| Shutdown.WaitingStepsDescend | proxy/proxy.go:118-139 | once Close waits, no step is the peer's to take and every step leaves less work |
| Shutdown.TheWaitEnds | echo/server.go:324-348 | the wait is bounded by the work left when it began and can only end with Close having returned |
| Shutdown.NeverStuck | echo/server.go:324-428 | until Close returns some step is enabled that needs no peer |
| Shutdown.NobodyWaitsForThePeer | echo/server.go:402-484 | while Close waits each handler has a closed connection, will be refused, or is closing |
| Serving.WhoAsksInTimeIsServed | proxy/proxy.go:358-366 | in every interleaving a connection whose handler asks while the flag is down is registered and served, and one that asks later is refused; the flag is down until Close is called, in the proxy until the snapshot |
| Serving.NobodyIsTurnedAwayBeforeClose | echo/server.go:418-448 | until Close is called nobody is refused and no connection is closed but by the end of its handler |
| Serving.NothingThatArrivesIsLost | proxy/proxy.go:158-188 | what a connection being served has brought is what was worked off and what is left, to the unit |
| Serving.OneStageAtATime | proxy/proxy.go:141-188 | a connection goes from stage to stage in one order and skips none |
| Shutdown.Register.Track | proxy/proxy.go:358-366 | registers or refuses, in one step under the mutex |
| Shutdown.Register.Forget | proxy/proxy.go:368-373 | unregisters before closing |
| Shutdown.Register.TakeSnapshot | proxy/proxy.go:122-130 | flag and snapshot in one step |
| Completions.StepKeeps | echo/server.go:300-321 | completions and waiters keep: taken ++ queued = all completions, one taker each, nobody blocked on an open channel while anything is queued |
| Completions.WaitersAreServed | echo/server.go:300-321 | in every interleaving: first in first out, no completion to two waiters, no lost wake-up |
| Completions.GotIsKept | echo/server.go:300-321 | a waiter has the completion of its place in the order, for good |
| Completions.WhoLooksGetsTheOldest | echo/server.go:300-321 | a waiter that looks gets the oldest completion nobody has, or waits for the next |
| Completions.Queue.Complete | echo/server.go:583-589 | queueing and broadcasting in one step |
| Completions.Queue.Look | echo/server.go:302-311 | a session, or the channel to wait on |
| Navigations.Server.SetNavigation | echo/server.go:499-519 | a navigation keeps its token, a known token is handed on, an unknown one refused, and otherwise a fresh one is made |
| Navigations.Server.CaptureSession | echo/server.go:558-580 | a report goes to the owner of its token, else to its own navigation, else makes its connection one |
| Navigations.CallKeeps | echo/server.go:499-580 | tokens and navigations stay in one-to-one correspondence and no token changes hands |
| Navigations.TokensAreInjective | echo/server.go:499-580 | over any history no two tokens name one session |
| Navigations.ReportsReachTheirNavigation | echo/server.go:499-580 | a served token reaches the session it was made for, from any connection and after any history |
| Navigations.ReportsWithoutToken | echo/server.go:558-580 | a report without a token makes its own connection the navigation |
| Navigations.WhatALoadDoes | echo/server.go:499-519 | over any history, each of the four answers of a page load and all that it changes; an unknown token is refused |
| Navigations.WhatAReportDoes | echo/server.go:558-580 | over any history, a report marks the navigation it is filed with and no other; an unknown token is refused |
| Navigations.Base36Is | echo/server.go:511-512 | a token is worth the number of its navigation in base 36 |
| Navigations.Base36Injective | echo/server.go:511-512 | numbers and tokens correspond |
| Http2.ServeHTTP2 | echo/h2.go:66-163 | the frame loop is a run of the per-frame contract |
| Http2.WriteResponse | echo/h2.go:206-245 | the body is sent whole, announced with its length, in frames of at most 16384 bytes, only the last ending the stream; too long a body is refused before anything is sent |
| Http2.RequestFromFrame | echo/h2.go:181-192 | the last method and path count |
| Http2.Session.RecordRequest | echo/h2.go:297-318 | only the first request is recorded |
| Http2.Session.RecordSettings | echo/h2.go:249-262 | settings accumulate in order until then |
| Http2Laws.WindowIsRestored | echo/h2.go:129-138 | after every frame the connection window taken has been given back |
| Http2Laws.StreamsAreIndependent | echo/h2.go:66-163 | between any two frames every stream is as if its own frames had arrived alone, and bodies are within the limit |
| Http2Laws.OneAnswerPerStream | echo/h2.go:129-150 | a stream with one request is answered once, with the concatenation of its data, however streams interleave |
| Http2Laws.OneAnswerOrNone | echo/h2.go:115-150 | the same for requests without a body, and no answer before the end |
| Http2Laws.StoppingAnswersNothing | echo/h2.go:84-163 | the frame that ends a connection answers nothing |
| Http2Laws.FirstRequestIsMeasured | echo/h2.go:247-318 | the measurement is what came before the first request and that request, for good |
| Http2Laws.WhatARequestAsks | echo/h2.go:181-192 | the verb is the last `:method` field and the path the last `:path` field |
| Http2Laws.WhatAnAnswerSays | echo/h2.go:206-245 | the five header fields of an answer, the length as a number, and frames of at most 16384 bytes |
| Http2Laws.EveryPingComesBack | echo/h2.go:92-158 | each ping is sent back with its payload, in order, and each settings frame acknowledged once |
| Http2Laws.HowAConnectionEnds | echo/h2.go:84-171 | which frame ends a connection and how, with the limits of 65535 octets; nothing else does |
| Http2Laws.RepliesGoOut | echo/h2.go:206-245 | every answer is the reply of the routes to its request, on its stream |
| TrustAnchors.SplitTrustAnchors | profile/trustanchors.go:52-75 | the records of a well-formed payload, or which of four ways it is malformed |
| TrustAnchors.JoinTrustAnchors | profile/trustanchors.go:77-88 | the records in order behind their length cut to 16 bits |
| TrustAnchors.JoinReadsBack | profile/trustanchors.go:52-88 | what was joined splits back exactly when all are records and the length fits 16 bits |
| TrustAnchors.SplitWritesBack | profile/trustanchors.go:52-88 | an accepted payload is rebuilt byte for byte |
| TrustAnchors.WhatIsMalformed | profile/trustanchors.go:52-75 | each of the four ways to be malformed, behind any records |
| TrustAnchors.HowAnchorsAreWritten | profile/trustanchors.go:77-88 | two bytes of length and the records one after another |
| TrustAnchors.KeyIsTheMultiset | profile/trustanchors.go:34-38 | the cache key is equal exactly for equal multisets |
| TrustAnchors.Shuffle | profile/trustanchors.go:46 | any swaps keep the records |
| TrustAnchors.TrustAnchorPayloads.Payload | profile/trustanchors.go:28-50 | a permutation of the input's records, cached for its set, everything else in the cache kept |
| TrustAnchors.OneOrderPerSet | profile/trustanchors.go:12-50 | over any history two inputs get the same bytes exactly when they hold the same records |
| Sorting.SortIsCanonical | profile/trustanchors.go:37 | a sort by a total order forgets exactly the order |
| Netscape.EncodeNetscape | cookie/netscape.go:114-143 | a comment header and one row of seven fields per cookie, in order |
| Netscape.LoadNetscape | cookie/netscape.go:43-107 | the cookies of all rows in order, or the error of the first bad line, or of none at all |
| Netscape.ReadLine | cookie/netscape.go:48-98 | one line, with each of its error cases |
| NetscapeRoundTrip.LoadsWhatWasWritten | cookie/netscape.go:43-143 | a written set loads as the same cookies in order exactly when it is not empty, every cookie fits its line and the last value survives trimming |
| NetscapeRoundTrip.AnEmptyLastValueIsLost | cookie/cookie.go:153-163 | a set that is lost for its empty last value, and the same cookies the other way round that survive |
| NetscapeRoundTrip.LineReads | cookie/netscape.go:48-98 | a row reads as the cookie it was written for |
| NetscapeRoundTrip.OnlyWritableReadsBack | cookie/netscape.go:48-143 | and no other cookie reads back from its row |
| NetscapeRoundTrip.LoadIsLines | cookie/cookie.go:153-163 | a written file is taken for a cookies.txt |
| NetscapeText.HowACookieIsWritten | cookie/netscape.go:118-141 | the seven columns of a row, one by one |
| NetscapeText.HowAFileIsWritten | cookie/netscape.go:114-143 | the two comment lines, the empty one, and the rows |
| NetscapeText.WhatARowSays | cookie/netscape.go:48-98 | a row column by column: the dot of a domain with subdomains, the words in any case, the expiry, and each error |
| NetscapeText.WhatIsPassedOver | cookie/netscape.go:48-59 | blank lines and comments, and the line that is too long |
| NetscapeText.TooFewColumns | cookie/netscape.go:61-65 | a row of fewer than seven columns is refused |
| NetscapeText.WhatAFileSays | cookie/cookie.go:153-163 | an empty file, one like JSON, the first line that is wrong, no cookies at all, or the cookies in order |
| Text.IntegersRead | cookie/netscape.go:66-69 | a signed integer is worth its digits, within 64 bits |
| Batch.StepKeeps | cmd/tls-forge/batch.go:548-607 | every turn of dispatcher, workers and sink keeps the books |
| Batch.EveryEntryIsRecordedOnce | cmd/tls-forge/batch.go:548-607 | at the end: each entry handed out is recorded once, all are handed out unless the run was cancelled, failures are counted, the sink holds a prefix of the records |
| Batch.NeverStuck | cmd/tls-forge/batch.go:562-598 | with at least one worker somebody can move until the run is over |
| Batch.TheRunEnds | cmd/tls-forge/batch.go:548-607 | a run takes at most two turns an entry, one a worker and one to close the list, whatever is scheduled or cancelled |
| Batch.OccurrencesAreDistinct | cmd/tls-forge/batch.go:585-588 | URL and occurrence identify an entry |
| Batch.FilesAreDistinct | cmd/tls-forge/batch.go:699-705 | two entries share a file only if the hash confuses their URLs |
| Batch.HowAFileIsNamed | cmd/tls-forge/batch.go:699-705 | the hash, for a later occurrence its number, and the ending |
| Batch.HowOccurrencesAreCounted | cmd/tls-forge/batch.go:585-588 | occurrences are counted from one, one at a time |
| Batch.WhatIsHandedOut | cmd/tls-forge/batch.go:583-598 | in every run the list is handed out from its front, each entry with its URL and occurrence |
| Batch.Fetch | cmd/tls-forge/batch.go:662-678 | between one try and repeat + 1, stopping exactly where the first success or cancellation is; the 64-bit counter never overflows for the numbers the command line accepts |
| Registry.NewestInFamily | profile/registry.go:333-359 | the loop equals the recursive definition, which terminates |
| Registry.MembersAreLonger | profile/registry.go:265-359 | every family step moves to a strictly longer listed name |
| Registry.NewestIsBest | profile/registry.go:333-359 | measured before unmeasured, then the highest version |
| Registry.FamilyMeansItsBest | profile/registry.go:265-359 | a family resolves to its best member, and to nothing exactly when there is none |
| Registry.MeasuredFamiliesStayMeasured | profile/registry.go:505-508 | a family with a measured member resolves to a measured profile |
| Registry.WhereANameIsFound | profile/registry.go:265-303 | registered before file before directory before embedded before catalogue |
| Registry.WhoIsAMember | profile/registry.go:333-346 | a member is its family, an underscore and a number |
| Registry.WhoIsNoMember | profile/registry.go:338-346 | an ending that is no number makes none |

## Left out

- TLS, certificate minting, HPACK, the HTTP/2 framer, the HTTP client and its cookie jar: frames, parsed requests and connections are values.
- SHA-256, MD5, base64 and JSON: hashes and number names are parameters, JSON lines are values that are blank, malformed, of the wrong shape, or a request or response. The JSON shapes of the cookie file, and naming and adding sets in it, are not modelled.
- Spawning, pipes, files, environment variables, browser launching, the capture page, the command line, reports and progress lines.
- Clocks: a deadline may fire at any moment while it is armed.
- Request ids and navigation numbers are unbounded; Node counts in doubles and the server in 64 bits.
- Child processes: no 'error' event arrives after the same child's 'exit', and events reach only listeners that are still attached.
- PythonClient.Client.Request: lines that reach the queue between two requests are leftovers of the next; the reader threads are the `Arrive` step of `PythonRuns`.
- Daemon.Serve: the line limit is part of `readable`; what is fetched, header ordering, body encoding and cookie parsing are the parameter `trials`.
- Capture.ReadHeaders: the request line, the body and the line length limit of `readHTTP1Request` are not modelled.
- Capture.HTTP1FromCapture: a spelling that is given is a spelling of its own header's name.
- Header names are ASCII, so lower-casing and case folding agree.
- Layout: the layouts used when a profile has no HTTP/1.1 measurement.
- Redirect.RedirectHTTP1Layout: the two name-to-values maps are given in lower case; collecting them from header maps is not modelled, and neither is the error path of the transport.
- Redirect.HeaderBlock: a header map with its order entry is a map and a list.
- WarmCookies.Client.SeedWarmCookies: what the jar does with a cookie, and the treatment of addresses as domains.
- Shutdown: the body of a handler is an amount of work already received; a panic takes the same path as a return. A second caller of Close is not modelled. The proxy has one accept loop, the capture server two; the model has any number.
- Completions and Navigations: sessions are numbers; the mutex of a session is not modelled.
- Http2.ServeHTTP2: writes succeed, the preface has been read, padding, trailers and the peer's window for responses are not modelled; what a route answers is a parameter that may differ from call to call.
- Accessors.ReadStrings: text is bytes.
- TrustAnchors.TrustAnchorPayloads.Payload: the random source is the list of swaps it asks for; error messages do not carry offsets.
- Netscape.LoadNetscape: a character counts as one byte towards the 4 MiB line limit, and TRUE and FALSE are folded as ASCII. Line numbers in errors are not modelled.
- Batch: the worker's fetch is atomic, the result line is written whole or not at all, and the exit lookup and session saving are not modelled.
- Registry.NewestInFamily: the sources are one unchanging snapshot, with the list of names as a part of it; the platform fallback inside a version directory is part of the snapshot.
- Trailing members that only render text (`Report.String`, `Difference.String`), the JA3 form and the HTTP/1.1 and HTTP/2 field lists of the comparison.
