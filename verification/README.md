# SplitStream, modelled and verified

A Dafny model of the parts of SplitStream that carry real state, codecs or rule sets: the tunnel supervisor, the
sign-in codecs and polling loop, the egress firewall script, the enrolment service, the Spotify preferences editor,
the credential directory, the sshd hardening script and the list of connected applications.

`dafny verify dfyconfig.toml` checks everything.

## What is modelled, and how

**Tunnel supervisor** (`Tunnel*.dfy`). Four cells are shared by the supervisor thread and every caller of `stop()`.
Each critical section, spawn, probe and sleep of the thread is one atomic step, each `stop()` is four, processes die
and time passes whenever they like; a run is any interleaving of these, of any length, with any number of starts.
`TunnelModel` gives the step function, `TunnelSupervisor` the same steps as methods that change the cells in place.
The ownership of process handles holds as long as no `start` takes effect while an earlier thread is still in its loop.
That condition is exact: `StartKeepsOwnershipIff` shows that in every other reachable state such a `start` can lose a
live process, and `RestartTooSoonLoses` gives a run that does. `TunnelProgress` shows that a stopped supervisor does end.
`TunnelDecisions` says of every decision the thread takes what it depends on, and over runs why a session ends.

**Sign-in** (`Base64`, `Base64Letters`, `Percent`, `Redirect`, `Reply`, `DeviceFlow`). The codecs are loops on bytes proved against reference
definitions on bits (RFC 4648, sections 4 and 5) and escapes (RFC 3986, section 2.1); the URL builder and the redirect
parser (RFC 6749, sections 4.1.1 and 4.1.2; RFC 7636, section 4.3) are proved inverse, exactly when the issuer has no
`?`. The polling loop (RFC 8628, section 3.5) runs against any clock that does not go back, user and provider. `u8::from_str_radix`
accepts a leading `+`, so `%+5` decodes; the model does the same. `percent_decode` slices text by byte index and panics
where that cuts a character; `Cuts` says exactly on which texts, and a reply with one such field is never accepted.

**Egress firewall** (`Firewall`, `EgressRules`, `EgressScript`, `AddressSets`, `EgressReconcile`). A packet filter with
an evaluator (first match wins, LOG does not decide, falling off a chain returns) and the script as commands on one
family's tables. Results are about the verdict of every packet, at the end and in every state passed through. The price
of rebuilding in place is exact: a packet that may not pass is held back if and only if the chain is complete and its hook
is reached (`RefusedExactlyWhen`), which in a refresh is so in two of the ten states passed through (`Refresh`). Over any
number of runs the address sets follow what the runs resolved, against a clock (`ReconcileAll`).

**Enrolment service** (`RateLimit`, `Enroll*`). Any number of requests at once, each step of each request atomic. The
pruned queue of the limiter is proved to decide like the whole history. `EnrollOutcomes` traces what becomes of each
request to the actions of the run: certificates to successful signings, refusals to a used-up hour. Serials come out consecutive in lock order, from
any contents of the serial file, and balance with admissions and certificates over every run.

**Preferences** (`TextLines`, `Prefs*`). Editor and reader of Spotify's flat file, with Rust's notions of lines and
white space. The reader gives up at the first line without `=`, and a text loses a carriage return at the end of a line
each time it is written, so the laws hold under exact conditions on the lines of the file: reading back what was set
under the first (`Reachable`), keeping the lines and setting twice under the second (`Tidy`). Where every line has a `=`
and there is no carriage return, all of them hold (`OrdinaryFile`); a `=` on every line alone is not enough
(`StrayCarriageReturn`).

**Credential directory** (`Credentials*`). Files that may be missing, whole or cut short, removals that may fail
unnoticed, writes that may fail at either end. Key and certificate match at every step exactly when no enrolment was left with a
certificate it could not remove. A failed renewal does lose the old certificate (`FailureKeepsTheOldPairIff`), against
the intent noted at `src-tauri/src/main.rs:653`.

**Hardening** (`Hardening*`). `grep -v` with its exit status, then the appended block. The script calls itself
idempotent; the key lines do converge, but the file grows by two lines at every start, and a file in which nothing
survives the filter needs a second start, until which sshd goes on reading the old values.

**Connected applications** (`ConnectedApps`). Grouping, counting and sorting of `netstat` rows.

`Runs` holds what is common to the step machines, `Decimal` the numerals, `Bytes` and `Wrappers` shared types.

## Model

| member | source | states |
|---|---|---|
| TunnelOwnership.OneOwner | src-tauri/src/tunnel.rs:276-428 | in every reachable state each unreaped process is held in exactly one place, and at most one ssh and one relay are unreaped |
| TunnelOwnership.StepOwned | src-tauri/src/tunnel.rs:289-427 | every step of thread, stop, start, death or clock keeps the ownership invariant |
| TunnelOverlap.StartKeepsOwnershipIff | src-tauri/src/tunnel.rs:267-277 | a start that takes effect can never lose a process if and only if no earlier thread is in its loop |
| TunnelOverlap.OverlapLoses | src-tauri/src/tunnel.rs:267-365 | otherwise thread steps alone lead to a live process that nothing holds |
| TunnelOverlap.RestartTooSoonLoses | src-tauri/src/tunnel.rs:267-428 | it happens: start, a stop that has only cleared running, start again, and thread steps lose a process |
| TunnelExit.AtMostOneMoreSpawn | src-tauri/src/tunnel.rs:289-344 | once running is false, at most one more relay and one more ssh are spawned before the next start |
| TunnelExit.ExitLeavesNothing | src-tauri/src/tunnel.rs:394-427 | after a normal exit all is reaped; after an error exit only a relay can remain, in its slot; after either the next stop leaves nothing |
| TunnelExit.ExitIsStopped | src-tauri/src/tunnel.rs:407-427 | where every start waits for the earlier thread, the status after a normal exit is Stopped |
| TunnelProgress.ReturnsWithinTwelve | src-tauri/src/tunnel.rs:289-411 | once running is false and nothing starts again, a thread returns within twelve of its own steps, from wherever it was and in any interleaving |
| TunnelProgress.StoppedEndsWithNothing | src-tauri/src/tunnel.rs:289-428 | so a stopped supervisor ends with nothing running but, after an error, a relay in its slot, which the next stop reaps |
| TunnelTrace.StatusesFollowTheLoop | src-tauri/src/tunnel.rs:289-411 | in every run statuses come in the order of the loop, every Connected has a greeting behind it with no spawn since, and each retry notice announces the k-th wait of the back-off |
| TunnelTrace.WithoutStopOnlyErrorEnds | src-tauri/src/tunnel.rs:289-411 | without stop, no thread publishes Stopped and a thread that returns published Error last |
| TunnelTrace.TotalWaitClosed | src-tauri/src/tunnel.rs:280-405 | n waits add up to 5(2^n - 1) seconds for n up to 4 and 75 + 60(n - 4) beyond |
| TunnelTiming.SpawnsServeTheBackoff | src-tauri/src/tunnel.rs:332-405 | ssh is spawned after n consecutive failures no sooner than that sum |
| TunnelTiming.SpawnsAcrossASession | src-tauri/src/tunnel.rs:362-405 | across a connected session two spawns of ssh are at least ten seconds apart |
| TunnelDecisions.WhyTheWatchEnds | src-tauri/src/tunnel.rs:367-389 | in every run a thread that gives up its watch did so in its last step because it found running false, the slot empty or the process ended, or because the probe brought no two bytes of which the first is 5 |
| TunnelDecisions.WatchStepCause | src-tauri/src/tunnel.rs:367-383 | a step of a watching thread ends the watch if and only if it meets one of these causes |
| TunnelDecisions.DeadAreNotProbed | src-tauri/src/tunnel.rs:374-405 | after an ended process or an empty slot the thread sends no probe of any kind before its next spawn, in any continuation |
| TunnelDecisions.RelayDecisions | src-tauri/src/tunnel.rs:291-330 | where the relay phase goes from each point: asked for exactly when wanted and none runs, waited for thirty times 400 ms, and ssh spawned either way |
| TunnelDecisions.SshDecisions | src-tauri/src/tunnel.rs:332-365 | where the ssh phase goes from each point: thirty probes half a second apart, connected exactly on an answer, dropped when it has ended or running is false |
| TunnelDecisions.WatchDecisions | src-tauri/src/tunnel.rs:367-393 | a session is looked at every five seconds; at its end the process in the slot is reaped and no other |
| TunnelDecisions.LoopDecisions | src-tauri/src/tunnel.rs:289-406 | the loop goes round exactly while running is true, and a retry waits its announced seconds one at a time, doubling to a minute |
| TunnelDecisions.LeaveDecisions | src-tauri/src/tunnel.rs:302-411 | the two ways a thread ends, with what each leaves in the cells |
| TunnelDecisions.StopParts | src-tauri/src/tunnel.rs:415-428 | a stop clears running, kills the ssh in the slot and no other process, then the relay, then publishes Stopped |
| TunnelDecisions.StartMeans | src-tauri/src/tunnel.rs:267-282 | a start does nothing while running; otherwise it adds a thread at the head of its loop, empty-handed, with a first wait of five seconds |
| TunnelSupervisor.Supervisor.Step | src-tauri/src/tunnel.rs:289-411 | one step of the thread on the real cells is the step of the machine, whose every decision `TunnelDecisions` gives in terms of the cells, the process table and the answer |
| TunnelSupervisor.Supervisor.Start | src-tauri/src/tunnel.rs:267-282 | start on the real cells is the start of the machine |
| TunnelSupervisor.Supervisor.StopStep | src-tauri/src/tunnel.rs:415-428 | each part of stop on the real cells is the step of the machine |
| TunnelSupervisor.Supervisor.Interleave | src-tauri/src/tunnel.rs:267-428 | any interleaving on the real cells is the run of the machine, and keeps ownership as long as no start overlaps an earlier loop |
| TunnelSupervisor.Supervise | src-tauri/src/tunnel.rs:253-428 | from a new supervisor, after any such interleaving, each unreaped process is in one slot or one thread's hands, and there is at most one of each kind |
| Base64.B64Url | src-tauri/src/auth.rs:398-414 | the encoder writes the input's bits six at a time, the last sextet filled up with zeros; `EncodedSpells` says with which letters |
| Base64.Base64Decode | src-tauri/src/auth.rs:159-179 | the 32-bit accumulator, never masked, yields the whole bytes of the sextets before the first `=`, or an error; `DecodedSpells` says from which letters |
| Base64.RefusedExactly | src-tauri/src/auth.rs:164-170 | it errs exactly when a foreign byte precedes the first `=`, and otherwise gives floor(6n/8) bytes |
| Base64.DecodedBits | src-tauri/src/auth.rs:171-178 | the bits of the result are the first bits of the concatenated sextets |
| Base64.Normalise | src-tauri/src/auth.rs:146-149 | translation and padding to a multiple of four |
| Base64.RoundTrip | src-tauri/src/auth.rs:146-414 | encode, translate, pad, decode gives back every byte sequence |
| Base64Letters.Alphabets | src-tauri/src/auth.rs:160-400 | each table is its alphabet of RFC 4648, letter for letter |
| Base64Letters.EncodedSpells | src-tauri/src/auth.rs:398-414 | the i-th letter written is the one the URL-safe alphabet has for the number that bits 6i to 6i + 5 of the input spell, zeros after the end |
| Base64Letters.DecodedSpells | src-tauri/src/auth.rs:159-179 | each bit read is the bit, in its place, of the index that the letter it comes from has in the standard alphabet |
| Base64Letters.RefusesForeign | src-tauri/src/auth.rs:164-170 | it errs exactly when a character before the first `=` is not in the standard alphabet |
| Percent.Percent | src-tauri/src/auth.rs:424-435 | the encoder loop computes the escapes |
| Percent.PercentDecode | src-tauri/src/auth.rs:576-592 | on the bytes of any text the loop computes the left-to-right unescaping, or panics exactly where a slice would cut a character |
| Percent.CutExample | src-tauri/src/auth.rs:581-582 | a text on which it panics |
| Percent.AsciiNeverCut | src-tauri/src/auth.rs:576-592 | ASCII text never does |
| Percent.UnescapeInverts | src-tauri/src/auth.rs:424-592 | decoding inverts encoding for every byte sequence, whatever follows |
| Percent.EscapedIsPlain | src-tauri/src/auth.rs:424-435 | the encoder's output has no separator and no plus sign |
| Percent.EscapeIs | src-tauri/src/auth.rs:427-431 | a byte that is not unreserved becomes `%` and its two digits in upper case |
| Percent.UnreservedIff | src-tauri/src/auth.rs:428 | letters, digits and `-_.~` stand for themselves, and nothing else |
| Percent.EscapeRead | src-tauri/src/auth.rs:576-592 | `%` and two digits in either case, or a plus sign and a digit, are read as one byte |
| Percent.OtherwiseStays | src-tauri/src/auth.rs:576-592 | everything else is read as itself |
| Percent.CutsAtPercent | src-tauri/src/auth.rs:580-582 | at its first `%` a text is cut exactly if the inside of a character comes next or after two more bytes, and otherwise if the rest is |
| Redirect.AuthorizeUrl | src-tauri/src/auth.rs:455-477 | the URL starts with the issuer, its last slashes gone, and `/auth?`; what follows parses to the request's own fields, each once under its own name, the fixed values under theirs, a resource exactly if there is one, the consent prompt exactly if the scopes contain offline_access, and no other name; with no `?` in the issuer that is the query |
| Redirect.ParseInverts | src-tauri/src/auth.rs:515-533 | the query parser recovers any parameters from their fields, in order |
| Redirect.RequestReadsBackIff | src-tauri/src/auth.rs:455-533 | the URL's query reads back as exactly the parameters built in if and only if the issuer has no `?` |
| Redirect.Literals | src-tauri/src/auth.rs:457-475 | the three values written without escaping are their own escapes |
| Redirect.ContainsIff | src-tauri/src/auth.rs:473 | the search for `offline_access` finds it exactly if it stands somewhere in the scopes |
| Reply.ReadReply | src-tauri/src/auth.rs:515-565 | on any request target the scanning loop decides by the last value of each parameter, or panics exactly where the decoder does |
| Reply.ScanMeans | src-tauri/src/auth.rs:515-592 | the scan recovers what any fields say, however their values are spelled, exactly when the decoder cuts no character in any of them, and panics otherwise |
| Reply.ReplyAccepted | src-tauri/src/auth.rs:515-592 | a reply in any spelling is accepted exactly when no field cuts a character, it has no error, a code and the state sent out, and the code is the one it carried |
| Reply.RefusedWhy | src-tauri/src/auth.rs:552-565 | each refusal exactly: an error, with its description, before anything else; no code; a state that is not the one sent |
| Reply.NoQueryNoCode | src-tauri/src/auth.rs:511-562 | a target without `?` brings no code |
| Reply.CutReplyExample | src-tauri/src/auth.rs:515-592 | a reply with a code, the right state and no error that is not accepted: a third field makes the decoder panic |
| Reply.EscapedNeverCut | src-tauri/src/auth.rs:424-592 | on parameters this client has escaped the scan never panics and recovers them all |
| Reply.RequestScannedIff | src-tauri/src/auth.rs:455-592 | with the decoder that can panic too, the URL's query is scanned to exactly the parameters built in if and only if the issuer has no `?` |
| DeviceFlow.Clamp | src-tauri/src/auth.rs:233 | the interval is the provider's, five if it gave none, and never below one |
| DeviceFlow.Poll | src-tauri/src/auth.rs:241-281 | the loop yields a session of spaced requests and ends for the reason it reports: tokens, a refusal or no answer exactly if that reply came last, expired exactly if after "not yet" the clock was at the deadline, cancelled exactly otherwise and then by the user |
| DeviceFlow.SpacedRequests | src-tauri/src/auth.rs:247-280 | each request follows the one before by at least the interval plus five seconds for every slow_down so far |
| DeviceFlow.SentWithoutDelay | src-tauri/src/auth.rs:247-280 | and exactly that much later, when sleeps and requests take no longer than they must |
| DeviceFlow.BegunInTime | src-tauri/src/auth.rs:247-250 | every request belongs to a round begun before the deadline |
| DeviceFlow.RequestsBounded | src-tauri/src/auth.rs:247-280 | at most ceil(expires_in / interval) requests |
| DeviceFlow.SlowDownsRunOut | src-tauri/src/auth.rs:250-276 | after n slow_down replies another round begins, even one cancelled during its wait, only if n·i + 5·n(n-1)/2 < expires_in |
| Firewall.RemovingOne | server/egress/split-tunnel-egress.sh:28-35 | deleting one copy lowers the count of copies by one and leaves the other rules |
| Firewall.EvalElsewhere | server/egress/split-tunnel-egress.sh:69-86 | a chain nobody jumps into makes no difference to any packet |
| Firewall.FirstMatchDecides | server/egress/split-tunnel-egress.sh:69-86 | the first rule that matches and does not log decides, by its target |
| EgressScript.Tables.Unhook | server/egress/split-tunnel-egress.sh:28-35 | ends with no copy of the hook and the host's rules in order, whatever the number of copies |
| EgressScript.Tables.Teardown | server/egress/split-tunnel-egress.sh:37-44 | from any tables leaves no hook and the host's rules as they were; where nothing else jumps to the chain it is gone, and every state passed through differs only in the tunnel's part |
| EgressScript.Tables.BuildChain | server/egress/split-tunnel-egress.sh:69-86 | from any tables ends with one hook first and the fixed chain, through exactly the listed states; where nothing else jumps to the chain, each differs only in the tunnel's part and holds a prefix of the chain |
| EgressScript.Tables.Refresh | server/egress/split-tunnel-egress.sh:69-86 | a refresh changes nothing and passes through ten states, of which exactly two hold back what may not pass |
| EgressRules.OthersUnaffected | server/egress/split-tunnel-egress.sh:28-86 | two states that differ only in the tunnel's part give every packet of another user the same verdict |
| EgressRules.TunnelVerdict | server/egress/split-tunnel-egress.sh:71-85 | after a run the tunnel user's packets are accepted exactly when established, to loopback, DNS or the set, and rejected otherwise |
| EgressRules.ChainDecides | server/egress/split-tunnel-egress.sh:73-81 | the chain decides every packet that enters it |
| EgressRules.ChainDoes | server/egress/split-tunnel-egress.sh:71-81 | what the chain does to a packet, in order: accepts it, or logs it if the rate limit has room and refuses it in the spelling the family understands |
| EgressRules.EnforcedOnce | server/egress/split-tunnel-egress.sh:82-85 | exactly one hook, host rules kept |
| EgressRules.SecondRunChangesNothing | server/egress/split-tunnel-egress.sh:8-86 | a second run gives the same tables |
| EgressRules.OnThenOff | server/egress/split-tunnel-egress.sh:37-86 | apply and teardown give the original rules minus the hooks |
| EgressRules.EstablishedNeverCut | server/egress/split-tunnel-egress.sh:71-85 | from the flush onwards no established packet is rejected by the chain |
| EgressRules.RefusedExactlyWhen | server/egress/split-tunnel-egress.sh:71-85 | in every state from the flush onwards a packet that may not pass is refused by the tunnel's rules if and only if the chain is complete and its hook is there and reached; otherwise it gets the host's own verdict |
| EgressRules.NothingEnforcedMeanwhile | server/egress/split-tunnel-egress.sh:71-85 | while the chain is empty or unhooked this goes for every packet of the tunnel user, those that may pass included |
| AddressSets.AddressSet.Refresh | server/egress/split-tunnel-egress.sh:61-66 | the inner loop adds every address of one answer, in order and at the clock's time, and nothing else |
| AddressSets.Resolve | server/egress/split-tunnel-egress.sh:59-67 | the outer loop adds one entry for each line of each family's answers and no other, with the line's address and the second at which it came: the clock at the start and every delay up to that line |
| AddressSets.ResolvedLines | server/egress/split-tunnel-egress.sh:59-67 | what a run adds to a family is one entry for each of its lines, in order and each at its second |
| AddressSets.AddsExactlyTheLines | server/egress/split-tunnel-egress.sh:59-67 | so an address is among the new entries of a family exactly if some line of that family of some domain has it |
| AddressSets.ResolvedBetween | server/egress/split-tunnel-egress.sh:59-67 | whatever is resolved and however long it takes, a run's adds come in the order of time |
| AddressSets.MemberIff | server/egress/split-tunnel-egress.sh:53-67 | over any number of runs an address is in the set exactly while some add of it is less than a day old |
| EgressReconcile.Reconcile | server/egress/split-tunnel-egress.sh:46-89 | one run over both families, in all three outcomes; an enforcing one adds one entry for each line of each family |
| EgressReconcile.ReconcileAll | server/egress/split-tunnel-egress.sh:46-89 | any number of runs at any intervals, enabled or not, with ipset or without: the tables of the last run that touched them; at every second the sets hold exactly what was there before and is not timed out and what a line of an enforcing run gave less than a day ago; and, while enforced, new traffic passes exactly to these addresses |
| EgressReconcile.AddressHeldIff | server/egress/split-tunnel-egress.sh:53-67 | one address at one second of that |
| EgressReconcile.NewTrafficPassesIff | server/egress/split-tunnel-egress.sh:53-89 | one packet at one moment of that |
| RateLimit.Limiter.Admit | server/enroll/enroll.py:158-165 | refused exactly when the subject's whole history holds the limit in the closed hour before now |
| RateLimit.Prune | server/enroll/enroll.py:161-162 | what the loop leaves in the queue is as long as the history's part in the window |
| RateLimit.WithinCounts | server/enroll/enroll.py:158-165 | the count taken of the times is the number of the subject's admissions in the closed hour |
| RateLimit.NeverMoreThanTheLimit | server/enroll/enroll.py:158-165 | no window of one hour, wherever it is put, holds more admissions than the limit |
| RateLimit.HourlyLimit | server/enroll/enroll.py:158-165 | the same for every subject of a limiter in any state it can reach |
| EnrollGates.GatesOpenIff | server/enroll/enroll.py:311-362 | the gates open exactly for two verified tokens of one person with the scope, a parsed key and an email the policy allows; each refusal, 400, 401 and 403, exactly when |
| EnrollGates.ArrivalMeans | server/enroll/enroll.py:311-364 | an arriving request is cleared to be counted exactly if it is entitled, under its own name, and refused with the gates' status otherwise |
| EnrollGates.OnlyTheEntitled | server/enroll/enroll.py:311-392 | in every run whoever gets a serial or a certificate sent such a request, and the certificate is for its key |
| EnrollSerials.SerialsStrictlyIncrease | server/enroll/enroll.py:219-237 | in every interleaving serials are consecutive in lock order, no two requests share one, and the unlocked file holds the last |
| EnrollSerials.StoredText | server/enroll/enroll.py:226-233 | the number written is the number read back |
| EnrollSerials.StoredOtherwise | server/enroll/enroll.py:226-229 | a file whose stripped text is no number, the empty one among them, counts as 0 |
| EnrollSerials.StripTakes | server/enroll/enroll.py:227 | stripping takes the white space off both ends and nothing else |
| EnrollConservation.AdvanceIsIssuedPlusFailed | server/enroll/enroll.py:240-366 | with nothing under way the serial has advanced by certificates plus failed signings, and by exactly the admissions |
| EnrollOutcomes.IssuedIffSigned | server/enroll/enroll.py:240-271 | over every run a request is issued a certificate with a serial exactly if ssh-keygen succeeded for it while it held that serial, and has failed exactly if ssh-keygen failed |
| EnrollOutcomes.OutcomesAreSignings | server/enroll/enroll.py:240-271 | over every run certificates are as many as the signings that succeeded, and failures as those that failed |
| EnrollOutcomes.AdvanceIsSignings | server/enroll/enroll.py:219-271 | with nothing under way the serial has advanced by the signings that succeeded and those that failed |
| EnrollOutcomes.SerialIsItsOwn | server/enroll/enroll.py:219-243 | a request's serial is the one it took itself, under the lock, as the successor of what the file then said |
| EnrollOutcomes.TurnedAwayIff | server/enroll/enroll.py:158-165 | over every run 429 goes exactly to the requests counted when their subject had used up its hour |
| EnrollOutcomes.OverWithinSeven | server/enroll/enroll.py:219-271 | after any run a request that finds the lock free is over within seven steps of its own |
| EnrollConservation.Balance | server/enroll/enroll.py:219-366 | at every moment admissions are the serials taken plus the requests about to take one |
| EnrollConservation.NobodyExceedsTheLimit | server/enroll/enroll.py:158-366 | the hourly limit holds over every run of the whole service |
| EnrollServer.Server.SerialStep | server/enroll/enroll.py:223-237 | one file operation on the real file and lock is the step of the machine |
| EnrollServer.Server.LimitStep | server/enroll/enroll.py:364 | the pruned queue takes the decision the machine takes from the whole history |
| EnrollServer.Server.Interleave | server/enroll/enroll.py:158-392 | any interleaving on the real state is the run of the machine, whose outcomes `EnrollOutcomes` traces to the actions |
| TextLines.JoinReadsBackIff | src-tauri/src/spotify.rs:62-76 | joined lines read back unchanged exactly when no line but the last ends in a carriage return and the last is not empty |
| Prefs.GetKeyLoop | src-tauri/src/spotify.rs:50-58 | the reading loop computes the lookup that gives up at a line without `=` |
| Prefs.SetKeyLoop | src-tauri/src/spotify.rs:60-77 | the editing loop with its flag computes the edit on lines |
| Prefs.SetInShape | src-tauri/src/spotify.rs:60-77 | every line for the key becomes the new one, every other line stays in place, and one is added only if there was none |
| Prefs.GetAfterSet | src-tauri/src/spotify.rs:50-77 | the value set is read back, trimmed and unquoted, exactly when every line before the key's first has a `=` |
| Prefs.OthersUntouched | src-tauri/src/spotify.rs:50-77 | every other key reads as before, if and only if no bare line with the set key stood between the reader and a value; what it reads otherwise is given |
| Prefs.LinesAfterSetIff | src-tauri/src/spotify.rs:60-77 | the new text has the edited lines, in place, exactly when the file is tidy: no carriage return ends a line for another key that does not come last, and no empty line ends a file that has the key |
| Prefs.LastSetWinsIff | src-tauri/src/spotify.rs:60-77 | setting twice is setting once, to the last value, exactly when the file is tidy |
| Prefs.OrdinaryFile | src-tauri/src/spotify.rs:50-77 | on every file with a `=` on every line and no carriage return: get after set, other keys untouched, lines in place, last set wins and idempotence |
| Prefs.StrayCarriageReturn | src-tauri/src/spotify.rs:62-76 | a file with a `=` on its only line on which lines are not kept and setting twice is not setting once |
| PrefsFile.OurAddrParses | src-tauri/src/spotify.rs:113-151 | the address written is the address parsed, for every port |
| PrefsSpelling.AddressIs | src-tauri/src/spotify.rs:113-121 | the host, port and scheme read from an address in each of its four forms; `SomeForm` shows every text has one |
| PrefsSpelling.OursIff | src-tauri/src/spotify.rs:123-126 | an address is ours exactly with mode 4, our port, SOCKS 5 in any case and this machine under either name |
| PrefsSpelling.ModeIs | src-tauri/src/spotify.rs:109-111 | the mode is the number in the file if it fits 32 bits, and 0 otherwise |
| Decimal.ParseIff | src-tauri/src/spotify.rs:110 | a number is digits with at most one sign, and nothing else |
| Decimal.NumeralDigits | src-tauri/src/spotify.rs:150 | a numeral is the number's decimal digits, the first one first |
| PrefsSpelling.WhiteSpace | src-tauri/src/spotify.rs:53 | what is trimmed is Unicode's white space |
| PrefsSpelling.TrimMeans | src-tauri/src/spotify.rs:52-53 | trimming takes the white space off both ends and nothing else |
| PrefsSpelling.UnquoteMeans | src-tauri/src/spotify.rs:53 | unquoting takes all quotes off both ends and nothing else |
| PrefsLaws.PointsAtUsIff | src-tauri/src/spotify.rs:96-153 | after apply the file points at the tunnel exactly when both keys can be reached, for every file and port |
| PrefsLaws.AppliedLines | src-tauri/src/spotify.rs:145-151 | apply writes the line that switches the proxy on and the one with the quoted address, whatever the file; and these are the values read back where the keys can be reached |
| PrefsLaws.RestoredLine | src-tauri/src/spotify.rs:157-165 | restore writes the line that switches it off, whatever the file |
| PrefsLaws.SavedIs | src-tauri/src/spotify.rs:141-153 | what a write or a copy that fails leaves: the old text if it was not begun, the beginning of the new one if it was cut short |
| PrefsLaws.BareLineExample | src-tauri/src/spotify.rs:50-153 | a file on which apply does not take, for every port |
| PrefsLaws.PointsAtUsOnOrdinaryFiles | src-tauri/src/spotify.rs:96-153 | in particular when every line has a `=`, with the whole state spelled out |
| PrefsLaws.RestoreTurnsOff | src-tauri/src/spotify.rs:157-165 | after restore the mode reads 0, whatever the file |
| PrefsLaws.RestoreKeepsTheRest | src-tauri/src/spotify.rs:157-165 | and every other key, the address among them, reads as before, under the same exact condition on mode lines |
| PrefsLaws.HiddenAddressExample | src-tauri/src/spotify.rs:50-165 | a file on which restore makes an address readable that was not |
| PrefsLaws.PrefsStore.ReadState | src-tauri/src/spotify.rs:96-128 | reads the state off the file, or the default when there is none or it is no text: mode and address under their two keys, the rest from them |
| PrefsLaws.PrefsStore.Apply | src-tauri/src/spotify.rs:132-154 | what becomes of file and backup, and what is reported, in every outcome: no file, a file that is no text, copies and writes cut short |
| PrefsLaws.PrefsStore.Restore | src-tauri/src/spotify.rs:157-165 | what becomes of the file in every outcome: no file, a file that is no text, a write cut short |
| PrefsLaws.PrefsStore.Session | src-tauri/src/spotify.rs:140-143 | over any session the backup once made, whole or cut short, is never replaced |
| Credentials.Store.GenerateKey | src-tauri/src/enroll.rs:87-111 | what each outcome leaves; key and certificate match at every step exactly when no stale certificate stays |
| Credentials.Store.Enroll | src-tauri/src/enroll.rs:148-231 | the same for the whole enrolment, with the record returned; and at every step nothing has been written before what it rests on |
| Credentials.Store.Clear | src-tauri/src/enroll.rs:234-244 | what a sign-out leaves; the match is kept at every step |
| CredentialsLaws.KeyFile | src-tauri/src/enroll.rs:101-107 | what an enrolment makes of the private key file, in every case |
| CredentialsLaws.PublicFile | src-tauri/src/enroll.rs:108 | the public key file changes exactly if the private key was written |
| CredentialsLaws.CertificateFile | src-tauri/src/enroll.rs:106-181 | the certificate is written exactly if the service signed, and the old one is gone before that exactly if it could be removed |
| CredentialsLaws.HostsFile | src-tauri/src/enroll.rs:190-203 | the host key is pinned exactly if the certificate was written and one was given |
| CredentialsLaws.RecordFile | src-tauri/src/enroll.rs:205-229 | the record is written exactly if all of that was, with the serial stated or 0 |
| CredentialsLaws.SucceedsIff | src-tauri/src/enroll.rs:148-231 | an enrolment succeeds exactly if every step of it does |
| CredentialsLaws.SignedOut | src-tauri/src/enroll.rs:234-244 | a sign-out removes each file exactly if its own removal succeeds |
| CredentialsLaws.Session | src-tauri/src/enroll.rs:87-244 | over any sequence of enrolments and sign-outs the pair matches at every step exactly when no enrolment was left with a certificate it could not remove |
| CredentialsLaws.SessionAfterRepair | src-tauri/src/enroll.rs:87-244 | from any directory, a mismatched one included, the next certificate written makes the pair usable, and from then on it matches at every step under the same condition |
| CredentialsLaws.SuccessIsComplete | src-tauri/src/enroll.rs:184-230 | after success key, certificate, pin and record are there, and the record's serial is the certificate's exactly when the service said so |
| CredentialsLaws.FailureKeepsTheOldPairIff | src-tauri/src/enroll.rs:101-181 | a failed enrolment keeps the old pair exactly when it stopped before the files or could touch neither |
| CredentialsLaws.StaleExample | src-tauri/src/enroll.rs:102-106 | a directory on which the mismatch happens |
| Hardening.PiecesAppend | server/custom-cont-init.d/10-tunnel-hardening.sh:23-36 | lines written one after the other read back as those lines |
| HardeningBoots.Grep | server/custom-cont-init.d/10-tunnel-hardening.sh:23-24 | the survivors of the filter, and whether there are any |
| HardeningBoots.ConfigFile.Patch | server/custom-cont-init.d/10-tunnel-hardening.sh:17-36 | one run, with the file left alone by `grep` when nothing survives |
| HardeningLaws.OneMoreRun | server/custom-cont-init.d/10-tunnel-hardening.sh:17-36 | a run on a hardened file keeps the survivors, adds a blank and a marker, and renews the block |
| HardeningBoots.ConfigFile.Boots | server/custom-cont-init.d/10-tunnel-hardening.sh:17-36 | the exact text after any number of starts, from any file |
| HardeningBoots.ConfigFile.BootsConverge | server/custom-cont-init.d/10-tunnel-hardening.sh:21-38 | exactly one line for each key, and sshd reads the managed value, from the second start on; at the first exactly when the file is empty or some line survives |
| HardeningBoots.ConfigFile.Harden | server/custom-cont-init.d/10-tunnel-hardening.sh:22-36 | with the script's own settings sshd reads the eight values for the eight keys, under the same condition |
| HardeningEffect.SettledIsOneEach | server/custom-cont-init.d/10-tunnel-hardening.sh:22-36 | every hardened file has one line for each key and the managed value |
| HardeningEffect.OldValueStays | server/custom-cont-init.d/10-tunnel-hardening.sh:23-36 | a first run on a file in which nothing survives leaves every old value in force |
| HardeningBoots.OldRootLoginExample | server/custom-cont-init.d/10-tunnel-hardening.sh:23-36 | a file on which sshd still permits root logins after the first start |
| HardeningBoots.EveryBootAddsTwoLines | server/custom-cont-init.d/10-tunnel-hardening.sh:22-36 | the file grows by two lines at every further start |
| HardeningSettings.SettingsWellFormed | server/custom-cont-init.d/10-tunnel-hardening.sh:23-35 | the script's eight settings meet the conditions of these laws |
| HardeningSettings.BlockLines | server/custom-cont-init.d/10-tunnel-hardening.sh:25-36 | the ten lines appended |
| HardeningSettings.IsForIff | server/custom-cont-init.d/10-tunnel-hardening.sh:23 | the filter takes a line for a key exactly if the pattern matches: `#` and white space, the key in any case, white space |
| ConnectedApps.Group | src-tauri/src/tunnel.rs:473-488 | every process with a qualifying row, with its ports in the order of the rows |
| ConnectedApps.ConnectsIff | src-tauri/src/tunnel.rs:473-484 | a row is taken, for a process and with a port, exactly if it says so: established, into our listener, a process number, and the number after the last colon, or 0 |
| ConnectedApps.PortsAreTheRows | src-tauri/src/tunnel.rs:473-484 | a port is listed for a process as often as a row says so |
| ConnectedApps.ConnectedApps | src-tauri/src/tunnel.rs:455-520 | each process once, its ports sorted and each as often as a row says so, busiest first, and as many ports in all as qualifying rows |
| ConnectedApps.Conserved | src-tauri/src/tunnel.rs:471-488 | the ports over distinct processes that cover the rows are as many as the qualifying rows |
| ConnectedApps.CountsAddUp | src-tauri/src/tunnel.rs:506-518 | below 2^32 rows the 32-bit counts add up to the rows |

## Left out

- Real sockets, process launching and command lines, `reg`, `tasklist`, `netstat`, `schtasks`, `icacls`: their results are parameters; killing and waiting succeed.
- A timed-out probe takes no time of its own in the supervisor's clock; time may pass at any moment, so no upper bound is claimed.
- Nothing is claimed about a spawn or a `Connected` right after `stop` returns: the code allows one more of each.
- TunnelOwnership.OneOwner: assumes that no start takes effect while an earlier thread is in its loop; `StartKeepsOwnershipIff` shows the assumption is exact.
- TunnelExit.ExitIsStopped: assumes that every start waits for the earlier thread to return, because an older thread on its way out may still publish.
- JWT parsing and signatures, SHA-256, randomness, JSON, UTF-8 repair (`from_utf8_lossy`), the HTTP request line, the sign-in listener's own timeout.
- Percent.PercentDecode: a panic is an outcome; what the caller of the panicking thread sees is not modelled.
- DeviceFlow.RequestsBounded: assumes that the system clock is not set back while polling; set back often enough, it would allow any number of requests.
- DeviceFlow.Poll: the interval is unbounded, where the original's 64-bit interval would overflow; the deadline does wrap.
- Redirect.AuthorizeUrl: `scopes` and `resource` come in already trimmed.
- A jump nested deeper than the evaluator's bound is not taken; every result holds for every bound that leaves room for the hook.
- EgressRules.OthersUnaffected: assumes that nothing but the hook jumps to the chain, in the states compared.
- Firewall commands fail only for the reasons modelled (chain missing, present, not empty or in use; no such rule); the user id is fixed over all runs.
- The lock file, the configuration file and the counting output of the egress script.
- Public-key parsing and the certificate lifetime of the enrolment service: the first is one field of a request, the second would only add easy members.
- EnrollSerials.SerialsStrictlyIncrease: no worker dies inside the critical section; Python's underscores, non-ASCII digits and wider white space in a serial file are not read as part of a number.
- RateLimit.Limiter.Admit: one call at a time, and a clock that does not go backwards; instants are real numbers.
- PrefsLaws.PrefsStore.Apply: a write is cut short between characters, not inside one, and a copy of a file that is no text is no text; the paths, and whether Spotify is running, are not modelled.
- Credentials.Store.Enroll: a certificate is a key and a serial, and the service signs the key it was sent; times of expiry and the host's other details are not modelled.
- Concurrent enrolments in one directory.
- AddressSets.Resolve: a set never runs into its size limit, so every add succeeds.
- HardeningEffect.SettledIsOneEach: assumes a configuration file without `Include` lines, which sshd would read in their place.
- sshd `Match` blocks and `key=value` lines, which the filter does not handle; a second configuration path, which is the same code.
- ConnectedApps.ConnectedApps: rows come as fields and names as a map; a sort stands for any sort.
- Tauri commands, tray, updater and the web interface; `net.rs`, `config.rs`, `pageant.rs`, `autostart.rs` and the relay's constructor, which would only add easy members.
