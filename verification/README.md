# Verified models of the ployz cluster tooling

This project models the parts of ployz whose behaviour is a protocol, an algorithm or a codec, and proves what
they promise for every input, every run or every reachable state.

| modules | what they model |
|---|---|
| `IpPrefixes`, `IpAllocation`, `IpProperties` | CIDR prefixes for IPv4 and IPv6 and the first-fit subnet allocator |
| `BackendConnection`, `BackendProtocol`, `BackendService`, `BackendRecovery` | the connection life cycle of a remote proxy backend, all its tasks interleaved, what its callers get, and when it can recover |
| `Signals`, `WakeUps`, `FiringOrder`, `PollAnswers`, `PollProgress`, `Completions`, `Admission`, `AdmissionOutcomes` | the spinner's one-shot signals, its wake-ups and polls, who may run the action, and what is reported |
| `Changes`, `ChangeProperties` | query rows and the change stream that resumes after failures |
| `Payload`, `Broadcast`, `BroadcastProperties` | varints, response envelopes, and the broadcast that merges them |
| `Frames` | the cancellation-safe frame reader of the admin socket |
| `GoSpace`, `ColonFile` | trimming, and the reader of `/etc/passwd` and `/etc/group` |
| `ScanLines` | the bounded line scanner of the journal |
| `Calendar` | days and nanoseconds since the epoch as dates and times |
| `Versions`, `VersionProperties` | protocol versions: parsing, writing, precedence |
| `Bits`, `Sequences`, `ByteStrings`, `Wrappers` | arithmetic of bit masks, finding and joining, bytes in lines and chunks, options and results |

How to read it:

- Code that updates state in place is a class or a method with loops, proved equal to a function on values; the
  properties are lemmas about that function.
- A concurrent protocol is a state machine: `Next(s, step)` takes one atomic action or one critical section, and
  does nothing if the step is not enabled; `Run(steps)` is any interleaving. Every result is about `Run(steps)`
  for all `steps`.
- Masks and shifts of the source are kept as bit operations; the functions that use them state their meaning in
  interval arithmetic, and all further results are about intervals.

## Findings

- `allocate_subnet` tests the address it is given and the last address of the block, not the masked base. A prefix
  shorter than the network's can therefore be accepted although it reaches out of the network
  (`ShorterPrefixEscapes`). An accepted block lies inside exactly if its prefix is at least as long
  (`AcceptedInsideIff`), and always if its address is masked (`MaskedIsInside`).
- A section that stores `Backoff` registers its reconnect task under a second acquisition of the lock. When two such
  sections overlap, the first task can connect before the second registers (`LateRegistrationHappens`). The second
  task's turn then moves the generation past the channel's stream, so losing that stream no longer removes the
  channel. The connector dials only while no channel is installed, so the task can never replace it: every caller is
  handed a channel without a stream until the backend is closed (`LateRegistrationStrands`, `DeadForGood`).
  Every state of a run is as the design wants if and only if no registration in it finds a channel installed, which
  the registering section sees under the lock (`AsDesignedIff`). An open backend can still come to a live channel if
  and only if it does not hold a dead one (`RecoversIff`). Neither can go wrong in a run that loses no stream of a
  failed initial connect after the failure (`SafeWithoutLateLoss`).
- The unary rewrite of a response takes everything behind the first header as the message, whatever length that
  header declares. It keeps the message exactly if the header covers the rest (`RewriteKeepsMessageIff`);
  two empty messages become one (`RewriteMergesMessages`).
- `encode_frame` cuts lengths to 32 bits. A frame is read back exactly if it is shorter than 2^32 bytes
  (`FrameRoundTripIff`); one of just that length is read as an empty one (`LongestFrameLosesLength`).
- Against a faithful server a change stream delivers one contiguous segment of the log (`DeliversSegment`). From a
  nonzero ID the segment starts at the next change (`DeliversLogPrefix`). From ID 0 it may start anywhere: a
  resubscribe from 0 skips whatever the fresh snapshot covers (`ZeroStartSkipsSnapshot`).
- `trailing_space_len` takes the first position among the last four bytes from which the rest is UTF-8, not the
  last character. A space of several bytes at the end of a line is kept behind ASCII text
  (`WideSpaceTrimmedIff` and `NarrowSpaceTrimmedIff` say exactly when it is taken away, `IdeographicSpaceKept` is a
  line that keeps it).
- Two versions are each less than the other exactly if they first differ in two spellings of one 64-bit number
  (`BothLessIff`); 1.0.0-1 and 1.0.0-01 are such a pair (`LeadingZeroIsLessBothWays`).
- Numeric identifiers past 64 bits are compared as text. Precedence is that of section 11 of Semantic Versioning 2.0.0
  exactly if two versions do not first differ in such a number whose text order misleads (`LessThanIsSemverIff`). It
  does for 1.0.0-100000000000000000000 and 1.0.0-99999999999999999999, and a whole family with them
  (`HugeNumbersAsText`).

## Model

| member | source | states |
|---|---|---|
| IpPrefixes.Masked | crates/ployz-internal-machine-cluster/src/ipam.rs:37-42 | masking moves the address to the lowest one of the block and changes neither the block nor its size |
| IpPrefixes.Contains | crates/ployz-internal-machine-cluster/src/ipam.rs:45-48 | comparing masked values is membership in the block's interval, for the same family only |
| IpPrefixes.LastAddress | crates/ployz-internal-machine-cluster/src/ipam.rs:50-53 | setting the host bits gives the highest address of the interval |
| IpPrefixes.Overlaps | crates/ployz-internal-machine-cluster/src/ipam.rs:55-58 | testing each masked base against the other block is intersection of the two intervals |
| IpPrefixes.MeetsIsIntersection | crates/ployz-internal-machine-cluster/src/ipam.rs:55-58 | two blocks meet if and only if some address belongs to both |
| IpAllocation.Create | crates/ployz-internal-machine-cluster/src/ipam.rs:135-143 | a network of prefix length 0 is refused, and any other gives an allocator that holds the masked network and nothing else |
| IpAllocation.Ipam.AllocateSubnetLen | crates/ployz-internal-machine-cluster/src/ipam.rs:158-180 | the loop over addresses, with its stop at the top address, grants what the search on values finds, and changes nothing when it fails |
| IpAllocation.Ipam.AllocateSubnet | crates/ployz-internal-machine-cluster/src/ipam.rs:182-191 | an explicit prefix is appended or refused with the right error, and a refusal changes nothing |
| IpAllocation.BuildWithAllocated | crates/ployz-internal-machine-cluster/src/ipam.rs:145-156 | replays the prefixes in order and stops at the first refusal |
| IpProperties.FirstFitExact | crates/ployz-internal-machine-cluster/src/ipam.rs:158-180 | the granted block is the lowest aligned block of that size in the network that meets no allocated one; none is granted if and only if every aligned block meets one |
| IpProperties.RefusedExactly | crates/ployz-internal-machine-cluster/src/ipam.rs:158-191 | a block is refused as outside exactly if its own or its last address is, as overlapping exactly if it shares an address with an allocated one, and a length exactly if it does not fit |
| IpProperties.RunKeepsInvariant | crates/ployz-internal-machine-cluster/src/ipam.rs:134-191 | after any requests the blocks are pairwise disjoint, of the network's family, and each has its address and last address in the network |
| IpProperties.AcceptedInsideIff | crates/ployz-internal-machine-cluster/src/ipam.rs:182-191 | an accepted block lies inside the network if and only if its prefix is at least as long |
| IpProperties.ShorterPrefixEscapes | crates/ployz-internal-machine-cluster/src/ipam.rs:182-191 | a prefix that is accepted and yet covers an address out of the network |
| IpProperties.MaskedIsInside | crates/ployz-internal-machine-cluster/src/ipam.rs:182-191 | an accepted prefix with a masked address lies inside |
| IpProperties.GrantsFitNetwork | crates/ployz-internal-machine-cluster/src/ipam.rs:158-191 | the sizes of blocks that are masked or long enough sum to at most the network's size |
| IpProperties.DisjointInAnyOrder | crates/ployz-internal-machine-cluster/src/ipam.rs:145-156 | disjointness of a list does not depend on its order |
| IpProperties.RebuildSucceeds | crates/ployz-internal-machine-cluster/src/ipam.rs:145-156 | any permutation of a reachable allocation list is replayed without error into exactly that list |
| IpProperties.Capacity | crates/ployz-internal-machine-cluster/src/ipam.rs:135-180 | a fresh allocator grants exactly 2^(bits - network bits) blocks of one length, the k-th at base + k * size, and then fails |
| BackendConnection.ConnectionState.Admit | crates/ployz-internal-machine-api-proxy/src/backend.rs:281-314 | a served caller gets the installed channel and a refusal means closed; who starts the initial connect has a generation of its own and makes the next caller wait; all others change nothing |
| BackendConnection.ConnectionState.FinishConnect | crates/ployz-internal-machine-api-proxy/src/backend.rs:318-340 | only the current attempt in the initial phase of an open backend installs, and then the next caller is served this stream; any other attempt leaves no trace |
| BackendConnection.ConnectionState.FailConnect | crates/ployz-internal-machine-api-proxy/src/backend.rs:341-364 | a current attempt that failed makes callers hear that the backend is reconnecting; any other changes nothing |
| BackendConnection.ConnectionState.ReleaseGuard | crates/ployz-internal-machine-api-proxy/src/backend.rs:569-585 | the initial phase is over afterwards, and if it was given up here the next caller starts a connect of its own |
| BackendConnection.ConnectionState.Register | crates/ployz-internal-machine-api-proxy/src/backend.rs:424-438 | a registered task is never replaced; a task runs exactly if it becomes the registered one, which in an open backend without one it does |
| BackendConnection.ConnectionState.NextAttempt | crates/ployz-internal-machine-api-proxy/src/backend.rs:386-396 | a new attempt, unless closed, has a larger generation than every earlier one |
| BackendConnection.ConnectionState.InstallReconnected | crates/ployz-internal-machine-api-proxy/src/backend.rs:397-420 | only the current attempt of an open backend installs; then no task is registered and the next caller is served this stream |
| BackendConnection.ConnectionState.LoseStream | crates/ployz-internal-machine-api-proxy/src/backend.rs:480-503 | a loss matters exactly if its attempt is current in an open backend; it then takes the channel away, moves on so that a second loss does not matter, and asks for a task exactly if none is registered |
| BackendConnection.ConnectionState.Shut | crates/ployz-internal-machine-api-proxy/src/backend.rs:149-161 | callers are refused and no section whatever changes the state again |
| BackendConnection.SectionsKeep | crates/ployz-internal-machine-api-proxy/src/backend.rs:89-161 | any sequence of critical sections keeps the state consistent, never takes a generation back and never reopens |
| BackendConnection.SupersededForGood | crates/ployz-internal-machine-api-proxy/src/backend.rs:276-503 | once the generation has moved on, whatever follows, the older attempt can neither dial, install, fail into backoff nor take a channel away |
| BackendProtocol.ReachableInvariant | crates/ployz-internal-machine-api-proxy/src/backend.rs:276-503 | with every critical section, notification and registration a step of its own, the invariant over callers, tasks, streams and the lock-guarded fields holds in every interleaving |
| BackendProtocol.ChannelIsLive | crates/ployz-internal-machine-api-proxy/src/backend.rs:276-503 | in every run an installed channel means open, idle, and, unless a task is registered beside it, an open stream of the current generation |
| BackendProtocol.LossIsExact | crates/ployz-internal-machine-api-proxy/src/backend.rs:480-503 | losing a current stream removes the channel in that step and leaves a registered task or one more to be registered; losing an older one, or any after close, changes nothing else |
| BackendProtocol.OneInitialConnect | crates/ployz-internal-machine-api-proxy/src/backend.rs:281-366 | at most one initial connect is in flight, and the phase says so exactly |
| BackendProtocol.BackoffHasOneTask | crates/ployz-internal-machine-api-proxy/src/backend.rs:373-438 | in an open backend the tasks that run are exactly the registered one; in backoff there is one or a registration is owed |
| BackendProtocol.RegistrationStartsTask | crates/ployz-internal-machine-api-proxy/src/backend.rs:424-438 | an owed registration in an open backend leaves exactly one task registered and running, the earlier one if there is one |
| BackendProtocol.WaitersAreWoken | crates/ployz-internal-machine-api-proxy/src/backend.rs:281-365 | a caller that waits while no connect is in flight and no notification is owed can wake up |
| BackendProtocol.InitialConnectNeverRecurs | crates/ployz-internal-machine-api-proxy/src/backend.rs:281-365 | after the first backoff or channel no run enters the initial connect again |
| BackendProtocol.ClosedServesNobody | crates/ployz-internal-machine-api-proxy/src/backend.rs:149-161 | after close every later state has no channel and serves no further caller |
| BackendService.CheckAnswers | crates/ployz-internal-machine-api-proxy/src/backend.rs:281-314 | in every reachable state a caller that looks is handed the installed channel if there is one; without one it fails exactly if the backend is closed or in backoff, waits exactly if a connect is in flight, and otherwise connects under a new generation; nobody else is touched |
| BackendService.SuccessAnswers | crates/ployz-internal-machine-api-proxy/src/backend.rs:318-340 | a finished connect is installed and handed to its caller exactly if its attempt is still in flight in an open backend, and otherwise changes nothing |
| BackendService.FailureAnswers | crates/ployz-internal-machine-api-proxy/src/backend.rs:341-364 | a caller whose connect failed fails, and moves the backend to backoff, with a task to start, exactly if its attempt was still in flight |
| BackendService.TaskAnswers | crates/ployz-internal-machine-api-proxy/src/backend.rs:386-423 | a reconnect task dials under a new generation unless closed; it installs its stream, ends and notifies exactly if no later attempt was made in an open backend, and otherwise sleeps again |
| BackendService.ServedWasInstalled | crates/ployz-internal-machine-api-proxy/src/backend.rs:276-340 | whoever is served in a run was served a channel that was installed in some earlier state of it |
| BackendService.AnswersAreFinal | crates/ployz-internal-machine-api-proxy/src/backend.rs:276-366 | an answer, served or failed, is the same in every later state |
| BackendService.CancelEnds | crates/ployz-internal-machine-api-proxy/src/backend.rs:569-585 | a caller that gives up fails alone, and no initial connect of its own is left in flight |
| BackendService.CallersAreAnswered | crates/ployz-internal-machine-api-proxy/src/backend.rs:276-366 | from every reachable state every caller can still be served or refused, without a close and without anybody giving up |
| BackendService.NotificationsArePaid | crates/ployz-internal-machine-api-proxy/src/backend.rs:569-585 | every owed notification is sent once |
| BackendService.HandOffsArePaid | crates/ployz-internal-machine-api-proxy/src/backend.rs:359-362 | every owed hand-off notifies once and leaves one registration to make |
| BackendService.CloseCloses | crates/ployz-internal-machine-api-proxy/src/backend.rs:149-161 | after a close, whenever it comes and whatever follows, no channel and no task is there, and waiters have been notified |
| BackendProtocol.AsDesignedIff | crates/ployz-internal-machine-api-proxy/src/backend.rs:352-361 | in all states of a run a channel means open, idle, no task and an open current stream, if and only if no registration of that run finds a channel installed |
| BackendRecovery.LateRegistrationStrands | crates/ployz-internal-machine-api-proxy/src/backend.rs:424-438 | from every state in which a registration finds a channel, the task's turn and the loss of the channel's stream leave that channel installed and dead, and in every continuation without a close callers are handed it |
| BackendProtocol.LateRegistrationHappens | crates/ployz-internal-machine-api-proxy/src/backend.rs:352-361 | a run of the code's own steps that reaches such a state |
| BackendRecovery.DeadForGood | crates/ployz-internal-machine-api-proxy/src/backend.rs:105-113 | in every run, once an installed channel has lost its stream, every continuation without a close keeps it and hands it to callers |
| BackendRecovery.RecoversIff | crates/ployz-internal-machine-api-proxy/src/backend.rs:276-503 | from an open state some continuation without a close installs a channel whose stream is open, if and only if no channel without a stream is installed |
| BackendRecovery.SafeWithoutLateLoss | crates/ployz-internal-machine-api-proxy/src/backend.rs:341-364 | a run that loses no stream of a failed initial connect after the failure owes at most one registration at a time, is as the design wants throughout, and can recover from every open state |
| Signals.WakerList.Push | crates/ployz-internal-cli-tui/src/spinner.rs:655-669 | the list of pairs acts as a map from waiters to wakers: a waiter's waker is replaced or added |
| Signals.WakerList.Remove | crates/ployz-internal-cli-tui/src/spinner.rs:671-674 | exactly the waiter's entry goes |
| Signals.WakerList.Drain | crates/ployz-internal-cli-tui/src/spinner.rs:638-649 | all wakers come out and the list is empty |
| WakeUps.ReachableInvariant | crates/ployz-internal-cli-tui/src/spinner.rs:637-725 | with number, compare-exchange, drain, register, unregister and the loads of a poll as single steps, the invariant holds in every interleaving |
| WakeUps.NoLostWakeUp | crates/ployz-internal-cli-tui/src/spinner.rs:637-725 | a waiter whose poll answered pending is woken once any of its signals has finished firing |
| WakeUps.FiredIsDrained | crates/ployz-internal-cli-tui/src/spinner.rs:638-649 | a fired signal is drained or some firer is about to drain it |
| WakeUps.HolderCanMove | crates/ployz-internal-cli-tui/src/spinner.rs:655-674 | whoever holds a list's lock can always move on |
| WakeUps.GoneLeavesNoEntry | crates/ployz-internal-cli-tui/src/spinner.rs:694-725 | a finished or dropped waiter has no entry in any signal |
| WakeUps.FirstNumberStays | crates/ployz-internal-cli-tui/src/spinner.rs:638-653 | the first number that a signal publishes is its number in every later state |
| FiringOrder.NumbersAreUnique | crates/ployz-internal-cli-tui/src/spinner.rs:638-653 | over every run no number is taken twice and no two signals publish the same one |
| FiringOrder.FiringPublishes | crates/ployz-internal-cli-tui/src/spinner.rs:638-653 | firing a silent signal publishes a number above all published or taken before, so that signals are ordered as their firing began; firing again changes nothing |
| FiringOrder.FiringWakes | crates/ployz-internal-cli-tui/src/spinner.rs:638-649 | then its list is empty and exactly the listed wakers are woken |
| PollAnswers.ReadyMeansFired | crates/ployz-internal-cli-tui/src/spinner.rs:707-725 | over every run a waiter that answered, and was not dropped, has a signal that fired |
| PollAnswers.AnswersUnlessPolled | crates/ployz-internal-cli-tui/src/spinner.rs:707-725 | a signal fired at any time before the last look of a poll makes it answer: until it is polled again the waiter never sleeps, whatever the others do |
| PollAnswers.PolledAfterFireAnswers | crates/ployz-internal-cli-tui/src/spinner.rs:707-725 | if one of its signals fired before a poll, no continuation without another poll has that waiter pending |
| PollAnswers.PollBringsNewWaker | crates/ployz-internal-cli-tui/src/spinner.rs:707-725 | the waker of a poll has never been woken, is listed nowhere and is no other waiter's, so a wake-up of it is one of this poll |
| PollAnswers.WokenMeansFired | crates/ployz-internal-cli-tui/src/spinner.rs:637-725 | over every run the waker of a poll is woken only after a signal of its waiter has fired |
| PollProgress.PollEnds | crates/ployz-internal-cli-tui/src/spinner.rs:694-725 | from every reachable state a poll or clean-up comes to its end by actions of waiters alone: no lock is waited for in a circle |
| PollProgress.PollAnswersRight | crates/ployz-internal-cli-tui/src/spinner.rs:707-725 | with nothing more fired a poll is ready, and its waiter gone, exactly if one of its signals had fired before it, and pending otherwise |
| PollProgress.FirstPoll | crates/ployz-internal-cli-tui/src/spinner.rs:681-725 | a new waiter that is polled at once is ready exactly if one of the signals that it was made for has fired |
| Completions.NoLostOutcome | crates/ployz-internal-cli-tui/src/spinner.rs:607-629 | a pending poll is woken once an outcome is stored and its completer has returned |
| Completions.FirstOutcomeWins | crates/ployz-internal-cli-tui/src/spinner.rs:607-629 | over every run the future answers with the outcome that was stored first, which until then stays stored |
| Completions.PollByItself | crates/ployz-internal-cli-tui/src/spinner.rs:607-629 | an undisturbed poll answers exactly if an outcome was stored, and otherwise leaves a waker that nobody has woken |
| Completions.CompletionByItself | crates/ployz-internal-cli-tui/src/spinner.rs:607-616 | a completing thread comes to its end; its outcome is stored exactly if none was, and then a sleeping poll is woken |
| Completions.WokenMeansStored | crates/ployz-internal-cli-tui/src/spinner.rs:607-629 | over every run nobody is woken before an outcome is stored |
| Admission.FirstSignalIsLeast | crates/ployz-internal-cli-tui/src/spinner.rs:736-754 | the winner is the published signal with the least number; none exactly if none is published |
| Admission.AnswersNeverChange | crates/ployz-internal-cli-tui/src/spinner.rs:736-762 | admission and winner, once decided, are the same in every later state |
| Admission.ActionRunsOnlyWhenFirst | crates/ployz-internal-cli-tui/src/spinner.rs:213-233 | an action that runs had its start before cancellation and drop, and one that was refused had not, for good |
| Admission.ReportNamesFirst | crates/ployz-internal-cli-tui/src/spinner.rs:510-538 | what the driver reports names the signal that came first, and a winning action has a stored result |
| Admission.EarlyFailureNeverRuns | crates/ployz-internal-cli-tui/src/spinner.rs:461-471 | after a failure reported before start fired the action never runs |
| Admission.OutcomeArrives | crates/ployz-internal-cli-tui/src/spinner.rs:495-508 | a driver that waits for an outcome gets one: the worker can move until a racing signal has fired, and five of its steps suffice |
| AdmissionOutcomes.ReportsAreDue | crates/ployz-internal-cli-tui/src/spinner.rs:369-538 | over every run a panic is reported only if the driver panicked, an I/O error only if setup failed first or before start fired, both only with the dropped signal fired, a result only once taken, and nothing only if a drop came first |
| AdmissionOutcomes.DecisionIsReported | crates/ployz-internal-cli-tui/src/spinner.rs:510-538 | a driver that has read all five signals to decide goes on to report the result, the cancellation, the interruption or the setup failure by the least number, and nothing if that is the drop |
| AdmissionOutcomes.RaceIsReported | crates/ployz-internal-cli-tui/src/spinner.rs:510-538 | the same from the first of the five reads, with nobody interfering |
| AdmissionOutcomes.BreakdownIsReported | crates/ployz-internal-cli-tui/src/spinner.rs:253-267 | a driver or frame clock that cannot start and a driver that panics are reported as such, and the spinner counts as dropped |
| AdmissionOutcomes.ViewComesUp | crates/ployz-internal-cli-tui/src/spinner.rs:384-391 | a driver and frame clock that start bring up the first view and change nothing else |
| AdmissionOutcomes.EndedViewIsReported | crates/ployz-internal-cli-tui/src/spinner.rs:396-414 | a view ends in success only after a signal, and then the first one is reported |
| AdmissionOutcomes.FailedView | crates/ployz-internal-cli-tui/src/spinner.rs:461-508 | a view that fails before start is reported at once; later a fired signal is decided on, and without one the first view is replaced by a silent one and behind that the driver awaits the outcome |
| AdmissionOutcomes.ViewAsks | crates/ployz-internal-cli-tui/src/spinner.rs:934-949 | a view fires start exactly if it had not fired, the terminal is ready and neither cancellation nor drop has come, and then the action is admitted; an unready terminal fires setup failure |
| AdmissionOutcomes.WorkerDecides | crates/ployz-internal-cli-tui/src/spinner.rs:213-227 | the blocked worker stays blocked while none of its signals fired, and then runs the action exactly if it is admitted |
| AdmissionOutcomes.ActionAnnounces | crates/ployz-internal-cli-tui/src/spinner.rs:228-232 | the result is stored before the signal of the action fires |
| AdmissionOutcomes.NeverStuck | crates/ployz-internal-cli-tui/src/spinner.rs:369-538 | from every reachable state the spinner comes to its end by at most 48 moves of its own |
| Changes.Rows.Next | crates/ployz-internal-corrosion/src/query.rs:347-416 | a row is the one of the next event, has the declared width and uses up that event; an error and an end are final, and then calls change nothing |
| ChangeProperties.RowsInOrder | crates/ployz-internal-corrosion/src/query.rs:347-416 | any number of calls answers the leading rows of the declared width, each with its values, in order, then one error unless a clean end follows, and then nothing |
| Changes.RequestOnce | crates/ployz-internal-corrosion/src/query.rs:255-296 | one resubscribe: the response's events, or, from ID 0, what follows its drained snapshot |
| ChangeProperties.ResubscribeIff | crates/ployz-internal-corrosion/src/query.rs:255-296 | a resubscribe hands on the whole response from a nonzero ID, and from 0 exactly what follows its first end-of-query event behind rows of the declared width; it fails in every other case, as not found exactly for that status |
| Changes.ChangeStream.Next | crates/ployz-internal-corrosion/src/query.rs:601-694 | one call, dropped after any number of its waits, does to the fields what the function on values says |
| ChangeProperties.ConsecutiveAgainstAnyServer | crates/ployz-internal-corrosion/src/query.rs:601-698 | whatever the server sends, after a nonzero ID the next delivered one is that ID plus one modulo 2^64 |
| ChangeProperties.OneErrorThenNothing | crates/ployz-internal-corrosion/src/query.rs:601-698 | a run returns at most one error, and after it, and only after it, the end |
| ChangeProperties.FaithfulCall | crates/ployz-internal-corrosion/src/query.rs:601-698 | one call against a faithful server delivers a change of the log, the very next one unless the stream stood at 0, or none, and keeps the server's promise |
| ChangeProperties.DeliversSegment | crates/ployz-internal-corrosion/src/query.rs:601-698 | from any ID, zero too, the changes delivered by any run against a faithful server are one contiguous segment of the log that ends where the stream stands |
| ChangeProperties.DeliversLogPrefix | crates/ployz-internal-corrosion/src/query.rs:601-698 | from a nonzero ID the changes delivered by any run are a prefix of the log after it |
| ChangeProperties.DeliversResponse | crates/ployz-internal-corrosion/src/query.rs:601-680 | against a faithful server, calls that are not dropped deliver the changes of the response at hand one by one, all of them up to where it breaks |
| ChangeProperties.ResubscribeDeliversAll | crates/ployz-internal-corrosion/src/query.rs:601-694 | a stream that must resubscribe, with failures that allow another try and then a faithful response, delivers the changes of that response one by one; from a nonzero ID the first is the next one of the log |
| ChangeProperties.ResubscribeGivesUp | crates/ployz-internal-corrosion/src/query.rs:601-694 | a resubscribe that is refused for good, after any number of tries that may be repeated, ends the stream with its one error |
| ChangeProperties.BreakIsNoticed | crates/ployz-internal-corrosion/src/query.rs:601-680 | an event that is no change or not the expected one, and the end of a response, make the stream ask again, or fail if it does not resubscribe |
| ChangeProperties.StartsAfterSnapshot | crates/ployz-internal-corrosion/src/query.rs:534-568 | a stream made from finished rows starts behind the first end-of-query event, at the ID that it names |
| ChangeProperties.ZeroStartSkipsSnapshot | crates/ployz-internal-corrosion/src/query.rs:255-296 | for every log and every snapshot of it, a faithful server and a run from 0 that delivers first the change behind the snapshot, so the changes before it never come |
| Payload.ConsumeVarint | crates/ployz-internal-machine-api-proxy/src/payload.rs:138-150 | the shifting loop reads the little-endian number of base 128 that the leading bytes spell, at most ten, or the right error |
| Payload.EncodeVarint | crates/ployz-internal-machine-api-proxy/src/payload.rs:152-158 | the loop appends the groups of seven bits, lowest first |
| Payload.VarintRoundTrip | crates/ployz-internal-machine-api-proxy/src/payload.rs:138-158 | every 64-bit value, followed by any bytes, is read back from at most ten bytes |
| Payload.ConsumeIsLossless | crates/ployz-internal-machine-api-proxy/src/payload.rs:138-150 | an accepted varint is the 64-bit value of exactly the bytes consumed |
| Payload.AppendMachineInfo | crates/ployz-internal-machine-api-proxy/src/payload.rs:31-69 | the rewriting of a response, streamed or unary, with all its errors |
| Payload.ConcatenationDecodes | crates/ployz-internal-machine-api-proxy/src/payload.rs:31-69 | concatenated envelopes decode to exactly the list of their bodies |
| Payload.RewrittenIsOneMessage | crates/ployz-internal-machine-api-proxy/src/payload.rs:31-69 | an accepted unary result is one field whose declared length is that of its body, the old body followed by the metadata |
| Payload.RewriteKeepsMessageIff | crates/ployz-internal-machine-api-proxy/src/payload.rs:31-69 | the response's message survives if and only if its header covers the rest of the response |
| Payload.RewriteMergesMessages | crates/ployz-internal-machine-api-proxy/src/payload.rs:31-69 | a response of two empty messages becomes a single message |
| Broadcast.RunBroadcastBackend | crates/ployz-internal-machine-api-proxy/src/lib.rs:832-913 | the events of one backend: metadata before the first message, its messages rewritten, then trailers, or one error envelope, or a fatal failure, and always one end |
| Broadcast.OneToMany | crates/ployz-internal-machine-api-proxy/src/lib.rs:462-581 | an empty list of backends is refused; otherwise the event loop reads up to the first moment that enough backends finished, the request failed or the deadline passed, and answers accordingly |
| Broadcast.PumpRequestMany | crates/ployz-internal-machine-api-proxy/src/lib.rs:642-664 | every destination receives a prefix of the requests, all of them if it stays; the pump fails if and only if the stream breaks while somebody listens |
| BroadcastProperties.FinishesOnce | crates/ployz-internal-machine-api-proxy/src/lib.rs:832-913 | a backend's last event is its only end, and it is fatal at most once |
| BroadcastProperties.StopIsFirst | crates/ployz-internal-machine-api-proxy/src/lib.rs:510-545 | the loop stops at the first moment that enough backends finished, or at the first failed request or passed deadline, and not before |
| BroadcastProperties.StopsWhenAllFinished | crates/ployz-internal-machine-api-proxy/src/lib.rs:503-536 | in every interleaving the loop goes on while some backend has not finished, and stops when all have, having read everything |
| BroadcastProperties.BroadcastOutcome | crates/ployz-internal-machine-api-proxy/src/lib.rs:503-581 | without a fatal backend the payloads are returned in arrival order, otherwise the failure counts the fatal backends; header and trailer entries come in arrival order either way |
| BroadcastProperties.FailureReasons | crates/ployz-internal-machine-api-proxy/src/lib.rs:503-581 | the reason is the deadline or the request exactly if that was read before all backends finished, the request also if its pump had not succeeded by then and fails late, and otherwise the fatal backends; headers and trailers read so far come with it |
| BroadcastProperties.BackendMetadata | crates/ployz-internal-machine-api-proxy/src/lib.rs:832-913 | a backend sends the headers of its exchange first, exactly if there is a message, and the trailers last before the end, exactly if it completes with some and every message could be passed on |
| BroadcastProperties.MergedDecodes | crates/ployz-internal-machine-api-proxy/src/lib.rs:503-581 | the merged payload decodes to messages of which each machine's share, in order, is its labelled messages and then exactly one error if it failed |
| Frames.AdminResponses.ReadFrame | crates/ployz-internal-corrosion/src/admin.rs:213-257 | one call, however its reads are split, broken or abandoned, returns the first frame of the unread stream or leaves that stream as it was; it meets the end only if no whole frame is left |
| Frames.RunDeliversParse | crates/ployz-internal-corrosion/src/admin.rs:213-257 | any run of calls delivers the frames of the stream in order, and all of them once it meets the end |
| Frames.ParseIsUnique | crates/ployz-internal-corrosion/src/admin.rs:213-257 | the frames read are the only messages and rest that spell the stream |
| Frames.EncodedMessagesReadBack | crates/ployz-internal-corrosion/src/admin.rs:327-332 | concatenated frames are read back as the messages written, empty ones included |
| Frames.FrameRoundTripIff | crates/ployz-internal-corrosion/src/admin.rs:327-332 | a frame is read back if and only if it is shorter than 2^32 bytes |
| Frames.LongestFrameLosesLength | crates/ployz-internal-corrosion/src/admin.rs:327-332 | 2^32 bytes are read back as an empty frame followed by themselves |
| GoSpace.TrimGoSpace | crates/ployz-internal-fs/src/files.rs:208-216 | the two loops take spaces away at the front and then at the back until none is found |
| GoSpace.TrimIs | crates/ployz-internal-fs/src/files.rs:208-240 | the result is a slice; what is cut off at either end is white space and nothing else; it starts with no space and ends with no ASCII space |
| GoSpace.LeadingSpaceIff | crates/ployz-internal-fs/src/files.rs:218-227 | a leading space of so many bytes is found if and only if the text starts with a well-formed character of that length that is white space |
| GoSpace.EncodedIsRead | crates/ployz-internal-fs/src/files.rs:218-240 | the UTF-8 reading on which trimming rests reads every encoded code point back, whatever follows it |
| GoSpace.ReadIsEncoded | crates/ployz-internal-fs/src/files.rs:218-240 | and a character that is read is a code point, no surrogate, encoded in just those bytes |
| GoSpace.TrimLeftDecidedByColon | crates/ployz-internal-fs/src/files.rs:218-227 | a prefix with a colon in it is trimmed on the left like the whole line |
| GoSpace.TrimRightCuts | crates/ployz-internal-fs/src/files.rs:229-240 | trimming on the right takes no colon away |
| GoSpace.WideSpaceTrimmedIff | crates/ployz-internal-fs/src/files.rs:229-240 | a final space of three bytes is found, and taken away by trimming, if and only if no ASCII character precedes it; otherwise the text stays |
| GoSpace.NarrowSpaceTrimmedIff | crates/ployz-internal-fs/src/files.rs:229-240 | a final space of two bytes is found, and taken away by trimming, if and only if neither an ASCII nor a two-byte character precedes it; otherwise the text stays |
| GoSpace.IdeographicSpaceKept | crates/ployz-internal-fs/src/files.rs:229-240 | the letter a and an ideographic space are trimmed to themselves |
| ColonFile.DrainLine | crates/ployz-internal-fs/src/files.rs:193-206 | leaves exactly what follows the first newline, for every chunking; fails exactly if the reader breaks before one comes |
| ColonFile.ReadColonFile | crates/ployz-internal-fs/src/files.rs:135-191 | for every chunking and every reader, the first line seen whose head, up to the last wanted colon, parses; a read error is reported exactly if nothing was found before it |
| ColonFile.SeenIs | crates/ployz-internal-fs/src/files.rs:135-191 | a sound reader sees all lines; one that breaks sees all but a last line cut off before its last wanted colon |
| ColonFile.FirstOfIs | crates/ployz-internal-fs/src/files.rs:135-191 | the search answers the first line that is neither blank nor a comment once trimmed and that parses, and nothing exactly if there is none |
| ColonFile.HeadsSuffice | crates/ployz-internal-fs/src/files.rs:135-191 | for a parser that the head decides, searching heads is searching whole trimmed lines |
| ColonFile.SplitHead | crates/ployz-internal-fs/src/files.rs:91-129 | all fields but the last are the same in a line and in its head |
| ColonFile.ParseUserIff | crates/ployz-internal-fs/src/files.rs:91-113 | exactly the lines of seven fields with the wanted one, an ordinary name and 64-bit numbers are users, and each field goes to its place |
| ColonFile.ParseGroupIff | crates/ployz-internal-fs/src/files.rs:115-129 | the same for groups and their four fields |
| ColonFile.WrittenNumberIff | crates/ployz-internal-fs/src/files.rs:131-133 | a written number passes as an ID, plain or signed, exactly if it fits a signed 64-bit integer |
| ColonFile.UserDecided | crates/ployz-internal-fs/src/files.rs:91-113 | the user parser is decided by the text up to the sixth colon |
| ColonFile.GroupDecided | crates/ployz-internal-fs/src/files.rs:115-129 | the group parser is decided by the text up to the third colon |
| ColonFile.FindUserByName | crates/ployz-internal-fs/src/files.rs:79-81 | the first whole, trimmed line seen that is no comment and parses as that user, or none, or the read error |
| ColonFile.FindUserById | crates/ployz-internal-fs/src/files.rs:83-85 | the same by number |
| ColonFile.FindGroupByName | crates/ployz-internal-fs/src/files.rs:87-89 | the same for groups |
| ScanLines.ScanOne | crates/ployz-internal-journal/src/lib.rs:283-332 | for every chunking one call yields the next line of the text, its end or its error; a read error waits behind a fragment |
| ScanLines.ScanIsSplit | crates/ployz-internal-journal/src/lib.rs:283-332 | scanning is splitting at newlines with one CR removed, up to the first line of 65536 bytes or more, which is the error |
| ScanLines.ScannedLine | crates/ployz-internal-journal/src/lib.rs:283-332 | every line of the text before the first long one is a scanned line, with one CR put back exactly if it ended in one |
| ScanLines.LineScanner.NextLine | crates/ployz-internal-journal/src/lib.rs:283-332 | the same on the scanner's fields, with the waiting error first; behind a read error reading goes on with what the reader delivers next |
| ScanLines.EntryReader.Next | crates/ployz-internal-journal/src/lib.rs:242-264 | successive calls yield the lines, then one error if there is one, then nothing |
| Calendar.CivilIsCalendar | crates/ployz-internal-machine-caddyconfig/src/caddyfile.rs:372-385 | for every integer the date is a valid one of the proleptic Gregorian calendar and its day number is that integer |
| Calendar.NextDay | crates/ployz-internal-machine-caddyconfig/src/caddyfile.rs:372-385 | day 0 is 1970-01-01 and the date of the next day is the calendar's next date |
| Calendar.Bijection | crates/ployz-internal-machine-caddyconfig/src/caddyfile.rs:372-385 | every valid date belongs to exactly one day |
| Calendar.SuccessorIsNextNumber | crates/ployz-internal-machine-caddyconfig/src/caddyfile.rs:372-385 | the reference count of days goes up by one from each date to the next |
| Calendar.NumbersKeepOrder | crates/ployz-internal-machine-caddyconfig/src/caddyfile.rs:372-385 | later dates have larger day numbers |
| Calendar.SecondsAreFloored | crates/ployz-internal-machine-caddyconfig/src/caddyfile.rs:355-362 | the two branches floor nanoseconds to seconds on both sides of the epoch |
| Calendar.TimestampNamesSecond | crates/ployz-internal-machine-caddyconfig/src/caddyfile.rs:355-370 | a timestamp is given for a nanosecond if and only if its second holds that nanosecond, and is always valid |
| Versions.ParseNumbers | crates/ployz-internal-grpcversion/src/lib.rs:60-76 | the loop over the parts gives one to three numbers of 63 bits or refuses |
| Versions.ComparePrerelease | crates/ployz-internal-grpcversion/src/lib.rs:157-190 | the index loop compares at the first difference |
| VersionProperties.ParseIff | crates/ployz-internal-grpcversion/src/lib.rs:45-86 | exactly the texts of the grammar are parsed: an optional v, one to three numbers with missing ones zero, a pre-release and build metadata, each to its place |
| VersionProperties.WireRoundTrip | crates/ployz-internal-grpcversion/src/lib.rs:45-86 | every well-formed version is parsed back from its text |
| VersionProperties.EmittedIsStable | crates/ployz-internal-grpcversion/src/lib.rs:45-86 | parsing an emitted version gives the version that emitted it, so the same text again |
| VersionProperties.LessThanIsOrder | crates/ployz-internal-grpcversion/src/lib.rs:130-145 | without redundant zeros precedence is asymmetric and leaves unordered exactly the versions equal up to build metadata |
| VersionProperties.LessThanTransitive | crates/ployz-internal-grpcversion/src/lib.rs:130-145 | and it is transitive |
| VersionProperties.CompareTextIs | crates/ployz-internal-grpcversion/src/lib.rs:181-187 | two texts are less or greater as their first differing characters are, or the shorter one if there is none |
| VersionProperties.LessThanIsSemver | crates/ployz-internal-grpcversion/src/lib.rs:130-190 | with numbers of 64 bits it is the precedence of section 11 of Semantic Versioning 2.0.0 |
| VersionProperties.PartsAsSemverIff | crates/ployz-internal-grpcversion/src/lib.rs:181-187 | two identifiers are ordered as section 11 of Semantic Versioning 2.0.0 says if and only if they are not a number past 64 bits and a text, or two such numbers, whose text order misleads |
| VersionProperties.LessThanIsSemverIff | crates/ployz-internal-grpcversion/src/lib.rs:130-190 | precedence is that of section 11 if and only if the versions do not first differ in such identifiers |
| VersionProperties.HugeNumbersAsText | crates/ployz-internal-grpcversion/src/lib.rs:181-187 | a family of versions whose larger number has the lower precedence |
| VersionProperties.BothLessIff | crates/ployz-internal-grpcversion/src/lib.rs:157-190 | two versions are each less than the other if and only if they first differ in two spellings of one number |
| VersionProperties.LeadingZeroIsLessBothWays | crates/ployz-internal-grpcversion/src/lib.rs:157-190 | such a pair |

## Left out

- Backend protocol: a runtime is always present, and generations do not wrap.
- Backend protocol: whether a connect can report its failure while its stream is still open is up to the HTTP/2
  library. The model allows it; `SafeWithoutLateLoss` says what holds if it never happens.
- Backend protocol: local channels, dialing addresses, HTTP/2 handshakes and backoff intervals; a dial is a step
  that succeeds or fails.
- Spinner ordering: taking a number and publishing it count as one step of `fire` in `Admission`; in `WakeUps` they
  are separate. Memory is sequentially consistent. The render loop ends in success only after a racing signal fired.
- Spinner views, frame clock, panic hooks and terminal detection.
- Change stream: JSON decoding and `NdjsonDecoder` are foreign; events are values, and a retry is "again" or "give up".
- Payload: the bytes of the protobuf metadata are abstract, and lengths are unbounded, so that the 64-bit cut of a
  length never happens.
- Broadcast: gRPC codes, messages and the joined error text; header and trailer maps are lists. Sending to a loop
  that has gone away is not modelled.
- `before_deadline` and the one-to-one streaming path of the proxy.
- Frames: the JSON in the frames and the memory that a large frame needs.
- Environment fallbacks of the current user, and the files' opening.
- ScanLines.ScanOne: the line under construction is a local instead of a field, since no call leaves anything in it
  that a later call reads.
- Journal entries: timestamps, priorities and the child process.
- Calendar: the text of a timestamp, and days beyond 64 bits.
- Versions: the call of the semver library at the end of `parse` is taken to succeed; the layers that attach
  versions to requests are not modelled.
- Membership parsing, round-trip statistics, Caddyfile generation, Docker and CLI commands: no strong property, or
  foreign code.
