# xBot services: a verified model

xBot connects embedded services to their interfaces over UDP: services advertise themselves, are
claimed and configured, send heartbeats, exchange data and answer remote calls; a schema describes each
of them. This project models the parts of the repository in which something can go wrong over a whole
run, in the form the code has (objects with fields, loops over buffers, tables changed in place), and
proves what they promise. `dafny verify dfyconfig.toml` checks everything.

| files | what they are about |
|---|---|
| `Bits`, `Heatshrink` | the Go encoder and the ring-window decoder: round trip, longest matches, size |
| `Scheduler`, `SchedulerProofs`, `SleepProofs`, `Heartbeat` | the timer list on a 32-bit clock, its exact timing, how long it may sleep, and the timeout budget |
| `Registers`, `Dispatch`, `Lifecycle`, `ServiceCalls` | the service: claim, configuration, timers, inputs and calls, over every run |
| `Rpc`, `Monitor` | remote calls over a bad network, and the monitor in which C++ callers wait |
| `Discovery`, `DiscoveryProgress`, `DiscoverySilence`, `DiscoveryTables`, `Connection` | three threads over two tables: which services are managed, claimed, kept and connected |
| `Cbor`, `Advertisement`, `Schema`, `SchemaSizes`, `SchemaLimits`, `Fetch`, `SchemaClient` | a schema from the generator through advertisement, windows and cache to the client |
| `Framing`, `ServiceOutput`, `Queue`, `Transport`, `Wire` | descriptor framing and transactions, the ring buffer, who owns a packet, integers on the wire |

Each class is proved against functions on values, and the theorems are about those functions: invariants
of every reachable state, refinement of a simpler algorithm, round trips, conservation.

Where a natural statement is false of the code, the code is kept; a lemma shows an input that fails, and a
theorem says for all inputs when the statement holds:

- `splitDescription` says it fills the packet as far as possible; it drops a prefix of a fixed list
  (`SchemaLimits.NotFilledAsFarAsPossible`, exactly when: `SchemaLimits.FilledIff`). It accepts 1368 bytes,
  the generated `static_assert` needs fewer (`SchemaLimits.ExactBudgetDoesNotCompile`).
- The comment above the rate limit calls 64 KiB fetchable; the client stops after 16 windows and never
  repeats a request (`Fetch.FastRoundTripFails`, exactly when: `Fetch.LossFreeFetchIff`).
- Requested heartbeats of 0, 1 or one microsecond more than the jitter give a timer that never fires; these
  are the only ones (`Heartbeat.NoHeartbeats`).
- A 32-bit clock misses timers that are too old, such as those with borrowed flags, or ticks that are too
  long (`TimerProofs.StaleManagedTimer`, `TimerProofs.LongTickMissed`, exactly when: `TimerProofs.SameLogIff`).
- Callbacks that reconfigure earlier timers can make the loop sleep too long
  (`SleepProofs.ShortenedTimerIsLate`, exactly when: `SleepProofs.TooLongIff`; callbacks that only look ahead never do: `SleepProofs.SleepIsTight`).
- Two callers of `SendRpc` can get wrong results (`Monitor.OvertakerReturnsNothing`); the order that
  prevents it is sharp (`Monitor.OkHoldsTheResponse`, `Monitor.OvertakingBreaksCalls`).
- A reply whose call is 65536 calls old is taken for a new one (`Rpc.StaleReplyAccepted`,
  `Rpc.LateWorkerAnswers`, exactly when: `Rpc.ReplyIsOwnIff`).
- `SendData` outside a transaction, and every transaction of a C++ interface, reports success for values that
  no receiver accepts (`Framing.OversizedConfiguration`, exactly when: `Framing.DataPacketDeliverable`,
  `Framing.SendThroughInterface`).
- A service's transaction is lost when its thread advertises, or refuses a call, before the commit
  (`ServiceOutput.LostTransactions`, exactly when: `ServiceOutput.SendTransaction`).
- Generated dispatchers count descriptors (`Dispatch.RepeatedParameterAccepted`, exactly when:
  `Dispatch.AllGivenIffNoRepeats`).
- An advertisement that arrives before a pending drop is lost (`DiscoveryProgress.AdvertisementBeforeDropIsLost`,
  exactly when: `DiscoveryProgress.AdvertisedServiceIsManaged`), and one between a drop and its callback leaves the
  interface apart (`Connection.OvertakingIsReachable`, always: `Connection.OvertakenStaysApart`, never
  otherwise: `Connection.QuietMeansInStep`).

## Model

| member | source | states |
|---|---|---|
| Bits.BitWriter.PushBit | xbot_service_interface_go/xbot/heatshrink.go:36-46 | Appends one bit to the stream written so far, most significant bit of a byte first; the output bytes are always exactly the complete bytes of that stream. |
| Bits.BitWriter.PushBits | xbot_service_interface_go/xbot/heatshrink.go:47-51 | Appends the low `count` bits of a number, highest first. |
| Bits.BitWriter.Flush | xbot_service_interface_go/xbot/heatshrink.go:90-92 | The final bytes hold the written bits followed by at most seven zero bits. |
| Bits.ReadBits | xbot_service_interface_go/xbot/heatshrink_test.go:16-28 | Returns the number whose bits come next and advances, or fails and leaves the position alone when fewer bits are left. |
| Heatshrink.LongestMatch | xbot_service_interface_go/xbot/heatshrink.go:54-76 | Finds the longest match that starts in the 512-byte window and is at most 32 bytes long, at the farthest such position; it may overlap the current position. |
| Heatshrink.WriteBackref | xbot_service_interface_go/xbot/heatshrink.go:79-81 | Writes the tag, the nine-bit offset and the five-bit length of a back-reference, each minus one. |
| Heatshrink.WriteLiteral | xbot_service_interface_go/xbot/heatshrink.go:84-85 | Writes the tag and the eight bits of a literal. |
| Heatshrink.WriteToken | xbot_service_interface_go/xbot/heatshrink.go:78-87 | Writes the bits of exactly the token that the match search calls for. |
| Heatshrink.TokenLayout | xbot_service_interface_go/xbot/heatshrink.go:78-87 | A literal is a one and eight bits; a back-reference is a zero, nine bits of the distance less one and five bits of the length less one. |
| Heatshrink.BackrefIffShorter | xbot_service_interface_go/xbot/heatshrink.go:78-78 | The longest, farthest match is used if and only if its 15 bits are fewer than the nine bits of each literal it replaces; otherwise a literal is. |
| Heatshrink.EncodeTokens | xbot_service_interface_go/xbot/heatshrink.go:53-88 | The tokens written form the greedy parse of all of the input: each uses the longest, farthest match, and a literal only where no match of two bytes exists. |
| Heatshrink.HeatshrinkEncode | xbot_service_interface_go/xbot/heatshrink.go:31-94 | The output is the greedy token stream of the input with less than a byte of zero padding. |
| Heatshrink.StreamSize | xbot_service_interface_go/xbot/heatshrink.go:53-93 | The token stream of n bytes has at most 9n bits and every token fits its fields. |
| Heatshrink.EncodingUnique | xbot_service_interface_go/xbot/heatshrink.go:31-94 | The encoder is a function of its input: any output with these properties is the same byte string. |
| Heatshrink.PaddingIgnored | xbot_service_interface_go/xbot/heatshrink_test.go:46-54 | Up to seven zero bits at the end never decode to anything. |
| Heatshrink.DecodeGreedy | xbot_service_interface_go/xbot/heatshrink_test.go:30-63 | Decoding the tokens of a greedy parse, whatever follows, first gives back the parsed bytes. |
| Heatshrink.RoundTrip | xbot_service_interface_go/xbot/heatshrink_test.go:67-83 | For every byte string, decoding its encoding gives exactly that string. |
| Heatshrink.CopyFromWindow | xbot_service_interface_go/xbot/heatshrink_test.go:57-62 | Copying byte by byte through the ring window, overlaps included, equals copying from the full output history preceded by zeros. |
| Heatshrink.CopyBackIs | xbot_service_interface_go/xbot/heatshrink_test.go:57-62 | Each copied byte equals the one that far before it in the output, which may itself be a copy, or zero before the start of the output. |
| Heatshrink.DecodeStep | xbot_service_interface_go/xbot/heatshrink_test.go:30-63 | One token decoded with the ring window does to output and position what the decoder without a window does. |
| Heatshrink.HsDecode | xbot_service_interface_go/xbot/heatshrink_test.go:10-65 | On every byte string, well formed or not, the ring-window decoder terminates and equals the decoder that copies from the full history. |
| Heatshrink.EncodeThenDecode | xbot_service_interface_go/xbot/heatshrink_test.go:67-83 | The encoder followed by the decoder returns the input, through at most ceil(9n/8) bytes. |
| Timers.Scheduler.AddSchedule | libxbot-service/src/Scheduler.cpp:17-30 | A timer is linked in at the end of the list, the others keep their places, and it counts from the current time. |
| Timers.Schedule.constructor | libxbot-service/src/Schedule.cpp:7-10 | A timer registers itself with its scheduler. |
| Timers.Schedule.SetInterval | libxbot-service/src/Schedule.cpp:12-19 | A changed interval restarts the timer if asked to; an unchanged one does nothing, not even that. |
| Timers.Schedule.SetEnabled | libxbot-service/src/Schedule.cpp:21-28 | The same for the enabled flag. |
| Timers.Scheduler.Execute | libxbot-service/src/Scheduler.cpp:43-46 | What a callback does to the scheduler: its setter calls, in order, leaving the clock alone. |
| Timers.Scheduler.Tick | libxbot-service/src/Scheduler.cpp:32-60 | The 32-bit loop over the timers, with callbacks that reconfigure it in the middle, computes the state, the firings and the sleep time of the specification. |
| TimerProofs.TickFromAgrees | libxbot-service/src/Scheduler.cpp:36-56 | From agreeing states a tick of the 32-bit scheduler and one of the unbounded scheduler fire the same plain timers and end in agreeing states. |
| TimerProofs.WrapAroundInvisible | libxbot-service/src/Scheduler.cpp:32-60 | Over any run of ticks and setter calls, across any number of wraps, the plain timers fire at the same ticks as with an unbounded clock, if interval plus advance stays within 2^32 and resets are the default. |
| TimerProofs.FreshTimersAgree | libxbot-service/src/Scheduler.cpp:29-29 | Newly registered timers satisfy the hypothesis of that theorem. |
| TimerProofs.LongTickMissed | libxbot-service/src/Scheduler.cpp:41-42 | The bound is sharp: for every interval and every advance beyond it there is an age at which a plain timer that is due is missed. |
| TimerProofs.FiresAlikeIff | libxbot-service/src/Scheduler.cpp:41-42 | For a timer of either kind with true age a, the wrapped comparison decides like the unbounded one if and only if a is below 2^32, or its remainder still reaches the interval. |
| TimerProofs.TickFromAlikeIff | libxbot-service/src/Scheduler.cpp:36-56 | Whatever callbacks do, a tick fires the same timers on both clocks if and only if that holds for each timer at the moment it is visited; then the sleep time and the new state agree as well. |
| TimerProofs.SameLogIff | libxbot-service/src/Scheduler.cpp:32-60 | Over every run, with timers of both kinds and setter calls of every kind, the 32-bit scheduler fires exactly what an unbounded one fires if and only if that holds at every visit of every tick. |
| TimerProofs.YoungTimersNeverWrap | libxbot-service/src/Scheduler.cpp:32-60 | It is enough that before each tick age plus advance stays below 2^32 for every timer that is enabled or that a callback of the tick reconfigures. |
| TimerProofs.StaleManagedTimer | libxbot-service/include/xbot-service/Schedule.hpp:46-58 | A managed timer keeps its old last tick when its flag flips: whatever its interval, after a pause of 2^32 it misses a firing in every tick that is shorter than the interval. |
| TimerProofs.PassiveTickFrom | libxbot-service/src/Scheduler.cpp:37-56 | With passive callbacks a tick fires exactly the due timers, restarts only those, and returns a bound on every remaining time that is attained. |
| TimerProofs.PunctualFirings | libxbot-service/src/Scheduler.cpp:32-60 | If no tick comes later than the returned value by more than `late`, consecutive firings of a timer are between one interval and one interval plus `late` apart. |
| TimerProofs.ExactFirings | libxbot-service/src/Scheduler.cpp:32-60 | If no tick overshoots, the timer fires exactly every interval. |
| TimerProofs.CoarseFirings | libxbot-service/src/Scheduler.cpp:32-60 | With arbitrary ticks, firings are at least an interval apart and late by less than the largest tick. |
| SleepProofs.SleepCovers | libxbot-service/src/Scheduler.cpp:37-56 | Whatever callbacks do, no enabled timer has less time left than the tick returns, unless the callback of a later timer has reconfigured it. |
| SleepProofs.SleepIsTight | libxbot-service/src/Scheduler.cpp:37-56 | If each callback reconfigures only timers behind its own in the list, the returned time bounds what every enabled timer has left, and some timer has exactly that left. |
| SleepProofs.SleepIsExact | libxbot-service/src/Scheduler.cpp:53-59 | With such callbacks, a tick after a pause fires something if and only if a timer is enabled and the pause was at least the returned value. |
| SleepProofs.SleepIgnoresLaterCallbacks | libxbot-service/src/Scheduler.cpp:37-56 | If callbacks reconfigure only timers before their own, the tick fires and returns what it would with callbacks that do nothing, while their calls do change the timers. |
| SleepProofs.TooLongIff | libxbot-service/src/Scheduler.cpp:37-56 | If callbacks reconfigure only timers before their own, by whatever calls, the returned time is too long if and only if the calls leave one of these timers enabled with less time than a tick without callbacks returns. |
| SleepProofs.ShorteningIff | libxbot-service/src/Scheduler.cpp:37-56 | In particular a single call that sets the interval of an earlier timer makes the returned time too long if and only if the new interval is shorter than that time. |
| SleepProofs.ShortenedTimerIsLate | libxbot-service/src/Scheduler.cpp:37-56 | For example, told to sleep for 5 the loop misses a timer due after 1. |
| Heartbeat.SilenceBound | libxbot-service-interface/src/ServiceIO.cpp:197-208 | However heartbeats are delayed and every second one lost, a check never finds more silence than the two longest gaps between them and one network delay. |
| Heartbeat.NeverDroppedIff | libxbot-service-interface/src/ServiceIO.cpp:197-208 | A live service is never dropped if and only if two late intervals and the delay fit into heartbeat plus jitter. |
| Heartbeat.SlowestRunIsSlow | libxbot-service-interface/src/ServiceIO.cpp:197-208 | The bound is attained: a run within the hypotheses is silent for exactly that long. |
| Heartbeat.JitterBudget | libxbot-service/src/Service.cpp:308-315 | It is enough that twice the loop delay plus the network delay is at most twice the jitter. |
| Heartbeat.DefaultHeartbeat | include/xbot/config.hpp:63-68 | For the constants of the code the exact budget is 200 ms, at an interval of 450 ms. |
| Heartbeat.ScheduledHeartbeats | libxbot-service/src/Service.cpp:242-254 | The same bound for the acknowledgement of a claim and the heartbeats that the scheduler really produces when the loop ticks on time up to `loop`, also after a repeated claim that does not restart the timer. |
| Heartbeat.NoHeartbeats | libxbot-service/src/Service.cpp:308-315 | The heartbeat timer of a claimed service never fires, however the loop ticks, if and only if the requested heartbeat is 0, 1 or one microsecond more than the jitter. |
| Heartbeat.ZeroIntervalNeverFires | libxbot-service/src/Scheduler.cpp:37-40 | A timer with interval zero never fires. |
| Framing.ParseIsLongest | libxbot-service/src/Service.cpp:440-458 | The parse is the longest list of well-formed chunks at the front of the payload; every other such list is a prefix of it. |
| Framing.RoundTrip | xbot_service_interface_go/xbot/conn.go:295-317 | Parsing framed chunks gives back the chunks, and consumes everything. |
| Framing.FrameParsed | libxbot-service/src/Service.cpp:440-458 | Framing what was parsed gives back the consumed bytes if and only if the reserved fields were zero. |
| Framing.FrameBytes | include/xbot/datatypes/XbotHeader.hpp:92-100 | On the wire each chunk follows the ones before it: its id and its size with the least significant byte first, two zero bytes between them, then its data. |
| Framing.ChunkBytes | include/xbot/datatypes/XbotHeader.hpp:92-100 | A parsed chunk is read from the same bytes, whatever the reserved ones are. |
| Framing.ParseTransaction | libxbot-service/src/Service.cpp:434-460 | The loop of the service, and of the interface, delivers exactly the parsed chunks and stops where they end. |
| Framing.HandleTransactionPython | xbot_service_interface_py/xbot_service_interface/io.py:279-293 | The Python loop, which advances before it checks, delivers the same chunks. |
| Framing.BuildPayload | xbot_service_interface_go/xbot/conn.go:308-317 | The append loop produces the framing of its chunks. |
| ServiceOutput.ServiceSender.StartTransaction | libxbot-service/src/Service.cpp:152-166 | Starts an empty transaction with a fresh header unless one is open. |
| ServiceOutput.ServiceSender.SendData | libxbot-service/src/Service.cpp:95-131 | Within a transaction a chunk is appended if and only if it fits the scratch buffer; otherwise one packet goes out if and only if the service is claimed. |
| Framing.DataPacketDeliverable | libxbot-service/src/Service.cpp:114-131 | A value sent outside a transaction, which always counts as sent by a claimed service, reaches the receiver if and only if it fits one packet. |
| ServiceOutput.ServiceSender.CommitTransaction | libxbot-service/src/Service.cpp:167-189 | Ends the transaction; if claimed, sends a packet of at most 1472 bytes from which the receiver takes exactly the accepted chunks, unless an advertisement was written over them or another packet has changed the header. |
| ServiceOutput.ServiceSender.Advertise | libxbot-service/src/Service.cpp:301-306 | An advertisement is put together in the scratch buffer of an open transaction; that spoils it if and only if a chunk has been accepted. |
| ServiceOutput.NothingParsedAfterAll | codegen/templates/ServiceTemplate.cpp:90-104 | Nothing can be parsed from a transaction that begins with an advertisement, whatever follows. |
| ServiceOutput.SendTransaction | libxbot-service/src/Service.cpp:95-189 | Start, any sends, advertisements and other packets of the same thread, commit: the receiver gets exactly the pairs whose send returned true, in order, if and only if no advertisement came after the first of them and the last other packet left a zero in the header; otherwise it gets nothing. |
| ServiceOutput.LostTransactions | libxbot-service/src/Service.cpp:552-579 | For example, refusing a call, or advertising, in the middle of a transaction loses all of it. |
| Framing.InterfaceSender.StartTransaction | libxbot-service-interface/src/ServiceInterfaceBase.cpp:27-43 | Fixes whether the transaction is a configuration, unless one is open. |
| Framing.InterfaceSender.SendData | libxbot-service-interface/src/ServiceInterfaceBase.cpp:76-120 | Configuration and data never mix in one transaction, and configuration never goes out alone. A value sent outside a transaction counts as sent but is read by the service if and only if it fits one packet. |
| Framing.InterfaceSender.CommitTransaction | libxbot-service-interface/src/ServiceInterfaceBase.cpp:45-74 | The packet is marked as configuration if it is one, and the service parses from it exactly the accepted chunks if their framing takes at most 1448 bytes; otherwise it reads nothing. |
| Framing.DeliverableIff | libxbot-service/src/portable/linux/Io.cpp:41-60 | A receiver cuts a datagram to 1472 bytes and drops it if its size is not the one in the header: it gets a packet whole if it fits, and otherwise nothing. |
| Framing.SendThroughInterface | libxbot-service-interface/src/ServiceInterfaceBase.cpp:27-120 | Start, any sends of one kind, commit: every call succeeds if the service is known, and the service parses exactly the pairs sent if and only if they fit one packet. |
| Framing.OversizedConfiguration | libxbot-service-interface/src/ServiceInterfaceBase.cpp:45-120 | For example, two configuration values of 1000 bytes make a packet of 2040 bytes: all calls succeed and the service gets nothing. |
| Rpc.ReplyIsOwnIff | xbot_service_interface_go/xbot/conn.go:243-265 | In every run at all, a reply that the waiting call reads was produced by an execution of the call it belongs to, and that is the waiting call if and only if the two are less than 65536 ids apart. If workers answer only the call they execute it is no larger than declared. |
| Rpc.CallsReturnTheirOwnResult | libxbot-service/src/Service.cpp:529-604 | So in every run in which replies that are read are that close, over a network that loses, repeats and reorders, a returned payload is what an execution of the same function and parameters passed on, no larger than declared; no accepted call is answered twice; a call in progress implies running. |
| Rpc.StepKeepsInv | libxbot-service/src/Service.cpp:529-604 | Every step of the protocol keeps the invariant behind this. |
| Rpc.IdIdentifies | xbot_service_interface_go/xbot/conn.go:319-323 | Two calls with the same 16-bit id are the same if and only if they are less than 65536 apart. |
| Rpc.StaleReplyAccepted | xbot_service_interface_go/xbot/conn.go:258-263 | It happens: a reply that is 65536 ids old is returned as the result of a new call. |
| Rpc.LateWorkerAnswers | libxbot-service/src/Service.cpp:581-604 | It happens even if no reply is under way when the call is sent: a worker of a call that was stopped answers 65536 ids later, and the new call returns the value. |
| Rpc.Conn.StartCall | xbot_service_interface_go/xbot/conn.go:319-323 | Uses the next id of the wrapping counter, and sends exactly one call. |
| Rpc.Conn.Call | xbot_service_interface_go/xbot/conn.go:228-266 | The first response with the call's own id decides, unless a malformed packet ends the call before; everything else is skipped. |
| Rpc.FirstDecides | xbot_service_interface_go/xbot/conn.go:243-265 | Unrelated packets and responses to other calls are skipped; the first response with the id, or a malformed packet before it, decides the call, and if there is none it fails. |
| Rpc.LoopIsDelivery | xbot_service_interface_go/xbot/conn.go:243-265 | The receive loop does what the protocol does when the same packets are delivered one by one. |
| Dispatch.DispatchRpcCall | codegen/templates/ServiceTemplate.cpp:366-390 | The generated loop calls the function if and only if no chunk runs past the end, every value for a parameter has its declared size and as many chunks name parameters as there are parameters, modulo 256; the call gets exactly the parameters that are named, each with the last value given. |
| Dispatch.LastValues | codegen/templates/ServiceTemplate.cpp:366-390 | If all sizes are right, a parameter has a value exactly if some chunk names it, and it is that of the last such chunk. |
| Dispatch.AllGivenIffNoRepeats | codegen/templates/ServiceTemplate.cpp:366-390 | It counts descriptors, not parameters: an accepted call has a value for every parameter if and only if none was given twice. |
| Dispatch.RepeatedParameterAccepted | codegen/templates/ServiceTemplate.cpp:366-390 | A call with one parameter sent twice and the other never is accepted. |
| Dispatch.WellFormedCallAccepted | codegen/templates/ServiceTemplate.cpp:366-390 | A call that gives each parameter once, in any order, is accepted. |
| Registers.LastWriteWins | codegen/templates/ServiceTemplate.cpp:259-329 | After an accepted configuration a register holds the data of the last chunk for it, else what it held before; unknown and blob registers store nothing. |
| Registers.DefaultsAre | codegen/templates/ServiceTemplate.cpp:229-247 | Loading the defaults gives every register that has one exactly its default, and no other register a value. |
| Registers.AllSuitIff | codegen/templates/ServiceTemplate.cpp:259-329 | Setting registers succeeds if and only if each chunk is for an unknown register, is a blob that user code accepts, or has the declared size of its register. |
| Registers.RefusedAt | libxbot-service/src/Service.cpp:499-527 | A refused chunk leaves the registers as the chunks before it do, whatever follows. |
| Registers.AcceptedConfiguration | libxbot-service/src/Service.cpp:478-483 | An accepted configuration leaves in each register the last value written to it, else its default, else nothing. |
| Registers.AcceptableIff | libxbot-service/src/Service.cpp:478-489 | The service may start if and only if the message consists of whole chunks, each suits its register, and every register that is not optional is written or has a default. |
| Registers.AcceptableFits | codegen/templates/ServiceTemplate.cpp:259-329 | Every value that an accepted configuration wrote has the size declared for its register. |
| Registers.ConfigurationIsolated | libxbot-service/src/Service.cpp:478-483 | The register contents are a function of the accepted payload alone. |
| Registers.SetRegistersFromMessage | libxbot-service/src/Service.cpp:499-527 | The loop applies the registers in order, stops at the first that is refused, and refuses a message with bytes that form no chunk. |
| Lifecycle.Service.constructor | libxbot-service/include/xbot-service/Service.hpp:130-147 | A new service has no target, is stopped and idle, and has its four timers: it can start processing. |
| Lifecycle.Service.OnLifecycleStatusChanged | libxbot-service/src/Service.cpp:75-83 | Afterwards heartbeat is on iff claimed, requests iff claimed and a configuration is due, the discovery timeout iff unclaimed and not timed out, and advertising is slow iff claimed or timed out. |
| Lifecycle.Service.Start | libxbot-service/src/Service.cpp:49-57 | Runs exactly if OnStart agrees; a refusal changes nothing. |
| Lifecycle.Service.Stop | libxbot-service/src/Service.cpp:59-73 | Stops, and forgets the call in progress. |
| Lifecycle.Service.LoadConfigurationDefaults | libxbot-service/src/Service.cpp:462-466 | Each register holds its default if it has one, and nothing else; a configuration is due iff there are registers. |
| Lifecycle.Service.HandleClaim | libxbot-service/src/Service.cpp:396-427 | A claim of the wrong size changes nothing; any other stops the service, takes over target and heartbeat rate, and restarts it exactly if it has no registers. Keeps everything below. |
| Lifecycle.Service.HandleConfiguration | libxbot-service/src/Service.cpp:468-497 | The service runs afterwards iff the configuration is acceptable (Registers.AcceptableIff) and OnStart agreed, with the registers it asks for; otherwise it is stopped. The call in progress is forgotten. Keeps everything below. |
| Lifecycle.Service.Tick | libxbot-service/src/Scheduler.cpp:32-60 | Heartbeats fire only while claimed, requests only while claimed and due, and the discovery timeout only while unclaimed, switching to slow advertising. No timer is due before the returned time, although that timeout reconfigures timers before it. The callbacks send their packets in the order of the firings. Keeps everything below. |
| Lifecycle.NoticesIff | libxbot-service/src/Service.cpp:206-219 | A tick sends a heartbeat, an advertisement or a configuration request exactly if that timer fired, to the current target; by the invariant of the loop never to an empty one. |
| Lifecycle.TickSleepCovers | libxbot-service/src/Service.cpp:75-93 | After a tick of the service no enabled timer has less time left than the tick returned. |
| Lifecycle.TickFromMatches | libxbot-service/src/Service.cpp:75-93 | Through a whole tick, including the callback that reconfigures timers in it, the timers keep matching the state. |
| Lifecycle.Service.HandleData | libxbot-service/src/Service.cpp:428-433 | An input reaches user code exactly if the service runs. |
| Lifecycle.Service.HandleDataTransaction | libxbot-service/src/Service.cpp:434-460 | The inputs of a transaction reach user code in order, exactly if the service runs. |
| Lifecycle.Service.HandleRpcCall | libxbot-service/src/Service.cpp:529-550 | A call is answered BUSY, answered ERROR, or reaches user code with its parameters and becomes the one call in progress. |
| Lifecycle.Service.SendRpcResponse | libxbot-service/src/Service.cpp:581-604 | Only the call in progress is answered, once, and with an error if the value is larger than declared or than a packet; any other answer changes nothing. |
| Lifecycle.Service.TransmitRpcResponse | libxbot-service/src/Service.cpp:552-579 | Exactly one packet with that id, status and value goes out if the service is claimed and the value fits, and the caller is told so; otherwise nothing goes out. |
| Lifecycle.Service.LoadConfiguration | libxbot-service/src/Service.cpp:473-489 | The service is stopped, and its registers are the defaults overridden by the message up to the first refusal. |
| Lifecycle.Service.SendDataClaimAck | libxbot-service/src/Service.cpp:133-151 | The acknowledgement goes to the endpoint just claimed, if there is one. |
| Lifecycle.Service.HandleMessage | libxbot-service/src/Service.cpp:270-293 | For every kind of message, what reaches user code, what is replied, which call is in progress and whether the service runs: inputs exactly while running, calls with their id, function and arguments while running and idle, restarts by claims and configurations. Keeps the invariant of the loop. |
| Lifecycle.Service.Handle | libxbot-service/src/Service.cpp:232-297 | The same for every event: a tick moves the timers and nothing that user code or callers see, an answer of a worker ends the call it is for. |
| Lifecycle.Service.RunProcessing | libxbot-service/src/Service.cpp:221-299 | At every loop point of every run: what user code was told, in order, what was replied, which call is in progress and whether the service runs are determined by the ticks, packets and answers so far, each input and call that arrived while running reaching user code; timers match the state; a running service has every required register valid and holds exactly what the last configuration asked for, in values of the declared sizes; the target is the last one claimed. |
| Lifecycle.RunsConfigured | libxbot-service/src/Service.cpp:396-497 | Over every history, a service with registers runs only on a configuration that was acceptable and that no claim has made void. |
| ServiceCalls.CallMatches | libxbot-service/src/Service.cpp:529-550 | A call that arrives has in the protocol of Rpc exactly the effect it has on the service: the same call in progress and the same replies. |
| ServiceCalls.AnswerMatches | libxbot-service/src/Service.cpp:581-604 | So has the answer of a worker. |
| ServiceCalls.StopMatches | libxbot-service/src/Service.cpp:59-73 | And so has whatever stops the service: it ends the call in progress without a reply. |
| Discovery.NeverStuck | libxbot-service-interface/src/ServiceIO.cpp:45-91 | Under every interleaving of discovery, IO and user threads, a discovered service somebody is interested in is managed, or its notification, its creation or its drop is pending; and every managed service has an interested callback. |
| Discovery.StepKeepsInv | libxbot-service-interface/src/ServiceIO.cpp:45-156 | Every critical section of every thread keeps that invariant. |
| Discovery.CheckKeepsInv | libxbot-service-interface/src/ServiceIO.cpp:189-214 | A timeout never erases a service without also scheduling its drop, because managed services have callbacks. |
| Discovery.CheckIff | libxbot-service-interface/src/ServiceIO.cpp:186-214 | A check collects exactly the unclaimed services, and erases and schedules to drop exactly the claimed ones that have been silent for more than 1.1 s. |
| Discovery.UnregisterIff | libxbot-service-interface/src/ServiceIO.cpp:134-156 | Unregistering a callback leaves every list with the other callbacks, and gives up exactly the services nobody else is interested in. |
| DiscoveryProgress.Finish | libxbot-service-interface/src/ServiceIO.cpp:216-227 | From every state the threads can finish what they have begun. |
| DiscoveryProgress.AdvertisedServiceIsManaged | libxbot-service-interface/src/ServiceDiscoveryImpl.cpp:182-226 | In every reachable state in which the discovery thread can receive, one advertisement leads, however the threads finish, to the service being managed at the advertised endpoint if and only if the service is not about to be dropped; if it is, it is forgotten. |
| DiscoveryProgress.AdvertisementBeforeDropIsLost | libxbot-service-interface/src/ServiceDiscoveryImpl.cpp:113-116 | Such a state is reachable, and an unchanged advertisement is lost in it. |
| Discovery.ClaimsGoWhereAdvertised | libxbot-service-interface/src/ServiceIO.cpp:266-315 | In every run every claim goes to an endpoint that the same service has advertised. |
| Discovery.ClaimSentIff | libxbot-service-interface/src/ServiceIO.cpp:266-315 | A claim is sent, to the current endpoint, if and only if the service is managed, reachable and was not claimed within the last millisecond. |
| DiscoverySilence.AckSettles | libxbot-service-interface/src/ServiceIO.cpp:324-355 | An acknowledgement of a managed service ends the claiming and counts as its last sign of life. |
| DiscoverySilence.KeptWhileHeard | libxbot-service-interface/src/ServiceIO.cpp:189-214 | Over any run in which no check finds it silent for too long, an acknowledged service stays managed, is neither claimed again nor dropped, and the table holds its last acknowledgement or heartbeat. |
| DiscoverySilence.DroppedIff | libxbot-service-interface/src/ServiceIO.cpp:197-208 | The next check drops it if and only if its last acknowledgement or heartbeat is more than 1.1 s old. |
| DiscoverySilence.LiveServiceIsKept | libxbot-service-interface/src/ServiceIO.cpp:197-208 | End to end: if its heartbeats meet the budget, no delay, loss of every second one or interleaving of the threads gets a live service dropped or claimed again. |
| DiscoveryTables.Interface.ReceiveAdvertisement | libxbot-service-interface/src/ServiceDiscoveryImpl.cpp:173-219 | New and changed descriptions are stored and reported, a moved endpoint is stored silently, unreachable ones are ignored. |
| DiscoveryTables.Interface.EnsureServiceState | libxbot-service-interface/src/ServiceIO.cpp:45-66 | Creates a state exactly for an interesting, reachable service that has none. |
| DiscoveryTables.Interface.OnServiceDiscovered | libxbot-service-interface/src/ServiceIO.cpp:68-91 | Replaces the state of an interesting service, so that it is claimed again. |
| DiscoveryTables.Interface.RegisterCallbacks | libxbot-service-interface/src/ServiceIO.cpp:115-132 | Registers once, and starts managing a service that is already known. |
| DiscoveryTables.Interface.UnregisterCallbacks | libxbot-service-interface/src/ServiceIO.cpp:134-156 | The nested erasing loops remove the callback everywhere, and the services nobody else wants. |
| DiscoveryTables.Interface.Erase | libxbot-service-interface/src/ServiceIO.cpp:139-147 | The inner loop removes every occurrence and keeps the order of the rest. |
| DiscoveryTables.Interface.CollectWork | libxbot-service-interface/src/ServiceIO.cpp:186-214 | The erasing loop over the services collects exactly the unclaimed to claim and the silent to drop. |
| DiscoveryTables.Interface.ClaimService | libxbot-service-interface/src/ServiceIO.cpp:266-315 | Claims at most once a millisecond, and only a service whose endpoint is known when the lock has been released. |
| DiscoveryTables.Interface.RunChecks | libxbot-service-interface/src/ServiceIO.cpp:182-228 | One undisturbed round sends one claim to the endpoint of every unclaimed service that is due, and none to any other, and leaves nothing to claim or drop. |
| DiscoveryTables.Interface.HandleClaimMessage | libxbot-service-interface/src/ServiceIO.cpp:324-355 | Only an acknowledgement claims, and it counts as a sign of life. |
| DiscoveryTables.Interface.HandleHeartbeatMessage | libxbot-service-interface/src/ServiceIO.cpp:425-435 | A heartbeat of a managed service counts as a sign of life. |
| Connection.QuietMeansInStep | libxbot-service-interface/src/ServiceInterfaceBase.cpp:229-315 | Whenever both threads are done, a known compatible service has its interface connected, registered and managed, and an incompatible one has not, unless a disconnect was overtaken. |
| Connection.OvertakenStaysApart | libxbot-service-interface/src/ServiceInterfaceBase.cpp:292-300 | An overtaken disconnect leaves a known, registered service whose interface refuses to send, and further advertisements of it change nothing. |
| Connection.OvertakingIsReachable | libxbot-service-interface/src/ServiceIO.cpp:220-227 | This can happen: the service is advertised again between its drop and the disconnect callback. |
| Connection.InterfaceBase.OnServiceDiscovered | libxbot-service-interface/src/ServiceInterfaceBase.cpp:229-286 | Connects exactly to services of its own type and version; registers with ServiceIO on the first such description and unregisters on another, as the protocol above assumes. |
| Connection.InterfaceBase.MarkServiceDisconnected | libxbot-service-interface/src/ServiceInterfaceBase.cpp:292-300 | Only the own service disconnects the interface. |
| Monitor.PointersStayValid | libxbot-service-interface/src/ServiceInterfaceBase.cpp:200-227 | With any number of callers: an active call has its result pointers set, they belong to a caller that has not returned, and no response is stored through a null pointer or beyond a buffer. |
| Monitor.OkHoldsTheResponse | libxbot-service-interface/src/ServiceInterfaceBase.cpp:122-198 | RPC_OK is returned if and only if the call was decided by a successful response that fits, and then the buffer holds exactly its payload; RPC_TIMEOUT means no response and no disconnect arrived. For every run in which no call starts before the previous caller has woken up. |
| Monitor.VerdictIsFirst | libxbot-service-interface/src/ServiceInterfaceBase.cpp:200-227 | What decides a call is the first disconnect, or response under its own id, that arrives while it waits. |
| Monitor.StepKeepsInv | libxbot-service-interface/src/ServiceInterfaceBase.cpp:122-227 | Every step under the mutex keeps the invariant behind this. |
| Monitor.OneCallerIsOrderly | libxbot-service-interface/src/ServiceInterfaceBase.cpp:133-135 | A single caller always satisfies that condition. |
| Monitor.OvertakingBreaksCalls | libxbot-service-interface/src/ServiceInterfaceBase.cpp:133-186 | The condition is sharp: after every such run, whenever a caller takes over while another, whose call is over, has not woken up, the run can go on so that the other times out although it was answered or disconnected. |
| Monitor.FailedOvertaking | libxbot-service-interface/src/ServiceInterfaceBase.cpp:133-198 | If the sending of the overtaking call fails, the overtaken one returns a wrong result if and only if it had been disconnected, or refused with a payload that fits. |
| Monitor.OvertakerReturnsNothing | libxbot-service-interface/src/ServiceInterfaceBase.cpp:172-186 | For example, an answered call times out, and the other returns RPC_OK without any response. |
| Monitor.RpcMonitor.BeginCall | libxbot-service-interface/src/ServiceInterfaceBase.cpp:137-169 | Takes the next id, sends, and publishes the result pointers before the mutex is released. |
| Monitor.RpcMonitor.EndCall | libxbot-service-interface/src/ServiceInterfaceBase.cpp:171-198 | Withdraws the pointers and reports timeout, error or success. |
| Monitor.RpcMonitor.OnRpcResponse | libxbot-service-interface/src/ServiceInterfaceBase.cpp:200-227 | Stores a response only for the pending id of an active call, and only if it fits. |
| Monitor.RpcMonitor.MarkServiceDisconnected | libxbot-service-interface/src/ServiceInterfaceBase.cpp:302-314 | Ends an active call with an error. |
| Cbor.RoundTrip | codegen/xbot_codegen/xbot_codegen.py:125-128 | Decoding the encoding of a value, followed by anything, gives the value and what follows (sections 3 and 3.1 of RFC 8949). |
| Cbor.HeadBytes | codegen/xbot_codegen/xbot_codegen.py:125-128 | The head of an item has the major type in its top bits and the shortest argument, most significant byte first (section 3 of RFC 8949). |
| Cbor.MajorTypes | codegen/xbot_codegen/xbot_codegen.py:125-128 | Each kind of item is encoded under its own major type (section 3.1 of RFC 8949). |
| Cbor.TwoByteHead | codegen/templates/ServiceTemplate.cpp:101-104 | A two-byte argument decodes the same even where a shorter head would do. |
| Advertisement.MessageDecodes | codegen/templates/ServiceTemplate.cpp:86-161 | For every id, port, address of at most 15 characters and description, the message decodes to a map with exactly that id, endpoint and description, and nothing is left over. |
| Advertisement.AdvertiseServiceImpl | codegen/templates/ServiceTemplate.cpp:86-161 | The writes stay within the scratch buffer and produce that message, exactly if an address of at most 15 characters is known. |
| Schema.MergeRestores | xbot_service_interface_py/xbot_service_interface/discovery.py:345-358 | The advertised and the omitted part of a schema merge back to it, for every schema without a block named omitted. |
| Schema.SplitDescription | codegen/xbot_codegen/xbot_codegen.py:108-137 | The search leaves out the shortest prefix of the droppable blocks that makes the rest fit; it fails exactly if no prefix does, if the omitted part exceeds 16 bits, or if type or version is missing. |
| Schema.BuildAdvertised | codegen/xbot_codegen/xbot_codegen.py:118-124 | The dictionary filled entry by entry is the kept part with the list of missing blocks. |
| Schema.GetKept | codegen/xbot_codegen/xbot_codegen.py:118-124 | What a lookup in the advertised part finds, for every key; the list of missing blocks names them in order. |
| Schema.DroppableIff | codegen/xbot_codegen/xbot_codegen.py:98-100 | Exactly enums, functions, registers, outputs and inputs may be left out. |
| SchemaLimits.ExactBudgetDoesNotCompile | codegen/templates/ServiceTemplate.cpp:88-88 | Of the descriptions the split accepts, the static assertion of the generated code refuses exactly those that use up the budget; there are such schemas. |
| SchemaSizes.ChoiceSize | codegen/xbot_codegen/xbot_codegen.py:113-126 | Whatever blocks are left out, the size of the description is a constant of the schema less the sizes of their values, up to the size of the head of the dictionary. |
| SchemaLimits.FilledIff | codegen/xbot_codegen/xbot_codegen.py:108-128 | Among all choices of droppable blocks, the split fills the packet as far as possible if and only if no choice saves at least what is necessary and less than the split saves. |
| SchemaLimits.NothingPutBackUnlessRoom | codegen/xbot_codegen/xbot_codegen.py:108-128 | None of the blocks left out could be put back, alone or together, unless there is room for one of them other than the last; in particular if at most one is left out. |
| SchemaLimits.PutOneBack | codegen/xbot_codegen/xbot_codegen.py:113-124 | Putting one more omitted block back costs the encoding of its value and nothing for its name, which moves from the list of omitted blocks to the entry. |
| SchemaLimits.NotFilledAsFarAsPossible | codegen/xbot_codegen/xbot_codegen.py:111-114 | A schema for which the split leaves out 1300 bytes of enums and advertises 341 bytes, although leaving out the inputs alone would advertise 1341. |
| SchemaLimits.CouldBePutBack | codegen/xbot_codegen/xbot_codegen.py:111-114 | A schema for which the split leaves out a block that could be put back. |
| Fetch.ServedIsGenuine | libxbot-service/src/Service.cpp:325-394 | Every served window is the right part of the omitted description, as long as wanted, allowed and left, and a request is served exactly if it is well formed, within range and at least 20 ms after the last reply. |
| Fetch.DescriptionServer.HandleDescriptionRequest | libxbot-service/src/Service.cpp:325-394 | The handler serves that window, and only a reply restarts the rate limit. |
| Fetch.AwaitAnswer | xbot_service_interface_py/xbot_service_interface/discovery.py:239-267 | The inner loop skips everything but the answer to the last request, until time runs out. |
| Fetch.NextAnswerIff | xbot_service_interface_py/xbot_service_interface/discovery.py:239-267 | It is the first answer, provided that it and everything before it arrive before the deadline. |
| Fetch.AnswersIff | xbot_service_interface_py/xbot_service_interface/discovery.py:250-267 | An answer is a whole window for the requested offset, sent by the service itself under its id. |
| Fetch.FetchWindows | xbot_service_interface_py/xbot_service_interface/discovery.py:204-281 | The loops request each window once, in order, and return what the specification collects. |
| Fetch.FetchReturnsTheBlob | xbot_service_interface_py/xbot_service_interface/discovery.py:239-281 | Over any loss, repetition, delay, reordering and foreign traffic, a fetch that completes returns exactly the omitted description. |
| Fetch.LossFreeFetchIff | xbot_service_interface_py/xbot_service_interface/discovery.py:227-247 | Without loss the fetch succeeds if and only if at most 16 windows are needed, each request is handled at least 20 ms after the previous reply, and each answer arrives before the deadline. |
| Fetch.LossFreeRequests | xbot_service_interface_py/xbot_service_interface/discovery.py:230-234 | The requests answered in that run are the ones the client sends, one for each window. |
| Fetch.StrangersIgnored | xbot_service_interface_py/xbot_service_interface/discovery.py:239-267 | If packets arrive in order of time, those that are not windows of the service can neither spoil a fetch nor stretch it. |
| Fetch.FetchAmongStrangersIff | xbot_service_interface_py/xbot_service_interface/discovery.py:227-267 | So the same condition is exact when the loss-free answers arrive among any other packets. |
| Fetch.FastRoundTripFails | libxbot-service/src/Service.cpp:358-363 | On a network faster than 20 ms per round trip the fetch of more than one window always fails. |
| SchemaClient.SchemaArrives | xbot_service_interface_py/xbot_service_interface/discovery.py:312-358 | End to end: if the fetch completes, or nothing was omitted, the client knows the service at its endpoint with the generator's original schema. |
| SchemaClient.AdvertisementIsRead | xbot_service_interface_py/xbot_service_interface/discovery.py:323-343 | The client reads from the generated advertisement the id, the endpoint and the description that were put in, and ignores one without address or port. |
| SchemaClient.DescriptionsAreTrue | xbot_service_interface_py/xbot_service_interface/discovery.py:178-202 | Over any run, cache included, every known description is the whole schema of that type, id and version, or its advertised part marked as incomplete; never a mixture, never blocks of another service or version. |
| SchemaClient.KeysDistinguish | xbot_service_interface_py/xbot_service_interface/discovery.py:186-186 | Blocks are cached under keys that are equal exactly if id, type and version are. |
| SchemaClient.StoredDescription | xbot_service_interface_py/xbot_service_interface/discovery.py:342-382 | An advertisement makes the service known at its endpoint and changes no other; the client has the whole schema if and only if nothing was omitted, the blocks are cached, or a fetch is tried and completes. |
| SchemaClient.SuccessIsForGood | xbot_service_interface_py/xbot_service_interface/discovery.py:187-190 | A fetch that has succeeded is never repeated, whatever happens later. |
| SchemaClient.FailureIsRetried | xbot_service_interface_py/xbot_service_interface/discovery.py:191-197 | One that has failed is tried again after 30 seconds and no sooner. |
| SchemaClient.FetchedBlocks | xbot_service_interface_py/xbot_service_interface/discovery.py:280-291 | A fetch that completes decodes to exactly the omitted blocks. |
| SchemaClient.ServiceDiscovery.OmittedBlocks | xbot_service_interface_py/xbot_service_interface/discovery.py:178-202 | Successes are cached for good, failures for 30 seconds, per type, id and version. |
| SchemaClient.ServiceDiscovery.HandlePacket | xbot_service_interface_py/xbot_service_interface/discovery.py:312-382 | The handler stores the merged description, or the incomplete one when the blocks are not available. |
| Queue.ItemsPush | libxbot-service/src/portable/linux/queue.cpp:50-53 | Writing behind the last item of a ring appends to its contents, wherever the ring starts. |
| Queue.ItemsPop | libxbot-service/src/portable/linux/queue.cpp:75-80 | Moving the front removes the first item and keeps the rest in order. |
| Queue.BlockingQueue.Push | libxbot-service/src/portable/linux/queue.cpp:32-56 | Appends to a bounded FIFO, and is refused exactly if it is full. |
| Queue.BlockingQueue.Pop | libxbot-service/src/portable/linux/queue.cpp:58-83 | Removes and returns the oldest item, and returns nothing exactly if there is none. |
| Transport.ExactlyOneOwner | libxbot-service/src/portable/linux/Io.cpp:34-80 | In every run each received packet has exactly one owner: IO thread, queue, service thread or freed. Never freed twice, never lost, also for malformed packets, unknown services and full queues. |
| Transport.HandledInOrder | libxbot-service/src/Service.cpp:252-297 | Each service handles what it accepted in that order, all of it, and only well-formed packets addressed to it; the checks of its own loop never fire. |
| Transport.StepConserves | libxbot-service/src/portable/linux/Io.cpp:34-80 | Every step keeps the number of owners of every packet equal to the number of times it was received. |
| Transport.RoutedOrFreed | libxbot-service/src/portable/linux/Io.cpp:34-77 | In the protocol too, a received packet ends up last in the queue of the service it is for, or else freed, and no other packet moves. |
| Transport.EverythingIsHandled | libxbot-service/src/Service.cpp:252-297 | From every reachable state, a service that goes on working handles everything it has accepted and frees it in the same order. |
| Transport.ServiceIo.IoInput | libxbot-service/src/ServiceIo.cpp:14-21 | Enqueues the packet, or frees it if the queue is full. |
| Transport.ServiceIo.FetchPacket | libxbot-service/src/Service.cpp:252-254 | Takes the oldest packet if there is one. |
| Transport.ServiceIo.ProcessPacket | libxbot-service/src/Service.cpp:255-297 | Frees the packet once on every path, and handles it exactly if it holds its header and payload. |
| Transport.Io.RegisterServiceIo | libxbot-service/src/portable/linux/Io.cpp:82-90 | A service is linked in at the end of the list, and nothing else changes. |
| Transport.Io.FindService | libxbot-service/src/portable/linux/Io.cpp:62-73 | The search along the list finds the first running service with the packet's id. |
| Transport.Io.RunIo | libxbot-service/src/portable/linux/Io.cpp:41-77 | A whole packet ends up last in the queue of the first running service with its id, if that has room, and nothing is freed; every other packet is freed. No other service is touched. |

## Left out

Weaker than the code or narrower than one could wish:

- Rpc.CallsReturnTheirOwnResult: one client that owns the service; calls of a second, non-claiming client would share the ids. Its hypotheses are the exact ones of Rpc.ReplyIsOwnIff, and that no worker of a stopped call answers under a reused id (Rpc.LateWorkerAnswers).
- Monitor.OkHoldsTheResponse: requires that no call starts before the previous caller has woken up, as Monitor.OvertakingBreaksCalls shows it must.
- Connection.QuietMeansInStep: one interface and one discovery thread; interfaces that register with discovery while it is running add a second notifying thread that is not modelled.
- DiscoveryProgress.AdvertisedServiceIsManaged: says that a claim will be attempted, not that the network delivers it.
- Heartbeat.NeverDroppedIff: heartbeats count as received by a check only if they arrived before it; of two consecutive ones at most one is lost.
- DiscoverySilence.LiveServiceIsKept: the interface handles what arrives before a check before it, its clock does not go back, and nobody unregisters the last callback or advertises another type or version under the id.
- Dispatch.DispatchRpcCall: the exact condition is for parameters with distinct ids, which the generated switch needs anyway.
- Fetch.FetchAmongStrangersIff: packets arrive in order of time.
- Fetch.LossFreeFetchIff: a packet that arrives exactly at the deadline counts as late.
- Schema.SplitDescription: needs fewer than 2^64 - 3 entries, which every machine meets.
- SchemaClient.DescriptionsAreTrue: type, id and version of a service determine its schema; a service that changes without a new version may get stale blocks from the cache.
- Transport.ExactlyOneOwner: services are started once and never stopped, as in the code; starting one again would reset its queue.
- ServiceOutput.ServiceSender.SendData: lengths are unbounded integers, so a size that would overflow `size_t` in the sum is not modelled.

Not modelled:

- Sockets, multicast, interface selection: what arrives, is lost, delayed or reordered is an input.
- Errors of the socket itself, such as a failing send, also of a datagram larger than UDP allows.
- Threads and locks: each critical section is one step, and a wait is a step that happens when it may.
- User code (`OnStart`, blob callbacks, inputs, remote functions): its return values are inputs, its calls are recorded.
- Timers that a concrete service adds to its scheduler; `Lifecycle` has the four of the base class.
- `OnLoop` and the choice of the blocking time in `runProcessing`.
- Sequence numbers, timestamps and the reboot flag of packets.
- Values inside payloads: floats, strings and structures are bytes of the right length.
- CBOR beyond what JSON needs: byte strings, tags, indefinite lengths, short floats and integers beyond 64 bits are not decoded. This codec also stands for the library that Python uses.
- Descriptions that the Python schema class refuses.
- Nested dictionaries are compared with the order of their entries; only the outermost one is compared as Python does.
- The header checks of an advertisement before its payload is decoded, and the client's option not to fetch omitted blocks.
- Notification of listeners in the Python client, and the log output everywhere.
- The heatshrink library in C and its wrappers, the REST interface, the log viewer, the shell and the Go generator.
- Bit operations are written as arithmetic, and callers' buffers in `Monitor` are values, so that aliasing between two callers' buffers is not captured.
- The Python interface's own service table and watchdog, which would repeat what `Discovery` says about C++.
- Naming rules, type and enum emission of the code generator, which would only add easy members.
