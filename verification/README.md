# VirtualLTE in Dafny

VirtualLTE is a userspace 5G UE that shows itself to the host as a USB MBIM modem. This project
models its stateful protocols and its bit- and byte-level codecs and proves what they keep over
whole runs and for all inputs. `dafny verify dfyconfig.toml` checks everything.

Each component comes in two forms. The first is a set of functions on values: the state, one
function per routine, and `Step`/`Run` over arbitrary sequences of events; the theorems about runs
are proved here. The second is a class, or a method with loops, that updates fields, rings and
buffers in place as the source does. Each method makes the transition of its function; the entry
points also keep the invariant of their object (`Valid`) and state what the call brings about.

| files | what they model |
|---|---|
| `options.dfy`, `rings.dfy` | optional values; 16-slot circular buffers that refine sequences of up to 15 |
| `mbim_channel*.dfy` | MBIM control channel: response and held-command rings, one-deep doorbell, SEND/GET/TICK |
| `state_bridge.dfy` | edge detection and the indication ring |
| `ue_sm*.dfy`, `ue_mm*.dfy`, `ue_engine*.dfy`, `ue_impl.dfy` | session and mobility management, and the engine tick that couples them |
| `nas_security.dfy`, `security_mode.dfy`, `nas_impl.dfy` | NAS COUNT and envelope, downlink dispatch, Authentication Request, Security Mode Command |
| `cmac.dfy`, `digests.dfy` | block schedules of AES-CMAC, SHA-256 and MD5 |
| `uper.dfy`, `uper_impl.dfy` | unaligned PER and the RRC messages built from it |
| `ims_ip.dfy`, `ims_register.dfy` | UDP/IPv4 with checksums; SIP REGISTER timers |
| `ran_cells.dfy`, `ntb.dfy`, `sms_store.dfy`, `bytes.dfy` | cell table; NTB16 framing; SMS store and reader; octets and bits |

What the surroundings do is a parameter and the theorems hold for every value of it: the network
adapter's answer to each request, each reading of the RAN link during a tick, the downlink PDUs,
all times, the block cipher, the compression functions, the NAS decoder and the key derivation.
Lock regions are atomic steps.

Where the code does not do what a comment or a natural expectation says, the model follows the code
and the exact condition is proved: a second doorbell (`AtMostOneDoorbell`), a command held behind an
empty queue (`HeldBehindNothingIff`, with the run that strands it in `ShortCommandStrands`), the PTI
of a retransmission (`RetransmissionRepeatsPtiIff`), the 16-second release wait (`ReleaseWaitsIff`), a
full indication ring (`HistoriesReplay`, `FullRingHidesRegistration`), deciphering of messages that
were not ciphered (`OpenSealed`, `IntegrityOnlyGarbles`), a challenge that changes the keys of the
context in use (`ReplaysNeverRekey`, `ChallengeBetweenReplays`), SMS indices that wrap
(`IndicesDistinctIff`, `IndicesCollide`), a registration that never ends (`GivenUpIff`,
`LinkLossFreezes`), a lost refresh (`AwakeIff`, `LostRefreshSleeps`), and commands without integrity
(`NewlyAcceptedIff`).

## Model

| member | source | states |
|---|---|---|
| `MbimChannelProofs.SendKeepsAlert` | src/core.c:1276-1360 | SEND of a message of any length keeps the channel alert: a non-empty response queue is announced or about to be, and a doorbell is outstanding only for a message that is there; the message is held or answered behind what is queued |
| `MbimChannelProofs.GetKeepsAlert` | src/core.c:1362-1572 | GET keeps the channel alert and rings no doorbell while it runs |
| `MbimChannelProofs.TickKeepsAlert` | src/core.c:1228-1274 | TICK keeps the channel alert; afterwards, with the endpoint up, a non-empty response queue has its doorbell rung |
| `MbimChannelProofs.RunKeepsAlert` | src/core.c:821-827 | no lost wakeup: every run of SEND, GET, TICK, endpoint and arrival events, with commands of any length, stays alert |
| `MbimChannelProofs.ProcessHeldAnswers` | src/core.c:789-828 | answering a held command inside a GET queues exactly its one response |
| `MbimChannelProofs.DeliveredInOrder` | src/core.c:1362-1506 | with no new SEND the n-th GET returns the n-th message owed: the queued messages, then the answers to the held commands in order |
| `MbimChannelProofs.HeldProgress` | src/core.c:585-611 | with no new SEND the commands still held after k GETs are exactly the held list without its first k - len(resp) + 1, however many indications wait |
| `MbimChannelProofs.DrainExtends` | src/core.c:1051-1148 | draining only appends to the response queue, asks for a doorbell when it did, and does nothing while a command is held |
| `MbimChannelLiveness.DrainLosesNothing` | src/core.c:1084-1124 | bridge indications move into the response queue once each, in order; those that do not fit stay where they are |
| `MbimChannelLiveness.RoundProgress` | src/core.c:1516-1534 | a tick, and a GET if the doorbell is then rung, strictly reduces what is left to deliver |
| `MbimChannelLiveness.NothingStranded` | src/core.c:1516-1534 | a host that issues a GET only when rung empties every queue within a computed number of rounds and receives first what it was owed |
| `MbimChannelLiveness.AtMostOneDoorbell` | src/core.c:687-787 | at most one doorbell is outstanding throughout a run if and only if no CLOSE arrives under an unanswered doorbell |
| `MbimChannelLiveness.TwoDoorbells` | src/core.c:1574-1606 | OPEN then CLOSE before the host reads leaves two doorbells outstanding |
| `MbimChannelLiveness.HeldBehindNothingIff` | src/core.c:1625-1630 | over every run and for commands of any length: no command is ever left held behind an empty queue if and only if no GET takes the last response while the oldest of several held commands yields no answer |
| `MbimChannelLiveness.LongCommandsServed` | src/core.c:1625-1630 | with command messages of at least 48 bytes no command is ever held behind an empty queue |
| `MbimChannelLiveness.StrandedForever` | src/core.c:687-787 | a command held behind an empty queue with no doorbell outstanding stays there for ever for a host that reads only when rung |
| `MbimChannelLiveness.EmptiedIffServed` | src/core.c:1516-1534 | for commands of any length, a host that reads only when rung gets everything if and only if no command is left behind an empty queue on the way |
| `MbimChannelLiveness.ShortCommandStrands` | src/core.c:1625-1630 | from power-up: OPEN, a 20-byte command, a 48-byte command and one GET strand the second command for ever |
| `MbimChannelOrder.DeliveredAsQueued` | src/core.c:375-455 | in every run, new SENDs included, what the host receives followed by what is still queued is what was queued, in order |
| `MbimChannelOrder.AnsweredAsHeld` | src/core.c:554-611 | in every run, new SENDs included, the held commands are taken in the order they were held and none is lost |
| `MbimChannelOrder.HeldAnswersInOrder` | src/core.c:789-828 | in every run, new SENDs included and whatever the lengths, the answers to the held commands are queued in the order in which the commands were held |
| `MbimChannelOrder.AtMostOneOvertakes` | src/core.c:499-514 | while commands are held, none of them behind an empty queue, at most one newer command has its answer queued ahead of them |
| `MbimChannelImpl.ControlChannel.constructor` | src/core.c:210-233 | a new channel is the initial channel and alert |
| `MbimChannelImpl.ControlChannel.RespEnqueue` | src/core.c:375-421 | appends to the response ring, dropping when full |
| `MbimChannelImpl.ControlChannel.TrySendDeferredNotification` | src/core.c:687-787 | rings only when wanted, not in a GET, none outstanding and something queued |
| `MbimChannelImpl.ControlChannel.RespHasCommandResponse` | src/core.c:499-514 | the ring scan finds a message that is not an indication if and only if there is one |
| `MbimChannelImpl.ControlChannel.Hold` | src/core.c:554-583 | appends to the held ring and reports whether there was room |
| `MbimChannelImpl.ControlChannel.HandleCtlSync` | src/mbim_frontend/mbim_vendor_qmux.c:96-135 | answers a CTL_SYNC at once and defers one indication |
| `MbimChannelImpl.ControlChannel.PrepareResponse` | src/core.c:1574-1670 | dispatch by message type and length |
| `MbimChannelImpl.ControlChannel.OnSendEncapsulatedCommand` | src/core.c:1276-1360 | SEND on circular buffers: keeps the channel alert, only appends to what is queued and held |
| `MbimChannelImpl.ControlChannel.ProcessHeldCommand` | src/core.c:789-828 | the oldest held command is dequeued and answered |
| `MbimChannelImpl.ControlChannel.DrainBridgeIndications` | src/core.c:1084-1124 | the bridge loop equals the recursive drain |
| `MbimChannelImpl.ControlChannel.DrainSmsQueue` | src/core.c:1127-1148 | the SMS loop equals the recursive drain and reports whether a message was stored |
| `MbimChannelImpl.ControlChannel.DrainPendingIndications` | src/core.c:1051-1148 | the whole drain |
| `MbimChannelImpl.ControlChannel.OnGetEncapsulatedResponse` | src/core.c:1362-1572 | GET on circular buffers: returns the head of the response queue, keeps the channel alert and rings nothing |
| `MbimChannelImpl.ControlChannel.Ep0Tick` | src/core.c:1228-1274 | TICK on circular buffers: afterwards, with the endpoint up, a non-empty response queue has its doorbell rung |
| `Rings.Ring.Enqueue` | src/core.c:375-421 | the circular buffer refines a sequence: appends, or refuses at 15 |
| `Rings.Ring.Dequeue` | src/core.c:423-455 | the circular buffer refines a sequence: removes the head, or reports empty |
| `Rings.Ring.Count` | src/state_bridge/state_bridge.c:52-57 | the modular difference of the indices is the length of the sequence |
| `Rings.FindFirst` | src/state_bridge/state_bridge.c:98-103 | the scan stops at the first occurrence, or at the tail when there is none |
| `Rings.ShiftDown` | src/state_bridge/state_bridge.c:111-118 | the shifting loop closes the gap and keeps the order |
| `Rings.DropFirst` | src/state_bridge/state_bridge.c:90-123 | the sequence without the first match, order kept |
| `Rings.RemoveFirstAt` | src/state_bridge/state_bridge.c:90-123 | removing the first match is deleting one index |
| `StateBridge.PollConsistentIff` | src/state_bridge/state_bridge.c:367-409 | a poll keeps both histories alternating and replaying to the snapshot if and only if every edge it must tell finds a free slot |
| `StateBridge.HistoriesReplay` | src/state_bridge/state_bridge.c:367-409 | throughout a run home/deregistered and attached/detached alternate and replay to the latest snapshot if and only if no poll of the run finds the ring too full for an edge it must tell |
| `StateBridge.FromEmpty` | src/state_bridge/state_bridge.c:42-123 | the same if-and-only-if from start-up |
| `StateBridge.FullRingHidesRegistration` | src/state_bridge/state_bridge.c:59-74 | fifteen registration requests and then a registration: the host is never told of it |
| `StateBridge.BridgeQueue.PollSnapshot` | src/state_bridge/state_bridge.c:367-409 | on the ring: a true picture stays true exactly when the edges to be told find room |
| `StateBridge.BridgeQueue.Take` | src/state_bridge/state_bridge.c:76-88 | hands out the oldest indication and keeps the history and its truth |
| `StateBridge.BridgeQueue.Enqueue` | src/state_bridge/state_bridge.c:59-74 | queues an indication or drops it when full |
| `SessionManagementProofs.StartEstablishFollows` | src/ue_engine/ue_sm.c:205-238 | the recursion submit, refuse, retry ends, stays coherent and transmits within its budget, for every adapter |
| `SessionManagementProofs.HandleRejectFollows` | src/ue_engine/ue_sm.c:49-84 | a refusal retries only within the limit and stays within the remaining budget |
| `SessionManagementProofs.TickFollows` | src/ue_engine/ue_sm.c:338-392 | a tick stays within the remaining budget |
| `SessionManagementProofs.StepFollows` | src/ue_engine/ue_sm.c:304-431 | every event keeps the four coherent phases and the budget |
| `SessionManagementProofs.EstablishmentBudget` | src/ue_engine/ue_sm.c:187-263 | over any run and any adapter, each setting of the connect flag pays for at most (1 + max_retries)(1 + 4) establishment requests |
| `SessionManagementProofs.BudgetFromInit` | src/ue_engine/ue_sm.c:265-302 | from initialisation: ten requests per setting |
| `SessionManagementProofs.BudgetIsReached` | src/ue_engine/ue_sm.c:338-392 | the bound is exact for every retry limit |
| `SessionManagementProofs.ActiveOnlyByAccept` | src/ue_engine/ue_sm.c:394-408 | over any run a session becomes ACTIVE only through an accept received while ESTABLISHING |
| `SessionManagementProofs.RetransmissionsSpaced` | src/ue_engine/ue_sm.c:361-382 | while the network is silent the n-th retransmission is not before the deadline plus n - 1 periods of 16 s |
| `SessionManagementProofs.PtiDistinct` | src/ue_engine/ue_sm.c:18-25 | identities are in 1..254 and any 254 consecutive allocations are distinct |
| `SessionManagementProofs.RetransmissionRepeatsPtiIff` | src/ue_engine/ue_sm.c:119-165 | a retransmission repeats the opening request's PTI if and only if the allocator stood at 1 |
| `SessionManagementProofs.RetransmissionChangesPti` | src/ue_engine/ue_sm.c:361-377 | from initialisation, with an adapter that refuses the first request: the retry is opened with PTI 2 and retransmitted with PTI 1 |
| `SessionManagementProofs.ReleaseWaitsIff` | src/ue_engine/ue_sm.c:384-391 | a release in progress survives a tick if and only if no disconnect is pending and the wait has not run out |
| `SessionManagementProofs.ReleaseEndsAtNextTick` | src/ue_engine/ue_sm.c:348-354 | after a disconnect request the second tick ends the session at any time |
| `UeImpl.SmContext.TickT3580` | src/ue_engine/ue_sm.c:366-382 | transmits at most once, only while establishing and only when the armed deadline has come |
| `UeImpl.SmContext.Tick` | src/ue_engine/ue_sm.c:338-392 | keeps the machine coherent; transmits only within the budget left, never makes a session active, and ends it without a registration |
| `UeImpl.SmContext.OnEstablished` | src/ue_engine/ue_sm.c:394-408 | active afterwards exactly if establishing or active before; transmits nothing and leaves no larger budget |
| `UeImpl.SmContext.OnReject` | src/ue_engine/ue_sm.c:410-416 | whatever the retries are answered they stay within the budget left; a permanent cause ends the attempt without a transmission |
| `UeImpl.SmContext.OnReleased` | src/ue_engine/ue_sm.c:418-431 | ends a session that is active or being released and changes nothing otherwise |
| `UeImpl.SmContext.RequestConnect` | src/ue_engine/ue_sm.c:314-327 | pays for one allowance of attempts and transmits nothing itself |
| `UeImpl.SmContext.RequestDisconnect` | src/ue_engine/ue_sm.c:329-336 | adds no budget, and takes back a connect request not yet acted on |
| `UeImpl.SmContext.OnRadio` | src/ue_engine/ue_sm.c:304-312 | without the radio no session, no request and no budget to transmit remains |
| `MobilityManagementProofs.StepFollows` | src/ue_engine/ue_mm.c:322-432 | every event keeps coherent state, procedure and step, the retry limit and the attempt budget |
| `MobilityManagementProofs.RegistrationBudget` | src/ue_engine/ue_mm.c:134-226 | over any run each request consumes at most 1 + max_retries attempt identifiers |
| `MobilityManagementProofs.BudgetFromInit` | src/ue_engine/ue_mm.c:228-255 | from initialisation: three attempts per request |
| `MobilityManagementProofs.RegisteredOnlyByAccept` | src/ue_engine/ue_mm.c:389-402 | REGISTERED_HOME is reached only through an accept received while REGISTERING |
| `MobilityManagementProofs.SilenceGivesUp` | src/ue_engine/ue_mm.c:194-226 | the machine alone: an unanswered registration is back in DEREGISTERED after 2 + max - retry ticks 1200 ms apart; for the engine see GivenUpIff |
| `UeImpl.MmContext.Request` | src/ue_engine/ue_mm.c:322-344 | pays for 1 + max_retries attempts; a search starts from DEREGISTERED and REGISTERED_HOME |
| `UeImpl.MmContext.OnCellFound` | src/ue_engine/ue_mm.c:346-372 | within the budget; REGISTERING afterwards exactly if it was already or a search found the request submitted over 3GPP access |
| `UeImpl.MmContext.Tick` | src/ue_engine/ue_mm.c:411-432 | within the budget; time alone never registers, and starts an attempt only when an armed deadline has come |
| `UeImpl.MmContext.OnAccept` | src/ue_engine/ue_mm.c:389-402 | REGISTERED_HOME afterwards exactly if REGISTERING or REGISTERED_HOME before |
| `UeImpl.MmContext.OnReject` | src/ue_engine/ue_mm.c:404-409 | a refused registration is tried again exactly if the cause is temporary and a retry is left, otherwise DEREGISTERED; outside REGISTERING nothing changes |
| `UeImpl.MmContext.OnRadio` | src/ue_engine/ue_mm.c:257-277 | no registration and no procedure survives the radio switch, and no attempt is used up |
| `UeImpl.MmContext.OnSim` | src/ue_engine/ue_mm.c:279-298 | within the budget; SIM_NOT_READY afterwards exactly if the SIM is not ready |
| `UeEngineProofs.TickCouples` | src/ue_engine/ue_engine.c:1126-1420 | after a tick a session exists only under a registration and an RRC connection only over a link that was up at its end |
| `UeEngineProofs.EngineCoupling` | src/ue_engine/ue_engine.c:1512-1604 | in every run of API calls, downlink messages and link changes the coupling holds after each completed tick, and radio off means POWERED_OFF, INACTIVE and RRC idle |
| `UeEngineProofs.EngineBudget` | src/ue_engine/ue_engine.c:1320-1326 | whole engine: ten establishment requests per connect setting, three registration attempts per request |
| `UeEngineProofs.RecoversOnce` | src/ue_engine/ue_engine.c:1147-1167 | however long the link stays down, recovery from its loss fires at most once |
| `UeEngineSilence.FrozenForever` | src/ue_engine/ue_engine.c:1178-1183 | a registration in progress while the engine waits for the core network without an RRC connection, or while searching, stays as it is for ever when nothing arrives, however the link behaves |
| `UeEngineSilence.GivenUpIff` | src/ue_engine/ue_engine.c:1355-1414 | a registration nobody answers, ticked at any times over any link: once enough timeouts have passed it is given up if and only if the link was never found down during a wait for the core network that had not timed out |
| `UeEngineSilence.GivenUpOverLink` | src/ue_engine/ue_engine.c:1396-1410 | over a link that stays up it is always given up |
| `UeEngineSilence.LinkLossFreezes` | src/ue_engine/ue_engine.c:1386-1414 | from power-up: the link is lost right after RRC setup and the UE stays REGISTERING for ever while nothing arrives |
| `UeEngineProofs.NasKeeps` | src/ue_engine/ue_engine.c:457-655 | dispatch of a downlink NAS message keeps the invariant and the coupling |
| `UeEngineProofs.SetRadioKeeps` | src/ue_engine/ue_engine.c:1512-1604 | the radio switch keeps the invariant |
| `UeImpl.EngineContext.RealTick` | src/ue_engine/ue_engine.c:1126-1420 | keeps the engine invariant; afterwards a session exists only under a registration, an RRC connection only over a link that was up at the end, nothing with the radio off |
| `UeImpl.EngineContext.DrainQueue` | src/ue_engine/ue_engine.c:1194-1318 | whatever arrives and however much, the budgets and the session coupling hold after every PDU |
| `UeImpl.EngineContext.ProcessNasEvent` | src/ue_engine/ue_engine.c:457-655 | keeps budgets and coupling; the data session becomes active only by an accept that finds it establishing and is not for the IMS session |
| `UeImpl.EngineContext.Recover` | src/ue_engine/ue_engine.c:1147-1167 | a lost link under a registration or session leaves neither and counts one recovery; otherwise nothing changes |
| `UeImpl.EngineContext.AdvanceRrc` | src/ue_engine/ue_engine.c:1355-1414 | no RRC connection or setup survives a link that is down at the end of the tick |
| `UeImpl.EngineContext.SwitchRadio` | src/ue_engine/ue_engine.c:1512-1604 | radio off ends registration, session, RRC and IMS; radio on starts one fresh search, given a SIM |
| `UeImpl.EngineContext.RequestImsPdu` | src/ue_engine/ue_engine.c:1445-1498 | the IMS session is asked for only while registered, secured and connected, one at a time; every try takes a free PSI and a fresh PTI in 2..254, and one that is not sent leaves no session coming up |
| `NasSecurity.IncrementAddsOne` | src/ue_engine/ue_nas_security.h:118-133 | incrementing adds one modulo 2^24 |
| `NasSecurity.EstimateExactIff` | src/ue_engine/ue_nas_security.c:911-922 | the rebuilt COUNT is the sender's if and only if that is 0 to 255 ahead of the last accepted, around the end of 24 bits |
| `NasSecurity.CryptUndo` | src/ue_engine/ue_nas_security.c:364-387 | applying the keystream twice gives the data back, for every length |
| `NasSecurity.CryptIdentity` | src/ue_engine/ue_nas_security.c:364-387 | applying the keystream leaves data as it is exactly when that much keystream is zero |
| `NasSecurity.IncrementCounter` | src/ue_engine/ue_nas_security.c:377-385 | the carry loop adds one to the last four octets, wrapping |
| `NasSecurity.Ctr` | src/ue_engine/ue_nas_security.c:364-387 | counter mode in place over a range, the rest of the buffer untouched |
| `NasSecurity.AcceptedIffSealed` | src/ue_engine/ue_nas_security.c:879-963 | under an integrity algorithm exactly the messages sealed with the same keys at most 255 COUNTs ahead are accepted; any other changes neither context nor buffer |
| `NasSecurity.OpenSealed` | src/ue_engine/ue_nas_security.c:879-963 | a message of any protected type, length and algorithms, at most 255 COUNTs ahead, is accepted and moves the COUNT to its own; it is delivered as sent if and only if its type is ciphered, NEA2 is not selected, or that much keystream is zero |
| `NasSecurity.IntegrityOnlyGarbles` | src/ue_engine/ue_nas_security.c:836-839 | a message of type 1 under NEA2 that is accepted and delivered changed |
| `NasSecurity.StreamOpens` | src/ue_engine/ue_nas_security.c:879-963 | a stream of any length, direction, types and algorithms: every message accepted, every COUNT rebuilt also around the 24-bit wrap, the context at the last COUNT; the plaintexts come back in order if and only if every message is clear in that sense |
| `NasSecurity.UplinkRoundTrip` | src/ue_engine/ue_nas_security.c:785-869 | what the UE protects message after message, from any COUNT and across its wrap, a peer with the same keys opens in order, empty messages left out; always for ciphered types, otherwise if and only if all are clear |
| `NasSecurity.AdvanceIsPosition` | src/ue_engine/ue_nas_security.c:758-775 | the i-th counter block is COUNT, bearer and direction, zeros and i |
| `NasSecurity.PositionsDistinct` | src/ue_engine/ue_nas_security.c:758-775 | no two (COUNT, direction, block) triples share a counter block |
| `NasImpl.NasEndpoint.ProtectInto` | src/ue_engine/ue_nas_security.c:785-869 | builds the envelope in the buffer, advances the uplink COUNT, or refuses |
| `NasImpl.NasEndpoint.Unprotect` | src/ue_engine/ue_nas_security.c:879-963 | checks and deciphers in place |
| `NasImpl.NasEndpoint.CodeOf` | src/ue_engine/ue_nas_security.c:705-747 | the integrity code |
| `NasImpl.NasEndpoint.CipherInPlace` | src/ue_engine/ue_nas_security.c:749-779 | ciphering by algorithm |
| `Cmac.ShiftLeft` | src/ue_engine/ue_nas_security.c:292-302 | the carry loop doubles the block |
| `Cmac.DoubleIsMultiplicationByX` | src/ue_engine/ue_nas_security.c:292-302 | the subkey step multiplies by x modulo x^128 + x^7 + x^2 + x + 1, coefficient by coefficient |
| `Cmac.ScheduleLength` | src/ue_engine/ue_nas_security.c:317-323 | one block per started 16 octets, one for the empty message |
| `Cmac.Last` | src/ue_engine/ue_nas_security.c:325-337 | the last block, complete or padded, under its subkey |
| `Cmac.Compute` | src/ue_engine/ue_nas_security.c:304-353 | the loop computes the code of sections 2.3 and 2.4 of RFC 4493 for every length and every block cipher |
| `Digests.Sha256` | src/ue_engine/ue_nas_security.c:198-242 | the blocks compressed are those of the message padded as in section 5.1.1 of FIPS 180-4, for every length |
| `Digests.GapIsLeast` | src/ue_engine/ue_nas_security.c:213-223 | the padding gap is the smallest that completes a block |
| `Digests.PaddedIsWhole` | src/ims_service/ims_digest.c:113-126 | padded length is a multiple of 64 |
| `Digests.AbsorbConcat` | src/ue_engine/ue_nas_security.c:208-211 | absorbing whole blocks piecewise is absorbing them together |
| `Digests.Md5.Update` | src/ims_service/ims_digest.c:95-111 | the context stands for everything fed so far |
| `Digests.Md5.Final` | src/ims_service/ims_digest.c:113-126 | the digest is that of the padded input (sections 3.1 and 3.2 of RFC 1321) |
| `Digests.HashParts` | src/ims_service/ims_digest.c:154-202 | the digest does not depend on how the input is split over updates |
| `SecurityMode.AcceptedIsRemembered` | src/ue_engine/ue_engine.c:853-903 | an accepted Security Mode Command is remembered, whichever context it was for |
| `SecurityMode.NewlyAcceptedIff` | src/ue_engine/ue_engine.c:234-355 | a command not seen before is accepted if and only if a context has its key set, it came in a type-3 envelope with a payload that fits, and its code is the AES-CMAC under the derived key when it selects NIA2, zero when it selects NIA0 |
| `SecurityMode.NullIntegrityAccepted` | src/ue_engine/ue_engine.c:812-882 | whatever the keys, a command that selects NIA0 under a known key set is accepted with a zero code |
| `SecurityMode.ReplayIsIdempotent` | src/ue_engine/ue_engine.c:823-832 | delivering it again changes the uplink COUNT only, by the one reply |
| `SecurityMode.DeliverSameIff` | src/ue_engine/ue_engine.c:357-445 | a downlink PDU of any kind leaves keys, algorithms, ngKSI, both slots and the fingerprint alone if and only if what is inside is no newly accepted command and no admitted challenge with something new |
| `SecurityMode.ReplaysNeverRekey` | src/ue_engine/ue_engine.c:357-445 | over every run of downlink PDUs, uplink messages and resets after an accepted command: all of that stays throughout if and only if nothing is forgotten and every PDU other than the replayed command is harmless where it arrives |
| `SecurityMode.ChallengeBetweenReplays` | src/ue_engine/ue_engine.c:657-795 | an Authentication Request admitted between the command and its replay: the context in use carries the new keys under the old algorithms, and the replay leaves them so |
| `SecurityMode.RunKeepsCounted` | src/ue_engine/ue_engine.c:357-445 | in every run, whatever arrives, the COUNTs of both contexts stay 24-bit values |
| `NasImpl.NasEndpoint.VerifyCommand` | src/ue_engine/ue_engine.c:234-355 | check of the command under the new keys, then with overflow zero |
| `NasImpl.NasEndpoint.OnSecurityModeCommand` | src/ue_engine/ue_engine.c:797-930 | keys, slots and fingerprint change exactly when a command other than the stored one is accepted; the COUNTs stay 24-bit values |
| `NasImpl.NasEndpoint.OnAuthenticationRequest` | src/ue_engine/ue_engine.c:657-795 | keys and slots change exactly when the challenge is admitted and brings something new; the stored number becomes the challenge's exactly when admitted |
| `NasImpl.NasEndpoint.UnwrapInPlace` | src/ue_engine/ue_engine.c:366-436 | takes off the envelope of any type in the buffer; the message inside is left where it says |
| `NasImpl.NasEndpoint.OnDownlink` | src/ue_engine/ue_engine.c:357-445 | any PDU from envelope to handler: keys, slots and fingerprint stay exactly when it is harmless, and a remembered command always is |
| `Uper.ValueRoundTrip` | src/ue_engine/ue_rrc.c:112-182 | n bits of a value read back to it |
| `Uper.FieldsRoundTrip` | src/ue_engine/ue_rrc.c:112-182 | any list of (value, width) fields reads back, nothing behind it consumed |
| `Uper.LengthRoundTrip` | src/ue_engine/ue_rrc.c:215-249 | determinants round-trip for every length below 16384 and exist for no other |
| `Uper.OctetsRoundTrip` | src/ue_engine/ue_rrc.c:184-195 | octets read back at any bit position |
| `Uper.InfoTransferRoundTrip` | src/ue_engine/ue_rrc.c:423-512 | a DLInformationTransfer with any NAS of up to 8192 octets decodes to it and its transaction |
| `Uper.NasNeverAligned` | src/ue_engine/ue_rrc.c:484-506 | the NAS starts at bit 19 or 27, never on an octet boundary |
| `Uper.InfoTransferLooksLikeSetup` | src/ue_engine/ue_rrc.c:565-602 | every message the DL-DCCH decoder accepts also decodes on DL-CCCH as an RRCSetup with transaction 1 |
| `UperImpl.BitWriter.PutBits` | src/ue_engine/ue_rrc.c:112-132 | appends the bits, earlier bits untouched; fails exactly when the width is bad or the buffer ends |
| `UperImpl.BitWriter.PutOctets` | src/ue_engine/ue_rrc.c:134-143 | appends octets at any bit position |
| `UperImpl.BitReader.GetBits` | src/ue_engine/ue_rrc.c:161-182 | reads the next bits, fails at the end of the buffer, and fails without reading for a width outside 1..64 |
| `UperImpl.BitReader.GetLength` | src/ue_engine/ue_rrc.c:227-249 | reads a length determinant |
| `UperImpl.BitReader.ExtractOctets` | src/ue_engine/ue_rrc.c:476-506 | the aligned slice and the unaligned copy give the same octets |
| `UperImpl.MessageRoundTrip` | src/ue_engine/ue_rrc.c:265-296 | a receiver that knows the field widths gets every field and the NAS message back |
| `UperImpl.EncodeUlInfoTransfer` | src/ue_engine/ue_rrc.c:265-296 | the bits of the message, zero-padded, in the octets used; fails exactly on an empty or long NAS or a short buffer |
| `UperImpl.EncodeSetupComplete` | src/ue_engine/ue_rrc.c:359-413 | the same for RRCSetupComplete |
| `UperImpl.DecodeDlDcch` | src/ue_engine/ue_rrc.c:514-552 | the DL-DCCH decoder on every input |
| `UperImpl.DecodeDlCcch` | src/ue_engine/ue_rrc.c:565-602 | the DL-CCCH decoder on every input |
| `ImsIp.ChecksumAdd` | src/ims_service/ims_ip.c:17-26 | the 32-bit accumulator holds the exact sum of words, odd lengths included |
| `ImsIp.ChecksumFinish` | src/ims_service/ims_ip.c:28-33 | folding ends with the one's-complement value of the sum |
| `ImsIp.FoldStep` | src/ims_service/ims_ip.c:30-31 | one fold gets smaller and keeps the value modulo 65535 |
| `ImsIp.ReceiverAccepts` | src/ims_service/ims_ip.c:35-57 | the built header and the UDP segment with pseudo header each sum to 0xFFFF at the receiver (RFC 1071, RFC 768) |
| `ImsIp.ParseBuilt` | src/ims_service/ims_ip.c:59-95 | parsing a built packet returns addresses, ports and payload |
| `ImsIp.ParsesIffCarries` | src/ims_service/ims_ip.c:59-95 | parsing yields a datagram if and only if the packet is a 20-octet IPv4 UDP header, options, that datagram's segment, padding to the total length and anything behind it, whatever its checksums |
| `ImsIp.ParseUdp` | src/ims_service/ims_ip.c:59-95 | every read lies inside the packet; the result is the one datagram the packet carries, or none |
| `ImsIp.Build` | src/ims_service/ims_ip.c:97-138 | writes that packet for payloads of up to 65507 octets, otherwise changes nothing |
| `RanCells.BestIsBest` | src/ue_engine/ue_ran_transport.c:430-441 | selection names a valid cell of maximal dBm, or -1 exactly when none exceeds -999 |
| `RanCells.ExpireKeeps` | src/ue_engine/ue_ran_transport.c:449-472 | expiry keeps the table sound and leaves no cell older than the timeout |
| `RanCells.AckKeeps` | src/ue_engine/ue_ran_transport.c:571-602 | a heartbeat ack keeps the table sound |
| `RanCells.TickKeeps` | src/ue_engine/ue_ran_transport.c:767-814 | after a successful tick the table is sound, fresh, and CONNECTED holds exactly when there is a serving cell |
| `RanCells.AlwaysSound` | src/ue_engine/ue_ran_transport.c:232-348 | in every run: the count is the number of valid cells, ids and STIs are distinct, the serving id is best |
| `RanCells.CellTable.SelectBest` | src/ue_engine/ue_ran_transport.c:430-441 | the serving cell is one than which none is stronger, or none because none exceeds -999 dBm |
| `RanCells.CellTable.ExpireCells` | src/ue_engine/ue_ran_transport.c:449-472 | keeps the table sound; every cell left was heard within the timeout |
| `RanCells.CellTable.FindBySti` | src/ue_engine/ue_ran_transport.c:393-402 | first valid cell of that STI |
| `RanCells.CellTable.FindFree` | src/ue_engine/ue_ran_transport.c:415-428 | first free slot |
| `RanCells.CellTable.OnHeartbeatAck` | src/ue_engine/ue_ran_transport.c:571-602 | keeps one entry per transmitter, the count and the best serving cell; no cell becomes older |
| `RanCells.CellTable.RunTick` | src/ue_engine/ue_ran_transport.c:767-814 | keeps the table sound and fresh; after a successful tick CONNECTED holds exactly when there is a serving cell |
| `Ntb.Deframe` | src/mbim_frontend/mbim_ntb.c:30-81 | the nested walk delivers what the recursive chain describes and ends, for arbitrary input |
| `Ntb.WalkTable` | src/mbim_frontend/mbim_ntb.c:60-71 | the entry loop |
| `Ntb.ChainInside` | src/mbim_frontend/mbim_ntb.c:48-78 | only non-empty slices inside the block are delivered |
| `Ntb.DeframeFramed` | src/mbim_frontend/mbim_ntb.c:83-117 | a framed datagram is deframed to exactly itself |
| `Ntb.SizeCheckExactIff` | src/mbim_frontend/mbim_ntb.c:87-93 | the 32-bit size check admits exactly the datagrams that can be framed if and only if the length is below 2^32 - 31 or the wrapped size exceeds the buffer |
| `Ntb.FrameSingle` | src/mbim_frontend/mbim_ntb.c:83-117 | writes the frame, or returns 0 exactly when it does not fit, with the sizes computed in 32 bits |
| `SmsStore.InfoFits` | src/mbim_frontend/mbim_handlers.c:196-263 | a reply over the whole store takes at most 2248 of 4048 octets |
| `SmsStore.RecordsDisjoint` | src/mbim_frontend/mbim_handlers.c:220-255 | records lie one behind the other inside the buffer |
| `SmsStore.HostReadsBack` | src/mbim_frontend/mbim_handlers.c:196-263 | following the offset/size pairs recovers exactly the included records in slot order |
| `SmsStore.StepValid` | src/mbim_frontend/mbim_handlers.c:79-126 | appending, deleting and reading keep PDUs within 1 to 256 octets and every message its own serial number |
| `SmsStore.IndicesDistinctIff` | src/mbim_frontend/mbim_handlers.c:75-126 | throughout a run the 32-bit indices of the stored messages are pairwise different if and only if no message is stored under an index, modulo 2^32, that another message still stored has |
| `SmsStore.DistinctBelowWrap` | src/mbim_frontend/mbim_handlers.c:75-106 | as long as fewer than 2^32 messages have been stored the indices never collide |
| `SmsStore.IndicesCollide` | src/mbim_frontend/mbim_handlers.c:75-126 | from the empty store: eight messages and 2^32 - 6 more leave two messages with index 2, and deleting 2 frees both |
| `SmsStore.DeletableAloneIff` | src/mbim_frontend/mbim_handlers.c:120-126 | some delete request frees just one message if and only if no other stored message shares its index and the index is not 0, or it is the only one stored |
| `SmsStore.ReportedOnce` | src/mbim_frontend/mbim_handlers.c:582-599 | in every run, across the wrap of the 32-bit index, no message appears twice in the Flag=New replies |
| `SmsStore.WireBuilder.Reserve` | src/mbim_frontend/mbim_wire.c:71-86 | reserves and clears, or sets the overflow flag |
| `SmsStore.MessageStore.AppendPdu` | src/mbim_frontend/mbim_handlers.c:79-106 | first free slot, or slot 0 when full; distinct indices stay so exactly when the new one is not taken |
| `SmsStore.MessageStore.Delete` | src/mbim_frontend/mbim_handlers.c:120-126 | frees exactly the messages with that 32-bit index, or all for 0 |
| `SmsStore.MessageStore.BuildReadInfo` | src/mbim_frontend/mbim_handlers.c:196-263 | the reply in the buffer, or 0 exactly when it does not fit; its messages are marked either way |
| `SmsStore.MessageStore.HostSmsRead` | src/mbim_frontend/mbim_handlers.c:582-599 | a host SMS_READ always fits in 2248 octets and reads back to exactly the included records, for any number of messages stored before |
| `ImsRegister.TimerAgrees` | src/ims_service/ims_service.c:915-970 | refresh or retry is needed exactly when a deadline is reported and the time has reached it |
| `ImsRegister.RunKeeps` | src/ims_service/ims_service.c:1333-1373 | register_attempts stays at most 5 in every run |
| `ImsRegister.FiveInitials` | src/ims_service/ims_service.c:1532-1555 | until a 200 OK or a change of the PDU session at most five initial REGISTERs are sent |
| `ImsRegister.OneRefreshPerOk` | src/ims_service/ims_service.c:1362-1367 | every 200 OK pays for at most one refresh |
| `ImsRegister.RefreshLiesAhead` | src/ims_service/ims_service.c:989-1008 | a 200 OK arms a refresh at least a second ahead, whatever expiry it names |
| `ImsRegister.DeadlineIff` | src/ims_service/ims_service.c:915-970 | a reachable service has a REGISTER due or a deadline exactly when it is not dormant |
| `ImsRegister.AwakeIff` | src/ims_service/ims_service.c:915-970 | throughout a run a reachable service has a REGISTER due or a deadline if and only if no event sends its refresh, its last attempt or one at time 0, answers a challenge then, or names a P-CSCF to a service dormant without it |
| `ImsRegister.SleepsForever` | src/ims_service/ims_service.c:1333-1383 | the worker alone never wakes a service that has nothing due and no deadline |
| `ImsRegister.LostRefreshSleeps` | src/ims_service/ims_service.c:1355-1367 | from start-up: after one lost refresh the service never registers or refreshes again by itself |
| `ImsRegister.PassSettles` | src/ims_service/ims_service.c:1333-1383 | a pass leaves nothing due at its own time, so the next deadline lies ahead and the worker never spins |
| `ImsRegister.Worker.NextDeadline` | src/ims_service/ims_service.c:942-970 | at every time a retry or refresh is due exactly if a deadline is reported and has come |
| `ImsRegister.Worker.Pass` | src/ims_service/ims_service.c:1355-1383 | at most one initial REGISTER, counted and within five, at most one refresh, and nothing left due |
| `ImsRegister.Worker.Accepted` | src/ims_service/ims_service.c:989-1008 | the next refresh lies at least a second ahead and is the deadline; the attempts are available again |
| `ImsRegister.Worker.Challenged` | src/ims_service/ims_service.c:1009-1031 | answering uses up no attempt and starts the wait for the answer anew |
| `ImsRegister.Worker.SetPduActive` | src/ims_service/ims_service.c:1521-1555 | without the PDU session nothing is ever due; with a new one and a P-CSCF a REGISTER is due at once |

## Left out

- USB raw-gadget I/O, sockets, threads, clocks, configuration files and logging: foreign calls.
- AES rounds, SHA-256 and MD5 compression, Milenage and the key derivation itself: fixed tables; they are arbitrary functions here.
- SIP text building and header scanning, AT responses, USB descriptors and the fixed per-CID layouts: long and shallow.
- RLS, the APN table, the RP-DATA codec, HMAC, `src/ue_core`, `src/ue_backend`: easier codecs, or code the modem does not use.
- RRCSetupRequest encoding: one more list of fixed-width fields, covered by the field round trip.
- Command bodies: the channel sees a command as its type, length, transaction, and whether it is a CTL_SYNC or a REGISTER_STATE set; like the handlers, it answers every other command of 48 bytes or more.
- Answering commands in overall arrival order: not promised by the code; what holds instead is HeldAnswersInOrder and AtMostOneOvertakes.
- The interrupt write of the doorbell is taken to succeed; the source only logs its result.
- Counters used as labels (attempt and cell identifiers) and times are unbounded; their wrap-around after 2^31 or more steps is not modelled.
- UeEngineProofs.EngineCoupling: speaks of the last reading of the link in the tick, because the link may change between two readings.
- NasSecurity.StreamOpens: the peer computes its codes with the same function, which gives 0 for messages of more than 8192 octets.
- SmsStore.MessageStore.BuildReadInfo: after an overflow the source stores record fields behind the capacity; the caller is asked for 72 octets of room there when the reply does not fit.
- Ntb.FrameSingle: for lengths the 32-bit size check is exact for; beyond them, which SizeCheckExactIff names, the copy leaves the buffer.
- RanCells.CellTable.RunTick: PDUs, pending acknowledgements and the socket are not part of the table.
- NAS messages that change neither the machines nor a context (identity, configuration update) are a single no-op case; authentication belongs to the security model and is a no-op in the engine model.
- Failures inside the key derivation of an Authentication Request: the derivation is a total function here.
