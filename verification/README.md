# A verified model of the Bluetooth emulator and of the GATT client

This project models the parts of the BlueZ 5.49 tree in which the order of events matters, in Dafny, and
proves what they promise. Verify it with `dafny verify dfyconfig.toml`.

| part | files | what is modelled |
|---|---|---|
| SMP pairing | `Smp*.dfy` | two emulated hosts that pair over LE, their controllers, the sockets between them, and their command queues |
| H4 streams | `H4*.dfy` | the packet reassembly loop of the serial, B1EE and server front ends, down to commands on the wire |
| HCI commands | `Hci*.dfy` | the host's command queue and credits, closed with the emulated controller's replies |
| ATT and GATT | `Att*.dfy`, `Gatt*.dfy` | the ATT list codec, discovery, long reads and writes, service registration |
| LE controller | `Le*.dfy` | address lists, duplicate filter, advertising and scan scheduling, whole scan sessions, and one controller's advertising at another |
| Advertising | `BtdevAdvertising.dfy` | legacy advertising between emulated devices |

Every part has the same shape. A specification module describes each operation as a function from one
value to the next. A class, or a method with a loop, does what the C code does, in place, and is proved
against that function. Lemmas then speak about whole runs. Beside them stand lemmas that say the same in
the terms of the user and the wire, without the functions of the specification: what two hosts with given
settings say to each other (`SmpTranscript`) and how an end answers any peer (`SmpAnyPeer`), packets octet by
octet and cuts by position (`H4Packets`, `AttWire`), attributes by the options and property bits that were
given for them (`GattPermissions`), refused and senseless answers (`GattRefusals`, `GattFailures`), and what
commands and advertising events mean in addresses, data and milliseconds (`LeCommands`, `LeAir`).

## SMP pairing

A run (`SmpSystem.Exec`) is any interleaving of four parties: two hosts and their two controllers, joined
by FIFO queues. The cryptographic toolbox is five arbitrary functions; all that is required of it is that
both ends of a Diffie-Hellman exchange compute the same secret. `SmpPhases` describes an honest pairing
phase by phase: what each end holds, what is in flight each way, and all that has been said. `SmpReach`
proves that every move of every party leads from one phase to another, so that the theorems in
`SmpTheorems` hold for every schedule. `SmpTranscript` writes the whole of a run out, over the settings of the
two hosts: which of them shows a passkey and which asks for it, and all that is said. `SmpCredits` adds the hosts' command queues: whatever other commands
have the credit, every run is still one of those.

The model follows the code where code and protocol differ:

- `pairing_cfm` and `pairing_rnd` send a literal zero as the legacy random value, and `prnd` is never
  assigned, so legacy runs are the ones with zero nonces.
- `dhkey_check` sends Pairing Failed on a mismatch and carries on, so the link is encrypted all the same
  (`RefusalIsNotFinal`). A mismatch between honest ends happens exactly if the value computed over the
  passkey differs from the one over zero, because `sc_dhkey_check` leaves its `r` at zero while
  `dhkey_check` fills it in; with the zero passkey that `smp_conn_add` leaves it never does.
- The link key bit is never cleared from `remote_key_dist`, so an initiator that agreed on a link key in
  legacy pairing, which takes two dual-mode hosts, never distributes its own keys (`QuietRun`).
- `smp_get_ltk` takes an all-zero key for no key at all; such a run ends unencrypted.

## Departures found elsewhere

Each is stated by a lemma, next to the condition under which the code does what it should.

- A read that leaves part of a header behind something it consumed makes the reader take the buffer to
  begin with as many octets as that read brought, and parse those again: packets among them arrive twice
  (`H4.BadCutReplays`, `H4.ReplayedTwice`, `H4.BadCutExample`). If the read had begun inside a packet, and
  not like one, nothing is delivered any more (`H4.BadCutJams`, `H4.JammedForGood`).
- A command issued from a completion callback goes ahead of those that wait (`HciSystem.CallbackOvertakes`).
  A callback that issues its own command again each time keeps all that wait from the controller for ever,
  exactly if the reply to that command calls back (`HciProgress.StarvesIff`).
  The controller does not answer Add SCO Connection, which would block the queue for good
  (`HciSystem.UnansweredBlocks`); no function of this host issues that command.
- `dec_prep_write_resp` accepts requests only (`AttCodec.PrepWriteRoundTrip`).
- Characteristic discovery goes on at handle 0 after a declaration at handle 0xffff, where a server that
  follows the rules refuses it, so that the user gets an error exactly if there is such a declaration
  (`GattServer.FailsIffDeclaredLast`), and another server can keep it going for ever
  (`GattDiscover.EndlessIff`).
- A long read of exactly 65535 octets reports nothing (`GattLong.ReadLongExactly`); a long write ends only
  for an MTU of at least 6 and a value of at most 65535 octets (`GattLong.WriteLongExactly`).
- `gatt_service_add` counts one handle for every notifying PROPS option, and uses one only for the last of
  them. Its final assertions hold exactly if every characteristic was given as many as its last one needs,
  and not all handles are taken (`GattService.CountedIsUsed`, `GattService.AssertionHolds`, `GattService.CountedTwice`).
- `find_uuid128_avail` wants one handle more than it needs below the first service, and overlooks what is
  there already (`GattAvail.FindUuid128Avail`).
- Under a white list policy the packets of a peer whose key is in the resolving list change nothing,
  whether or not the peer is listed (`LeReceive.WhiteListPolicy`, `LeSession.KnownHasNoEffect`).
- `mainloop_modify_timeout` does not set a timer to 0 ms. A scan window that is one unit shorter than its
  interval is therefore the last one (`LeScheduler.StallsIffOneShort`, `LeScheduler.NeverAgain`), and
  directed advertising, whose intervals are not checked, can die without being disabled
  (`LeScheduler.AdvertisesIffLongEnough`, `LeScheduler.DeadStaysDead`).
- Every emulated LE controller has the null address as its public one, since nothing sets it, and reports
  directed advertising to its host whoever it is directed at (`LeAir.EventHeard`).
- A search for included services that is sent back ends with Unlikely Error, whatever was wrong before
  (`GattFailures.IncludeAnswered`).
- A refused request to start a running scan reports every advertiser again
  (`BtdevAdvertising.RefusedScanReportsAgain`, `BtdevAdvertising.HeardEachTime`).

## Model

| member | source | states |
|---|---|---|
| SmpTypes.MethodsAgree | blueZ/emulator/smp.c:129-192 | for every request and response, whatever the initiator flags, both ends choose a passkey method or neither does, at most one of them displays it, and they agree on numeric comparison |
| SmpTranscript.ScMethodChosen | blueZ/emulator/smp.c:113-192 | without MITM protection on either side just works; with it numeric comparison exactly if both users can answer, a passkey exactly if neither end is without input and output and one has only a keyboard, or one only a display and the other a keyboard, shown or asked for by capability; unknown capabilities ask for a confirmation |
| SmpTranscript.LegacyMethodChosen | blueZ/emulator/smp.c:113-192 | the same for legacy pairing, by the same capabilities |
| SmpConnection.SmpConn.constructor | blueZ/emulator/smp.c:851-874 | a new connection has zero keys, masks and rounds, and public address types |
| SmpConnection.SmpConn.Pair | blueZ/emulator/smp.c:691-707 | the request offers every key the host supports and is kept as `preq` |
| SmpConnection.SmpConn.SetKeyDist | blueZ/emulator/smp.c:448-456 | both masks are those of the response, without the encryption and link key bits if both sides asked for Secure Connections |
| SmpConnection.SmpConn.PairingReq | blueZ/emulator/smp.c:424-462 | the responder answers with the common keys and takes the masks dual to the initiator's |
| SmpConnection.SmpConn.PairingRsp | blueZ/emulator/smp.c:464-498 | the initiator continues with its public key, or in legacy pairing with its confirm value |
| SmpConnection.SmpConn.MakeAndSendPublicKey | blueZ/emulator/smp.c:222-230 | the key pair is kept and its public half sent |
| SmpConnection.SmpConn.ScMackeyAndLtk | blueZ/emulator/smp.c:260-279 | both keys come from the shared secret and the nonces in initiator-responder order |
| SmpConnection.SmpConn.ScDhkeyCheck | blueZ/emulator/smp.c:232-258 | the check covers the sender's own features and a zero `r` |
| SmpConnection.SmpConn.ScPasskeySendConfirm | blueZ/emulator/smp.c:281-296 | the confirm value commits to the passkey bit of the current round |
| SmpConnection.SmpConn.ScPasskeyRound | blueZ/emulator/smp.c:298-362 | one step of a passkey round, including the refusal of a wrong confirm value and the twentieth round |
| SmpConnection.SmpConn.PairingCfm | blueZ/emulator/smp.c:499-531 | what a confirm value makes each role do in each kind of pairing |
| SmpConnection.SmpConn.ScRandomPdu | blueZ/emulator/smp.c:533-557 | the nonce is checked against the stored confirm value, and the keys are derived |
| SmpConnection.SmpConn.VerifyRandom | blueZ/emulator/smp.c:364-389 | the key is derived, and encryption started by the initiator, exactly if the confirm values agree |
| SmpConnection.SmpConn.PairingRnd | blueZ/emulator/smp.c:559-581 | what a random value makes each role do, and that a refusal is sent on |
| SmpConnection.SmpConn.Distribute | blueZ/emulator/smp.c:391-422 | exactly the PDUs of the local mask, in order, with the sender's own identity address |
| SmpConnection.SmpConn.KeyReceived | blueZ/emulator/smp.c:587-614 | one bit of the remote mask is cleared, and an initiator with an empty mask distributes its keys |
| SmpConnection.SmpConn.ReceivePublicKey | blueZ/emulator/smp.c:616-646 | the shared secret and the association model are set before anything else is said |
| SmpConnection.SmpConn.ReceiveDhkeyCheck | blueZ/emulator/smp.c:648-689 | a mismatch is reported, and the handler carries on in either case |
| SmpConnection.SmpConn.Data | blueZ/emulator/smp.c:709-763 | every PDU has the effect of its handler, and the others none |
| SmpConnection.SmpConn.Encrypted | blueZ/emulator/smp.c:833-849 | keys are distributed once the link is encrypted, by the initiator only if it expects none |
| SmpConnection.SmpConn.LtkRequested | blueZ/emulator/smp.c:794-805 | the controller gets the key, or a negative reply for an all-zero one |
| SmpHandlers.RequestR | blueZ/emulator/smp.c:424-462 | an honest request takes the pairing to its second phase |
| SmpHandlers.ResponseI | blueZ/emulator/smp.c:464-498 | an honest response opens legacy pairing or the exchange of public keys |
| SmpHandlers.LegacyRandomI | blueZ/emulator/smp.c:364-389 | in an honest legacy run the initiator accepts the responder's confirm value and starts encryption with the run's key |
| SmpHandlers.PublicKeyR | blueZ/emulator/smp.c:616-646 | the responder answers with its key, and with a confirm value exactly if no passkey is used |
| SmpHandlers.RoundEndsI | blueZ/emulator/smp.c:298-362 | after its half of the last round the initiator holds the responder's keys, because the shared secret is symmetric |
| SmpHandlers.RoundRandomR | blueZ/emulator/smp.c:298-362 | in an honest round the responder's check succeeds and it answers with its nonce |
| SmpHandlers.LastRandomI | blueZ/emulator/smp.c:320-341 | the twentieth nonce makes the initiator send its DHKey check |
| SmpHandlers.CheckValues | blueZ/emulator/smp.c:648-676 | each end expects its peer's check over the passkey, or over zero without one |
| SmpHandlers.KeyTaken | blueZ/emulator/smp.c:587-614 | the remote mask after `n` key PDUs, and when the initiator answers |
| SmpSteps.DrainSteps | blueZ/emulator/smp.c:391-422 | which bits of a mask are left after any number of the peer's key PDUs |
| SmpSteps.PeerDoneLast | blueZ/emulator/smp.c:587-614 | the mask is empty exactly after the last key PDU of a run without a link key |
| SmpReach.LeadsI | blueZ/emulator/smp.c:709-763 | every event at the initiator's host leads from one phase to the next, with the books kept |
| SmpReach.LeadsR | blueZ/emulator/smp.c:709-763 | the same at the responder's host |
| SmpReach.StartEncryptTaken | blueZ/emulator/btdev.c:2206-2228 | starting encryption stores the key and asks the responder for its own |
| SmpReach.LtkReplyTaken | blueZ/emulator/btdev.c:2230-2263 | equal keys give both hosts an Encryption Change with success |
| SmpReach.LtkNegReplyTaken | blueZ/emulator/btdev.c:2265-2289 | a negative reply tells the initiator that the key is missing |
| SmpReach.MoveKeepsInv | blueZ/emulator/smp.c:259-763 | the invariant over both connections, everything in flight and both transcripts holds after any move of any party, and the remaining work shrinks |
| SmpReach.Reach | blueZ/emulator/smp.c:259-763 | every schedule stays on the path of phases |
| SmpReach.ReachOn | blueZ/emulator/smp.c:259-763 | no continuation of a run goes back to an earlier phase |
| SmpTheorems.LtkAgreement | blueZ/emulator/smp.c:260-279 | from the moment encryption is started both ends hold the key that it uses, and the same MacKey, for ever |
| SmpTheorems.RoundsShape | blueZ/emulator/smp.c:298-362 | `k` rounds are `k` confirm values, each followed by a nonce, and nothing else |
| SmpTheorems.PasskeyLockstep | blueZ/emulator/smp.c:281-362 | the responder is at most one round ahead, and no DHKey check is said before both ends have done all rounds and hold the same keys |
| SmpTheorems.FailureOnlyIfRefused | blueZ/emulator/smp.c:671-682 | Pairing Failed is said only where the check over a non-zero passkey differs from the one over zero |
| SmpTheorems.OnePduPerKey | blueZ/emulator/smp.c:391-422 | a mask's PDUs are each of its keys once and no other |
| SmpTheorems.KeysInOrder | blueZ/emulator/smp.c:391-422 | no key is sent twice, both ends distribute by the same mask, and the initiator is silent until all of the responder's keys have reached it |
| SmpTheorems.QuietRun | blueZ/emulator/bthost.c:1057-1079 | a run with nothing left to do is encrypted at both ends with the same key and has distributed all keys that it will, or has an all-zero key and is not encrypted |
| SmpTheorems.RefusalIsNotFinal | blueZ/emulator/smp.c:678-688 | a completed run says Pairing Failed exactly where a check was refused, and is encrypted all the same |
| SmpTheorems.Completes | blueZ/emulator/bthost.c:1214-1245 | every run can be continued to its end, every step of the way delivering something |
| SmpTheorems.BoundedWork | blueZ/emulator/smp.c:302-304 | no schedule finds more than 619 deliveries to make |
| SmpTranscript.FeaturesSaid | blueZ/emulator/smp.c:424-462 | what the two hosts offer each other, whether that means Secure Connections, and which keys are left to distribute, by their settings |
| SmpTranscript.PasskeyRunExactly | blueZ/emulator/smp.c:161-192 | a run uses a passkey exactly if a host asks for MITM protection and the capabilities of the two call for one |
| SmpTranscript.RoundBit | blueZ/emulator/smp.c:286-287 | a round commits to 0x80 and one more bit of the passkey |
| SmpTranscript.BitsArePasskey | blueZ/emulator/smp.c:286-287 | the bits of the rounds give the passkey back |
| SmpTranscript.WholeRun | blueZ/emulator/smp.c:391-763 | a run with nothing left to do has said exactly these PDUs, written out over the settings, keys and nonces of the hosts, with 20 rounds exactly if a passkey is called for; it is encrypted with this key and has distributed these keys |
| SmpTranscript.SaidSoFar | blueZ/emulator/smp.c:391-763 | at every moment of every run each end has said a beginning of that |
| SmpTranscript.MethodOfRun | blueZ/emulator/smp.c:616-646 | once a DHKey check is said both ends use the method for their capabilities, the right one asks and the right one shows, and 20 rounds are done or none |
| SmpAnyPeer.RequestAnswered | blueZ/emulator/smp.c:424-462 | any request is answered with the keys it asked for and the host can give, and the masks are the dual ones |
| SmpAnyPeer.ResponseAnswered | blueZ/emulator/smp.c:464-498 | any response settles the masks and the kind of pairing |
| SmpAnyPeer.WrongNonceRefused | blueZ/emulator/smp.c:310-318 | a nonce that was not committed to derives no key, ends no round and starts no encryption; Secure Connections answers it with Confirm Value Failed |
| SmpAnyPeer.LateNonceIgnored | blueZ/emulator/smp.c:302-304 | after the last round a nonce changes nothing |
| SmpAnyPeer.CheckAnswered | blueZ/emulator/smp.c:648-689 | any wrong DHKey check is answered with Pairing Failed, and then as a right one would be |
| SmpAnyPeer.KeyClearsItsBit | blueZ/emulator/smp.c:583-614 | each key PDU clears the bit of its key, and the initiator answers the last one with its own keys |
| SmpAnyPeer.EncryptedIffSameKey | blueZ/emulator/btdev.c:2230-2263 | from any state the link is encrypted at both hosts exactly if the two controllers were given the same key |
| SmpAnyPeer.MissingKeyReported | blueZ/emulator/btdev.c:2265-2289 | from any state a negative reply is told to the initiator alone, and encrypts nothing |
| SmpAnyPeer.KeyGiven | blueZ/emulator/smp.c:794-805 | a host gives the key that it derived, unless it is all zero |
| SmpCredits.Refines | blueZ/emulator/bthost.c:682-740 | every run of the two hosts with their command queues, with any other commands of their users in between, is a run without credits: waiting only delays |
| SmpCredits.LtkAgreementWithCredits | blueZ/emulator/bthost.c:2459-2469 | both ends agree on the key from the moment encryption is ordered, even while that order waits for a credit |
| SmpCredits.QuietRunWithCredits | blueZ/emulator/bthost.c:1214-1245 | when nothing is left to deliver no command waits, and pairing has ended as without credits |
| H4.ParseConserves | blueZ/emulator/serial.c:116-157 | the whole-stream parser neither loses nor invents octets, and delivers only well-framed packets |
| H4.ParseOfFlat | blueZ/emulator/serial.c:116-157 | parsing a concatenation of well-framed packets gives back those packets |
| H4.ParseSplit | blueZ/emulator/serial.c:116-157 | parsing a stream in two pieces is parsing it in one |
| H4.FeedRefines | blueZ/emulator/serial.c:86-158 | one read delivers what the whole-stream parser would, and leaves the right state exactly if its cut is a good one |
| H4.FeedAllRefines | blueZ/emulator/b1ee.c:115-184 | any sequence of reads with good cuts refines the whole-stream parser, for either header size |
| H4.Reassembled | blueZ/emulator/server.c:104-182 | however a stream of packets is cut, without bad cuts exactly those packets are delivered, in order, and nothing is left over |
| H4.TracksIffGoodCuts | blueZ/emulator/serial.c:122-125 | the state is right after every read exactly if every cut is good |
| H4.BadCutReplays | blueZ/emulator/serial.c:122-125 | after a bad cut, from whatever state, the buffer is taken to begin with as many octets as the read brought, and the next read parses those again |
| H4.ReplayedTwice | blueZ/emulator/serial.c:122-125 | between packets, every packet within those octets is in both deliveries |
| H4.BadCutJams | blueZ/emulator/serial.c:112-138 | those octets begin like no packet exactly if the read began inside one and not like one |
| H4.JammedForGood | blueZ/emulator/serial.c:132-134 | from then on no sequence of reads delivers anything |
| H4.BadCutExample | blueZ/emulator/serial.c:122-125 | two commands in two reads that arrive as three |
| H4Reader.Reader.Fill | blueZ/emulator/serial.c:101-109 | a read puts its octets behind what was kept |
| H4Reader.Reader.Open | blueZ/emulator/serial.c:126-137 | a complete header allocates exactly the packet that it announces |
| H4Reader.Reader.Consume | blueZ/emulator/serial.c:140-156 | a packet is delivered whole, or as much as there is is kept, and every copy stays inside the allocation |
| H4Reader.Reader.Read | blueZ/emulator/serial.c:86-158 | one call of the callback has exactly the effect of the specification, on state and deliveries |
| H4Packets.TakenWhole | blueZ/emulator/serial.c:126-129 | the packet whose header ends with the number of its parameters is taken whole, with any parameters up to 255 and anything behind it |
| H4Packets.DeliveredIsWritten | blueZ/emulator/serial.c:126-157 | every packet delivered is such a packet: its length octet counts the octets behind its header |
| H4Packets.CutStream | blueZ/emulator/serial.c:112-157 | what any part of a stream of packets parses to, by the number of its octets |
| H4Packets.BadCutByPosition | blueZ/emulator/serial.c:122-125 | a cut is bad exactly if it lies inside a header that began after the read before |
| H4Packets.GoodCutsByPosition | blueZ/emulator/serial.c:122-125 | all cuts of a stream are good exactly if no read breaks a header |
| H4Packets.PacketsReassembled | blueZ/emulator/serial.c:86-158 | a stream of packets is delivered as it was written if no read breaks a header |
| H4Packets.UnknownDropped | blueZ/emulator/serial.c:132-134 | from an unknown type octet on the rest of a read is dropped |
| H4Packets.CommandsReassembled | blueZ/emulator/serial.c:86-158 | commands written as opcode and parameters, in reads of up to 4093 octets that break no header, are delivered exactly |
| H4Packets.ReadAll | blueZ/emulator/serial.c:86-158 | any number of callbacks has the effect of the specification |
| H4Packets.ReceiveCommands | blueZ/emulator/serial.c:86-158 | the callbacks hand on exactly the commands that were written |
| HciQueue.CommandQueue.QueueCommand | blueZ/emulator/bthost.c:471-496 | a command is appended, and both link directions stay well formed |
| HciQueue.CommandQueue.SendCommand | blueZ/emulator/bthost.c:682-709 | a credit is spent on the command, or the command waits |
| HciQueue.CommandQueue.NextCmd | blueZ/emulator/bthost.c:711-740 | the head is sent if there is a credit, and leaves a well-formed list |
| HciQueue.CommandQueue.Replied | blueZ/emulator/bthost.c:787-878 | a reply sets the credits, lets the callback issue its commands, and then releases one that waits |
| HciQueue.CommandQueue.Drain | blueZ/emulator/bthost.c:412-422 | following the back links frees every waiting command exactly once |
| HciSystem.DefaultCmd | blueZ/emulator/btdev.c:2301-3679 | the replies to each command on each type of device, AMP included, case by case |
| HciSystem.AnsweredOnce | blueZ/emulator/btdev.c:2301-3679 | every type of device answers every command that the host issues exactly once, and Add SCO Connection only where it is unsupported |
| HciSystem.AnsweredByGroup | blueZ/emulator/btdev.c:2301-3679 | by the number of its opcode and the type of device each command is unknown, answered with a status, completed, or not answered |
| HciSystem.CreditEffect | blueZ/emulator/bthost.c:711-740 | one credit goes to the callback's first command, else to the head of the queue |
| HciSystem.ReplyTaken | blueZ/emulator/bthost.c:787-878 | a reply calls back unless it is a status of success, and then exactly one of the commands that there are goes out |
| HciSystem.StartCommands | blueZ/emulator/bthost.c:2572-2583 | the three commands a host comes up with, of which the first is on its way |
| HciSystem.DoBalanced | blueZ/emulator/btdev.c:836-867 | every move keeps the one credit in one place, and none unused while a command waits |
| HciSystem.CreditsKept | blueZ/emulator/bthost.c:2572-2583 | in every run from `bthost_start` at most one command is outstanding, and a waiting command means no credit |
| HciSystem.OrderAfter | blueZ/emulator/bthost.c:787-878 | what every move does to the order of execution |
| HciSystem.ExecutedInOrder | blueZ/emulator/bthost.c:682-740 | from an empty queue, without overtaking callbacks, commands reach the controller exactly once and in issue order |
| HciSystem.CallbackOvertakes | blueZ/emulator/bthost.c:853-857 | a callback's command keeps the order exactly if nothing but the same command waits |
| HciSystem.RunConserves | blueZ/emulator/bthost.c:682-740 | no run loses or duplicates a command, callbacks or not |
| HciSystem.EventuallyExecuted | blueZ/emulator/bthost.c:711-740 | from every state, delivery alone brings every command issued to the controller, within a bound |
| HciProgress.EveryRunExecutes | blueZ/emulator/bthost.c:711-740 | in every run whose callbacks issue nothing, with users' commands at any time, the first `n` commands are executed within two deliveries each, and until then there is something to deliver |
| HciProgress.WaitingIsFifo | blueZ/emulator/bthost.c:711-740 | in every run, callbacks or not, what waits is served in the order in which it was queued |
| HciProgress.ReleasedExactly | blueZ/emulator/bthost.c:853-857 | the command at position `k` has left the queue exactly after more than `k` replies whose callbacks issued nothing |
| HciProgress.StarvesIff | blueZ/emulator/bthost.c:787-878 | a callback that issues its own command again starves the rest exactly if the reply to it calls back |
| HciProgress.StarvingCommands | blueZ/emulator/btdev.c:3084-3088 | reading the address does, disconnecting does not |
| HciSystem.UnansweredBlocks | blueZ/emulator/btdev.c:3468-3472 | a command that is not answered takes the credit with it: nothing is ever executed any more; this host issues no such command |
| AttCodec.FittingIsLongest | blueZ/attrib/att.c:221-225 | the encoders' loop writes as many entries as there is room for |
| AttCodec.ListRoundTrip | blueZ/attrib/att.c:448-516 | decoding an encoded list gives the packed entries exactly if they are long enough and at least one fits |
| AttCodec.GroupRoundTrip | blueZ/attrib/att.c:203-272 | the group response decodes to the longest prefix that fits exactly if its entries have 5 octets or more |
| AttCodec.TypeRoundTrip | blueZ/attrib/att.c:448-516 | the type response decodes to the entries cut to the MTU exactly if 3 octets of them remain |
| AttCodec.FindInfoRoundTrip | blueZ/attrib/att.c:876-942 | the information response decodes to the longest prefix exactly if the format octet says the entries' length |
| AttCodec.FindByTypeRoundTrip | blueZ/attrib/att.c:335-389 | the find-by-type response always decodes to the longest prefix of ranges |
| AttCodec.PrepWriteRoundTrip | blueZ/attrib/att.c:1084-1187 | a prepared part survives if sent as a request, and is refused by its decoder if sent as a response |
| AttWire.ListOnWire | blueZ/attrib/att.c:203-228 | the list responses octet by octet: opcode, length or format, and the entries that fit |
| AttWire.ShortOnWire | blueZ/attrib/att.c:448-473 | without room for a whole entry there is no response, or one cut entry |
| AttWire.RangeOnWire | blueZ/attrib/att.c:335-355 | a handle range on the wire |
| AttWire.PartOnWire | blueZ/attrib/att.c:1084-1107 | a prepared part octet by octet |
| AttWire.TakenIsWritten | blueZ/attrib/att.c:230-272 | a list response is taken exactly if it is opcode, length and at least one entry of that length, and gives these entries |
| AttWire.TakenByLimits | blueZ/attrib/att.c:475-516 | which PDUs the two list decoders take |
| AttWire.InformationIsWritten | blueZ/attrib/att.c:904-942 | an information response gives the entries that it holds, and drops only a part of one |
| AttWire.RangesAreWritten | blueZ/attrib/att.c:357-389 | a list of ranges that is not empty is the whole PDU |
| AttPdu.PutEntries | blueZ/attrib/att.c:219-227 | the packing loop writes exactly the entries that fit and touches nothing behind them |
| AttPdu.EncReadByGroupResp | blueZ/attrib/att.c:203-228 | the PDU in the buffer, its length, and that the rest is untouched |
| AttPdu.EncFindInfoResp | blueZ/attrib/att.c:876-902 | the same for the information response |
| AttPdu.EncReadByTypeResp | blueZ/attrib/att.c:448-473 | the same for the type response, entries cut to the MTU |
| AttPdu.EncFindByTypeResp | blueZ/attrib/att.c:335-355 | the same for handle ranges |
| AttPdu.TakeEntries | blueZ/attrib/att.c:262-269 | the unpacking loop takes consecutive entries of one length |
| AttPdu.DecReadByGroupResp | blueZ/attrib/att.c:230-272 | the decoder's result, including every rejected PDU |
| AttPdu.DecReadByTypeResp | blueZ/attrib/att.c:475-516 | the decoder's result, including every rejected PDU |
| AttPdu.DecFindInfoResp | blueZ/attrib/att.c:904-942 | the decoder's result, whatever the format octet |
| AttPdu.DecFindByTypeResp | blueZ/attrib/att.c:357-389 | the decoder's result, empty for every rejected PDU |
| GattLong.ReadLong | blueZ/attrib/gatt.c:761-842 | for every value up to 65534 octets and every MTU of 2 or more the callback gets the opcode and the whole value |
| GattLong.ReadLongExactly | blueZ/attrib/gatt.c:783-786 | of the values that 16-bit offsets reach, only those of 65535 octets are lost |
| GattLong.OffsetInside | blueZ/attrib/gatt.c:905-947 | the offset never passes the value's end, and the part queued is the one at the offset |
| GattLong.ContiguousExecutes | blueZ/attrib/gatt.c:905-947 | executing contiguous parts leaves the prefix that they cover, whatever the value was before |
| GattLong.WriteLong | blueZ/attrib/gatt.c:905-984 | a long write ends, its parts are contiguous, and the server is left with exactly the value |
| GattLong.WriteLongExactly | blueZ/attrib/gatt.c:905-984 | it ends exactly if a part has room for an octet and 16-bit offsets reach the end |
| GattRefusals.ReportedAt | blueZ/attrib/gatt.c:761-842 | for any server at all: a refused first request is reported with its code and PDU, and a later end with status 0 and exactly what was received |
| GattRefusals.ReportedOnce | blueZ/attrib/gatt.c:761-842 | after the report no response changes anything |
| GattRefusals.FailsIffFirstRefused | blueZ/attrib/gatt.c:808-842 | a status other than 0 is reported exactly if the first request was refused |
| GattRefusals.RefusedRead | blueZ/attrib/gatt.c:761-842 | a server that refuses request `k`: the code for the first, else the part of the value before it |
| GattRefusals.RefusedWrite | blueZ/attrib/gatt.c:905-947 | a part that is refused ends a long write with its code; the parts before it stay queued and nothing is executed, whatever comes |
| GattRefusals.ExecutedIfNoneRefused | blueZ/attrib/gatt.c:905-947 | the writes are executed only if no part was refused, and leave exactly the value |
| GattLong.LongReader.ReadCharHelper | blueZ/attrib/gatt.c:808-842 | the first response, or the Error Response with its status, is reported or kept as the specification says |
| GattLong.LongReader.ReadBlobHelper | blueZ/attrib/gatt.c:761-806 | the same for every further response |
| GattLong.LongWriter.PrepareWriteCb | blueZ/attrib/gatt.c:905-947 | a response of any length moves the offset, also past the value, and the next part or the execution follows; an error is reported |
| GattDiscover.Uuid128Injective | blueZ/attrib/gatt.c:193-207 | different 16-bit UUIDs are reported differently |
| GattFailures.BaseUuid | blueZ/attrib/gatt.c:193-207 | a 16-bit UUID is reported within the Bluetooth Base UUID, octet by octet |
| GattDiscover.StartGrows | blueZ/attrib/gatt.c:342-370 | a search that goes on goes on strictly later exactly if the response does not end with a declaration at the last handle, which sends it back to 0 |
| GattDiscover.ReportsOnce | blueZ/attrib/gatt.c:235-372 | whatever a server answers, every discovery reports at most once, and does within as many responses as there are handles, and again as many for each response that ends at the last handle |
| GattDiscover.EndlessIff | blueZ/attrib/gatt.c:650-680 | a server can keep a discovery going for any number of responses exactly if it is for characteristics, up to a handle above 0 |
| GattServer.Taken | blueZ/attrib/gatt.c:290-372 | every response packed by the rules is decoded and taken whole, in all four searches |
| GattServer.NothingMissed | blueZ/attrib/gatt.c:660-680 | a search does not stop while there is an entry to come |
| GattServer.Discovered | blueZ/attrib/gatt.c:235-372 | for every well-formed database, every legal packing and every range, the search ends and reports exactly its entries, or the first descriptor that it is for, in order, once, and with which code |
| GattServer.FailsIffDeclaredLast | blueZ/attrib/gatt.c:650-680 | a characteristic search that found something ends with an error exactly if a declaration is at handle 0xffff |
| GattFailures.RefusedDiscovery | blueZ/attrib/gatt.c:235-372 | whatever came before, a refusal ends a discovery with its code and what had been found; Attribute Not Found is no failure for services, or once something was found |
| GattFailures.NonsenseDiscovery | blueZ/attrib/gatt.c:290-318 | a response that cannot be read ends a discovery with I/O error, Invalid PDU or, by UUID, none, and nothing of it is kept |
| GattFailures.ListMoves | blueZ/attrib/gatt.c:342-372 | after a response the search goes on behind its last handle, is over, or ends with Unlikely Error, by that handle alone |
| GattClient.Search.PrimaryAllCb | blueZ/attrib/gatt.c:290-372 | the callback's whole effect on the procedure record |
| GattClient.Search.PrimaryByUuidCb | blueZ/attrib/gatt.c:235-288 | the callback's whole effect on the procedure record |
| GattClient.Search.CharDiscoveredCb | blueZ/attrib/gatt.c:589-685 | the callback's whole effect on the procedure record |
| GattClient.Search.DescDiscoveredCb | blueZ/attrib/gatt.c:1022-1122 | the callback's whole effect, including the early end at a wanted UUID |
| GattClient.Search.Failed | blueZ/attrib/gatt.c:600-608 | how an error response is reported in each procedure |
| GattService.ParseOpts | blueZ/attrib/gatt-service.c:71-140 | the list of characteristics that an option list describes |
| GattService.ParsedByGroup | blueZ/attrib/gatt-service.c:71-140 | the one pass over the options comes to the same as parsing the options of each characteristic by themselves |
| GattService.CountOfGroup | blueZ/attrib/gatt-service.c:82-105 | the handles counted for a characteristic, by its options |
| GattService.UuidOptionsOf | blueZ/attrib/gatt-service.c:132-136 | every characteristic but the first has exactly one UUID option, and the first if the list begins with one |
| GattService.NeverTooFew | blueZ/attrib/gatt-service.c:336-340 | no characteristic uses more handles than were counted for it |
| GattService.CountedIsUsed | blueZ/attrib/gatt-service.c:336-340 | for every option list that begins with a UUID, the handles counted are the handles used exactly if every characteristic has as many notifying PROPS options as its last one needs; any other list is refused |
| GattService.OnePropsEach | blueZ/attrib/gatt-service.c:95-105 | one PROPS option each is enough for that |
| GattService.CountedTwice | blueZ/attrib/gatt-service.c:95-105 | notifications asked for twice: four handles counted, three used |
| GattService.AssertionHolds | blueZ/attrib/gatt-service.c:366-367 | the two assertions at the end of a successful registration hold exactly for such option lists, unless all handles are taken |
| GattService.AddAllWorks | blueZ/attrib/gatt-service.c:352-363 | the characteristics before the first unacceptable one are added, one after the other |
| GattService.ServiceAddExactly | blueZ/attrib/gatt-service.c:316-375 | registration succeeds exactly if there was room and all is acceptable, and otherwise leaves the database as it was |
| GattPermissions.GroupsAreList | blueZ/attrib/gatt-service.c:132-136 | the groups of options are the option list in its order, cut before every UUID option but the very first option |
| GattPermissions.GivenIsParsed | blueZ/attrib/gatt-service.c:71-140 | of the options of a characteristic the last of each kind counts |
| GattPermissions.RegistersExactly | blueZ/attrib/gatt-service.c:195-231 | a registration succeeds exactly if there was room and each characteristic has a UUID and properties, a read callback if it is readable, and a write callback if it is writable |
| GattPermissions.RegisteredAsGiven | blueZ/attrib/gatt-service.c:160-290 | each characteristic in the database as its options say: readable by property 0x02 or a security option, writable by 0x04, 0x08 or one, authorization before authentication, configurable by 0x10 or 0x20, and nothing else changed |
| GattService.DeclaredIsRegistered | blueZ/attrib/gatt-service.c:232-246 | reading the declarations of the range gives the registered characteristics |
| GattService.RegisteredIsDiscovered | blueZ/attrib/gatt-service.c:195-375 | what is registered is what is discovered, for every legal packing |
| GattRegistry.Registry.AddOne | blueZ/attrib/gatt-service.c:195-290 | one characteristic is added, or nothing after its failed check |
| GattRegistry.Registry.ServiceAttrDel | blueZ/attrib/gatt-service.c:300-314 | exactly the handles of the range are deleted, also at the wrap to 0 |
| GattRegistry.Registry.GattServiceAdd | blueZ/attrib/gatt-service.c:316-375 | the whole registration, on the database in place |
| GattAvail.FindUuid16Avail | blueZ/src/attrib-server.c:1435-1475 | room is found exactly if a gap below all 128-bit services is large enough, and then the first such gap |
| GattAvail.FindUuid128Avail | blueZ/src/attrib-server.c:1477-1521 | room is found exactly at the end of the last gap above all 16-bit services that is large enough, or else below the first service with one handle to spare; it is free but for what comes before that |
| GattAvail.RegisterService | blueZ/attrib/gatt-service.c:336-375 | registration succeeds exactly if the database has room by that condition and all is acceptable; what is added is new and nothing else changes |
| GattIncluded.CalledBackOnce | blueZ/attrib/gatt.c:118-138 | there are as many references as outstanding requests, and one callback when there are none, for any server and any order of answers |
| GattIncluded.SearchesBounded | blueZ/attrib/gatt.c:511-572 | no server makes the client search more often than there are handles |
| GattIncluded.RunAnswered | blueZ/attrib/gatt.c:511-572 | a run of includes is reported at once, or a read is sent for each long UUID, and the search goes on behind it |
| GattIncluded.IncludesDiscovered | blueZ/attrib/gatt.c:409-586 | with requests answered in order, every include is reported exactly once, in handle order, with its UUID resolved, and without an error |
| GattFailures.IncludeAnswered | blueZ/attrib/gatt.c:118-138 | whatever is answered to whichever request: which error will be reported, and that the includes are reported only without one |
| GattFailures.IncludesMove | blueZ/attrib/gatt.c:555-568 | the search for includes goes on behind the last handle exactly if that is not where it ends |
| GattIncludedAny.IncludesInAnyOrder | blueZ/attrib/gatt.c:409-586 | with requests answered in any order, the includes reported are those of the server, each as often as there, in one callback without an error |
| GattIncluded.IncludedDiscovery.FindIncludedCb | blueZ/attrib/gatt.c:511-572 | the callback's whole effect |
| GattIncluded.IncludedDiscovery.ResolveIncludedUuidCb | blueZ/attrib/gatt.c:409-438 | the callback's whole effect |
| GattIncluded.IncludedDiscovery.Answered | blueZ/attrib/gatt.c:440-447 | an answer runs the callback and then drops its reference |
| LeLists.PeersCounted | blueZ/emulator/le.c:1248-1291 | a list holds at most 16 addresses, and 16 exactly if no slot is free |
| LeLists.PeersFilled | blueZ/emulator/le.c:1286-1287 | filling a free slot adds its address |
| LeLists.PeersFreed | blueZ/emulator/le.c:1322-1323 | freeing a slot removes its address, because none is there twice |
| LeLists.AddedToSet | blueZ/emulator/le.c:1248-1291 | a command to add answers for what is in the set, and adds at most its address |
| LeLists.RemovedFromSet | blueZ/emulator/le.c:1293-1328 | a command to remove takes out exactly its address, or says that it is not there |
| LeLists.ResolvedIsIdentity | blueZ/emulator/le.c:162-205 | an address is resolved exactly if an entry's key matches it, to that entry's identity |
| LeLists.SlotList.Add | blueZ/emulator/le.c:1503-1548 | the exact reply for each case, and the set afterwards |
| LeLists.SlotList.Remove | blueZ/emulator/le.c:1550-1585 | the exact reply for each case, the set afterwards, and that only one slot changes |
| LeLists.SlotList.Clear | blueZ/emulator/le.c:152-160 | the set is empty |
| LeLists.SlotList.Contains | blueZ/emulator/le.c:138-150 | membership, and that a free slot passes for an address of type 0xff |
| LeLists.SlotList.ResolvePeer | blueZ/emulator/le.c:162-205 | the first matching slot decides |
| LeLists.CacheIsFirst64 | blueZ/emulator/le.c:441-460 | the cache is the first 64 distinct addresses of a session |
| LeLists.DuplicateFilter | blueZ/emulator/le.c:441-460 | every address is reported when first received, and the first 64 of them only then |
| LeLists.ScanCache.Add | blueZ/emulator/le.c:441-460 | the cache afterwards, and whether the address is new |
| LeReceive.SessionReports | blueZ/emulator/le.c:1955-2020 | with duplicate filtering the reports are those of the accepted senders that pass the filter, in order, while channel, window, lists, policy and masks may change with every packet |
| LeReceive.SessionReportsAll | blueZ/emulator/le.c:1991-1995 | without it they are those of all accepted senders |
| LeReceive.SessionSays | blueZ/emulator/le.c:1955-2020 | every report of a session, in order and with its contents: each accepted packet whose sender is new gives its type, sender and advertising data, and in active scanning its scan response |
| LeReceive.WhiteListPolicy | blueZ/emulator/le.c:1974-1982 | under a white list policy a packet is accepted exactly if the receiver is open on its channel, its sender is listed, and no entry of the resolving list matches its sender |
| LeReceive.KnownNeverReported | blueZ/emulator/le.c:1974-1982 | packets from senders whose keys are known then leave no trace in a session, however the receiver changes |
| LeStation.ActKeeps | blueZ/emulator/le.c:549-714 | every command, timer, list change and packet keeps lists, parameters and channel well formed |
| LeStation.RadioRuns | blueZ/emulator/le.c:549-634 | list changes, masks and packets leave the scheduler alone |
| LeSession.ScanSession | blueZ/emulator/le.c:1110-2020 | from one scan enable command to the next, over any commands, timers, list changes and packets: exactly the reports that the host is sent, with their contents, each sender of the first 64 once if duplicates are filtered |
| LeSession.ScanSessionPeers | blueZ/emulator/le.c:1110-2020 | who is named in the advertising reports of a session, and how often |
| LeSession.TakenOnChannel | blueZ/emulator/le.c:577-601 | at every point of a session, which channel and which senders a packet must come from to be taken |
| LeSession.KnownHasNoEffect | blueZ/emulator/le.c:1974-1982 | over any sequence that leaves the key in the list, the controller ends as if a known peer's packets had never been sent |
| LeAir.EventSends | blueZ/emulator/le.c:489-546 | an advertising event sends one packet on every channel of the map, with type, name, target, advertising data and scan response |
| LeAir.EventReceived | blueZ/emulator/le.c:1955-1971 | of such an event another controller takes at most the packet on its channel |
| LeAir.EventHeard | blueZ/emulator/le.c:1955-2020 | an open scanner reports it once, exactly if its channel is in the map, with the advertiser's name and data, and its scan response in active scanning |
| LeCommands.AddAnswered | blueZ/emulator/le.c:1248-1291 | the reply to a command to add, and the set afterwards, for lists of 16 |
| LeCommands.RemoveAnswered | blueZ/emulator/le.c:1293-1328 | the reply to a command to remove, and the set afterwards |
| LeCommands.PrivateResolved | blueZ/emulator/le.c:162-199 | an address made with the peer key of the first matching entry is taken for that entry's identity |
| LeCommands.OthersUnresolved | blueZ/emulator/le.c:166-205 | any other address stays as it is |
| LeCommands.AdvParamsTaken | blueZ/emulator/le.c:840-949 | which advertising parameters are taken, in microseconds, and with which reply not |
| LeCommands.ScanParamsTaken | blueZ/emulator/le.c:1041-1108 | which scan parameters are taken, in microseconds, and with which reply not |
| LeCommands.AdvEnableAnswered | blueZ/emulator/le.c:1003-1039 | the reply to every command to enable or disable advertising, the state and the first timer |
| LeCommands.ScanEnableAnswered | blueZ/emulator/le.c:1110-1156 | the reply to every command to enable or disable scanning, the state and the first window |
| LeCommands.NextEvent | blueZ/emulator/le.c:537-546 | advertising events are the mean of the two intervals apart, and the delay |
| LeCommands.NextPeriod | blueZ/emulator/le.c:577-601 | the next scan period, its channel and its length |
| LeCommands.ResetToRest | blueZ/emulator/le.c:217-432 | the state after a reset, in milliseconds and addresses, and what it leaves alone |
| LeCommands.MaskedReports | blueZ/emulator/le.c:667-685 | what either event mask keeps from the host |
| LeCommands.SettingsTaken | blueZ/emulator/le.c:962-1001 | which advertising data, scan response, random address and resolution setting are taken |
| LeController.Controller.WhiteListed | blueZ/emulator/le.c:1974-1982 | the same of every controller, whatever its lists have been through |
| LeScheduler.EventKeeps | blueZ/emulator/le.c:549-634 | every command and tick keeps enable flag and timer, window and interval, and channel in step |
| LeScheduler.RunKeeps | blueZ/emulator/le.c:1003-1156 | so does every sequence of them, advertising periods lie between the two intervals, and every timer fires but for a stalled scan and directed advertising |
| LeScheduler.RearmNeeded | blueZ/emulator/le.c:541-546 | flag and timer come apart exactly when a running timer cannot be set again |
| LeScheduler.LostUntilReset | blueZ/emulator/le.c:603-621 | scanning lost that way is off, without a window, and cannot be enabled again before a reset |
| LeScheduler.ChannelsCycle | blueZ/emulator/le.c:577-601 | whatever else is asked for between the ticks, a window opens at every tick or at every second one, each on the next of the channels 37, 38 and 39, unless it is one unit short |
| LeScheduler.PeriodMovesOn | blueZ/emulator/le.c:577-601 | every interval opens one window, on the next channel, and changes nothing else, unless its window is one unit short |
| LeScheduler.PeriodLength | blueZ/emulator/le.c:582-593 | such an interval is never longer than its parameter, and less than 2 ms shorter |
| LeScheduler.NeverAgain | blueZ/src/shared/mainloop.c:360-371 | after a window one unit short no command and no tick opens another, until scanning is switched off |
| LeScheduler.StallsIffOneShort | blueZ/src/shared/mainloop.c:360-371 | some sequence opens another window without switching scanning off exactly if the window is not one unit shorter than the interval |
| LeScheduler.AdvertisesIffLongEnough | blueZ/emulator/le.c:537-562 | enabled advertising goes on whatever the delays exactly if both intervals leave a timer above 0 ms, as they do for every checked type |
| LeScheduler.DeadStaysDead | blueZ/src/shared/mainloop.c:360-371 | advertising whose timer was set to 0 ms stays enabled and silent until it is disabled |
| LeController.Controller.CmdSetAdvEnable | blueZ/emulator/le.c:1003-1039 | status and state for every argument |
| LeController.Controller.CmdSetScanEnable | blueZ/emulator/le.c:1110-1156 | status and state for every argument, and when the cache is emptied |
| LeController.Controller.CmdSetScanParameters | blueZ/emulator/le.c:1041-1108 | all parameters are taken, type and policy included, exactly if scanning is off and all are in range |
| LeController.Controller.CmdSetAdvParameters | blueZ/emulator/le.c:840-949 | all parameters are taken, target and channel map included, exactly if advertising is off and all are in range for their type |
| LeController.Controller.ScanTimeoutCallback | blueZ/emulator/le.c:577-601 | the state after a tick, whether or not the timer could be set |
| LeController.Controller.AdvTimeoutCallback | blueZ/emulator/le.c:526-547 | the packets of a tick, and the state after it, whether or not the timer could be set |
| LeController.Controller.CmdReset | blueZ/emulator/le.c:704-714 | both timers stop and both lists are empty |
| LeController.Controller.CmdSetEventMask | blueZ/emulator/le.c:692-702 | the state afterwards |
| LeController.Controller.CmdLeSetEventMask | blueZ/emulator/le.c:790-801 | the state afterwards |
| LeController.Controller.CmdLeSetResolvEnable | blueZ/emulator/le.c:1651-1669 | status and state for every argument |
| LeController.Controller.SendAdvPkt | blueZ/emulator/le.c:489-515 | the packet that is sent on a channel |
| LeController.Controller.CmdLeSetRandomAddress | blueZ/emulator/le.c:827-838 | the state afterwards |
| LeController.Controller.CmdLeSetAdvData | blueZ/emulator/le.c:962-980 | status and data for every argument |
| LeController.Controller.CmdLeSetScanRspData | blueZ/emulator/le.c:982-1001 | status and data for every argument |
| LeController.Controller.CmdLeAddToWhiteList | blueZ/emulator/le.c:1248-1291 | status and state for every argument |
| LeController.Controller.CmdLeRemoveFromWhiteList | blueZ/emulator/le.c:1293-1328 | status and state for every argument |
| LeController.Controller.CmdLeAddToResolvList | blueZ/emulator/le.c:1503-1548 | status and state for every argument |
| LeController.Controller.CmdLeRemoveFromResolvList | blueZ/emulator/le.c:1550-1585 | status and state for every argument |
| LeController.Controller.PhyReceive | blueZ/emulator/le.c:1955-2020 | the cache and the reports after a packet |
| BtdevAdvertising.LeSetAdvEnableComplete | blueZ/emulator/btdev.c:2047-2073 | who is told what when a device starts to advertise |
| BtdevAdvertising.LeSetScanEnableComplete | blueZ/emulator/btdev.c:2115-2142 | what a device is told when it starts to scan |
| BtdevAdvertising.LastToStartIsHeard | blueZ/emulator/btdev.c:2047-2142 | a scanner hears the same of an advertiser whichever of the two starts last |
| BtdevAdvertising.StartOrder | blueZ/emulator/btdev.c:3270-3314 | starting both commands in either order gives the same state and the same reports |
| BtdevAdvertising.AdvertisingHeard | blueZ/emulator/btdev.c:1941-2073 | what every device hears of one that starts to advertise: its chosen address, advertising data in the report and scan data in the response, and which scanner a directed advertiser reaches |
| BtdevAdvertising.AdvertisingRefused | blueZ/emulator/btdev.c:3274-3280 | the same command twice is refused and nothing is heard |
| BtdevAdvertising.ScanningHears | blueZ/emulator/btdev.c:2115-2142 | what a device that asks to scan hears of every other one, by content |
| BtdevAdvertising.RefusedScanReportsAgain | blueZ/emulator/btdev.c:3896-3902 | a refused request changes nothing, and sends nothing exactly if it was to stop or no other device advertises to the scanner; otherwise every advertiser is heard again, by nobody else |
| BtdevAdvertising.HeardEachTime | blueZ/emulator/btdev.c:3896-3902 | after any number of the same request a scanner has heard every advertiser that many times |

## Left out

- SmpCredits.Refines: the other commands of the users are those that leave keys and links alone, and their callbacks issue nothing; other commands could end the link that is being paired.
- Cryptography: failures of the crypto library are not modelled, and the five functions are arbitrary.
- Connection addresses: both ends are given the same initiator and responder addresses, as `init_conn` does when peers are reported by their public addresses.
- BR/EDR pairing, L2CAP and RFCOMM of the emulated host: they add few properties across operations.
- The octet layout of the pairing PDUs: they are values with the fields of the packet, the authentication requirements among them.
- H4 ACL packets: the ACL branch of the server's loop reads its length without waiting for a whole header; only the command branch is modelled. A read after the device is gone, and several clients sharing the static buffer, are not modelled either.
- LeScheduler.ChannelsCycle: sequences in which a running timer could not be set again are covered by the lemma on lost scanning.
- LeSession.ScanSessionPeers: packets of the advertising type 0x04, whose reports look like scan responses, are excluded; the contents of a session are stated for them too.
- Hooks and command handlers that suppress events of the emulated device, extended advertising, and commands that only store and read back a field.
- Buffers longer than 65535 octets, and PDU buffers too short for a header, in the ATT encoders.
- GattDiscover.ReportsOnce: the octets behind an entry that is too short for its UUID are arbitrary, but the same for every entry; an information response without a format octet is excluded.
- GattServer.NothingMissed: declarations at both of the last two handles of the searched range are excluded, since the first would have no room for its value.
- GattPermissions.RegisteredAsGiven: the callbacks that a value attribute holds are left out; only that they were given is.
- GattAvail.RegisterService: for a 128-bit service the attribute list is required to begin with a service declaration, as it does once services are the only way to add attributes.
- GattService.RegisteredIsDiscovered: a characteristic whose own UUID is that of a declaration is excluded, since its value attribute reads as one.
- Allocation failures, D-Bus, sockets, main loops and the Java user interface.
- UUID strings: UUIDs are reported as the 128-bit value that the string spells.
