# Tox core: a verified model

A Dafny model of the hard parts of Tox core (`toxcore/`), with proofs. `dafny verify dfyconfig.toml`
checks all of it. Nothing is executed.

**Lossless UDP.** Two ends exchange packets over a network that loses, duplicates and reorders them.
`LosslessProtocol` gives one end as values, function by function, with unbounded sequence numbers and
SYNC counters that are compared modulo 256 as in the code. `LosslessReceive` treats the receive ring of
one end against any peer, honest or not, as long as its request lists fit the code's array of 15, and
`LosslessHistory` what each packet can and cannot do to an end and where its numbers come from. `LosslessSystem` puts two honest ends and the sets of all packets ever
sent together; a packet may be received at any time and any number of times. Its invariant covers the
handshake as well as data transfer, and `LosslessTheorems` draws the consequences for every state of
every run; `LosslessSends` adds that what counts as sent was sent. Safety does not depend on the SYNC counters. `LosslessSync` shows what they are for, and
`LosslessProgress` shows that no reachable state is a dead end, while SYNCs are not too late;
`LosslessLimits` has the reachable states in which the protocol falls short. `LosslessConnection` is the connection
record with 32-bit numbers, 8-bit counters and 16-slot arrays, updated in place; each method is proved
to compute the function of `LosslessProtocol`, across the wrap at 2^32, in the range in which honest ends stay.
`LosslessRecords` puts two such records together and carries the reliable delivery over to them.

**Encrypted sessions.** `Nonce` is the carry loop on 24-byte nonces. `CryptoSession` and `CryptoSystem`
model two peers over the reliable stream above: key exchange, confirmation and data packets.
`crypto_box` is a parameter of which only two laws are assumed: decryption inverts encryption, and both sides derive the
same key. `CryptoConnection` is the record whose nonces are incremented in place.

**DHT lists.** `QuickSort` is the sorting macro; `ClientDistance` the comparison of ids; `DhtLists` the
list operations in place; `DhtStream` what a stream of new clients leaves in a list; `CloseNodes` the
nodes chosen for an answer, `ClosestAnswer` and `AnswerOrder` when they are the closest; `HolePunching` the enumeration of guessed ports.

**Pings and the messenger.** `PingRing` is the 256-slot array of pings. `MessengerFriends`, `MessengerStore`,
`MessengerHistory` and `Messenger` are the friend list with its invariant, saving and loading it, over a
whole life of a messenger.

Where the code and its evident purpose differ, or where a stated purpose is not met:

- `toxcore/Lossless_UDP.c:608-611` copies `4 * number` bytes from one variable; the model stores one
  number per iteration.
- `missing_packets` writes into an array of 15 numbers. Two honest ends never ask for more
  (`CurrentSyncsFit`); a dishonest peer can bring an end to ask for 30 (`TooManyRequests`), and
  `RequestCount` and `RequestsPerTurn` give the number in every state. What is stated about a single end applies to the code up to there.
- After a served request list the receive number reaches what the peer has sent, except when the peer
  is a whole window of 15 ahead of the reader: `RecoveryRound` gives the exact condition and
  `StopsOneShort` a reachable state.
- A SYNC that arrives 247 or more counters late can be taken for a new one. `FreshnessExact` says when
  it does harm, and `LateSyncHalts` has a run after which neither end accepts a SYNC of the other again.
- The byte distance of ids folds x and 256 - x together (`toxcore/DHT.c:87-88`), so different ids can be
  equally far; `TieIff` says when and `TieExample` shows two. Statements about closeness are therefore
  about distances.
- `get_close_nodes` does not always return the 8 closest nodes, because a full answer gives up the first
  further node and not a furthest one. `ReturnsClosestIff` says from the list of candidates alone when it
  returns them, `EvictionExact` and `ClosestThroughout` when it holds them step by step, and
  `FurthestFirstFails` and `TenNodesExample` show lists for which it does not. It also takes the contents
  of unfilled slots for nodes (`OverlookedCandidate`).
- `Messenger_load` counts records in 16 bits: `RestoredIff` says that every friend is restored exactly
  when there are fewer than 65536 slots, and `AllFriendsLost` has 65536 friends of which none returns.
- `Messenger_load` takes over the keys even when it fails; `LoadKeeps` says which keys it must not meet
  in a messenger that is in use, and `ForeignKeyExample` what happens otherwise.

## Model

| member | source | states |
|---|---|---|
| LosslessReceive.ReadKeeps | toxcore/Lossless_UDP.c:328-341 | read_packet keeps the receive window and the empty spare slot, and returns nothing exactly when the queue is empty |
| LosslessReceive.MissingKeeps | toxcore/Lossless_UDP.c:361-387 | missing_packets never moves the receive number past the window, also when the peer has sent far beyond it; it requests only numbers from the receive number on, and at most 15 if the peer is at most 15 ahead |
| LosslessReceive.RequestCount | toxcore/Lossless_UDP.c:373-381 | in every state the request list has one number for each empty slot that the scan meets |
| LosslessReceive.RequestsPerTurn | toxcore/Lossless_UDP.c:373-381 | every empty slot is met once for each full turn of 16, and once more if the rest meets it; `RepeatedIs` gives the product |
| LosslessReceive.RequestsInOrder | toxcore/Lossless_UDP.c:373-381 | with nothing out of order, the exact length of the request list from the numbers alone |
| LosslessReceive.TooManyRequests | toxcore/Lossless_UDP.c:361-435 | four forged SYNCs after which the request list has 30 numbers |
| LosslessReceive.AddRecvKeeps | toxcore/Lossless_UDP.c:666-698 | storing any data packet keeps the receive invariant and never moves the receive number back |
| LosslessReceive.SyncKeeps | toxcore/Lossless_UDP.c:542-618 | any SYNC, forged or not, keeps the receive invariant in every status |
| LosslessReceive.ReceiveRingSafe | toxcore/Lossless_UDP.c:328-698 | for every history of one end with arbitrary packets: successful_read <= recv <= successful_read + 15, recv <= osent, every readable slot is filled, every filled slot of the window holds a payload that arrived under its own number, and the slot behind the window is empty |
| LosslessHistory.OpensIff | toxcore/Lossless_UDP.c:542-562 | a closed end is opened only by a SYNC that names its handshake id, and starts from the SYNC's number |
| LosslessHistory.AnsweredIff | toxcore/Lossless_UDP.c:487-526 | a waiting end accepts only a handshake that repeats its own id |
| LosslessHistory.RequestAnswered | toxcore/Lossless_UDP.c:487-526 | handshake requests are answered with both ids until the connection is established |
| LosslessHistory.ConnectsIff | toxcore/Lossless_UDP.c:565-580 | the handshake is completed only by a SYNC that acknowledges our first number, and is answered with a SYNC |
| LosslessHistory.SyncActsIff | toxcore/Lossless_UDP.c:582-618 | on an established end a SYNC acts exactly inside both windows of 15, 1 to 9 counters ahead modulo 256, with at most 15 requests |
| LosslessHistory.DataActs | toxcore/Lossless_UDP.c:666-723 | data acts exactly when established, with 1 to 1024 bytes and a number in the window; osent_packetnum becomes the larger of the two numbers |
| LosslessHistory.OsentWasTold | toxcore/Lossless_UDP.c:361-698 | in every history of one end osent_packetnum is a number that some received packet carried; at most 15 requests and 1024 bytes a slot |
| LosslessHistory.ReadableLags | toxcore/Lossless_UDP.c:666-698 | a number can be read only after a packet has carried a higher one |
| LosslessProtocol.EmptySlotsSound | toxcore/Lossless_UDP.c:373-381 | the scan finds exactly the empty slots in its range, no more than the range is long |
| LosslessProtocol.LastInOrderSound | toxcore/Lossless_UDP.c:690-695 | the receive number stops at the last packet that is held without a gap |
| LosslessSystem.WriteKeeps | toxcore/Lossless_UDP.c:347-358 | writing keeps the system invariant: no unacknowledged packet's slot is overwritten |
| LosslessSystem.EmitSyncKeeps | toxcore/Lossless_UDP.c:409-435 | a SYNC acknowledges and requests only what the peer can honour |
| LosslessSystem.EmitDataKeeps | toxcore/Lossless_UDP.c:437-473 | a data packet, requested or new, carries the payload with its number |
| LosslessSystem.HandshakeKeeps | toxcore/Lossless_UDP.c:487-526 | handshake packets, in any order and repetition, keep the invariant |
| LosslessSystem.AnySyncKeeps | toxcore/Lossless_UDP.c:620-658 | every SYNC the peer ever sent, however old, keeps the invariant in every status |
| LosslessSystem.DataKeeps | toxcore/Lossless_UDP.c:700-723 | every data packet the peer ever sent, however old, keeps the invariant |
| LosslessSystem.RunInv | toxcore/Lossless_UDP.c:94-723 | the invariant of both directions holds in every state of every run |
| LosslessTheorems.ReliableDelivery | toxcore/Lossless_UDP.c:325-358 | what one end has read is a prefix of what the other has written: in order, none lost, none repeated |
| LosslessTheorems.HeldInOrder | toxcore/Lossless_UDP.c:299-307 | payloads read and payloads waiting to be read are together exactly the first payloads written |
| LosslessTheorems.AcknowledgementsSound | toxcore/Lossless_UDP.c:289-297 | successful_sent <= peer's recv <= sent <= sendbuff <= successful_sent + 15; an empty send queue means that the peer holds everything written |
| LosslessTheorems.DataPacketsFaithful | toxcore/Lossless_UDP.c:437-473 | every DATA packet numbered n ever sent, and every packet still to be served on request, carries the n-th written payload |
| LosslessSends.SentIsSent | toxcore/Lossless_UDP.c:452-473 | in every run each number below sent_packetnum went out in a DATA packet with its own payload, and a connected end has sent a SYNC that says so |
| LosslessTheorems.CurrentSyncsFit | toxcore/Lossless_UDP.c:409-435 | a SYNC built now, before or after the handshake is confirmed, passes both window tests of a connected peer and requests at most 15 packets |
| LosslessTheorems.HandshakeAgreement | toxcore/Lossless_UDP.c:487-562 | whoever opens, each end counts from the other's first number, and does so until data is sent |
| LosslessTheorems.WriteAccepted | toxcore/Lossless_UDP.c:343-358 | in every run write_packet takes 1 to 1024 bytes while fewer than 15 payloads are unacknowledged, and changes nothing otherwise |
| LosslessSync.TokenConserved | toxcore/Lossless_UDP.c:565-618 | the leads of the two counters are nonnegative and add up to 1 or 2; a current SYNC is accepted exactly when its sender leads, and always at least one is |
| LosslessSync.FreshnessExact | toxcore/Lossless_UDP.c:589-599 | an accepted SYNC keeps the counter invariant if and only if its counter is less than 247 steps behind |
| LosslessProgress.RecoveryRound | toxcore/Lossless_UDP.c:361-387 | the state after one SYNC and one pass over its request list is reachable and lacks nothing; the receive number catches up if and only if nothing was missing or the peer is less than 15 ahead of the reader, and is one short otherwise |
| LosslessProgress.EverythingDeliverable | toxcore/Lossless_UDP.c:748-801 | from every state of every run without SYNCs 247 or more counters late, with all packets so far lost, there is a continuation in which both ends read everything written |
| LosslessLimits.StopsOneShort | toxcore/Lossless_UDP.c:361-387 | a reachable state from which the round of recovery ends one number short |
| LosslessLimits.LateSync | toxcore/Lossless_UDP.c:589-599 | a reachable state in which a SYNC 247 counters late is accepted |
| LosslessLimits.LateSyncHalts | toxcore/Lossless_UDP.c:589-613 | its acceptance leads, in two more steps, to a state that is stuck once the packets under way are lost |
| LosslessLimits.StuckForever | toxcore/Lossless_UDP.c:582-618 | in every continuation of a stuck state neither end accepts a SYNC and nothing is acknowledged any more |
| LosslessConnection.Connection.constructor | toxcore/Lossless_UDP.c:117-117 | the zeroed record stands for a closed endpoint |
| LosslessConnection.Connection.SendQueue | toxcore/Lossless_UDP.c:289-297 | the 32-bit difference is the number of unacknowledged packets |
| LosslessConnection.Connection.RecvQueue | toxcore/Lossless_UDP.c:299-307 | the 32-bit difference is the number of readable packets |
| LosslessConnection.Connection.WritePacket | toxcore/Lossless_UDP.c:343-358 | computes the unbounded write and accepts exactly when it does |
| LosslessConnection.Connection.ReadPacket | toxcore/Lossless_UDP.c:325-341 | computes the unbounded read and returns its payload |
| LosslessConnection.Connection.CollectMissing | toxcore/Lossless_UDP.c:373-381 | whenever the missing numbers fit the array, the loop ends and fills it with exactly these |
| LosslessConnection.Connection.MissingPackets | toxcore/Lossless_UDP.c:361-387 | computes the unbounded scan and its effect on the receive number |
| LosslessConnection.Connection.SendSync | toxcore/Lossless_UDP.c:409-435 | sends the unbounded SYNC with its numbers cut to 32 bits and its counter to 8 |
| LosslessConnection.Connection.SendDataPacket | toxcore/Lossless_UDP.c:437-449 | reads the slot of the number it sends |
| LosslessConnection.Connection.SendData | toxcore/Lossless_UDP.c:452-473 | serves the oldest request or the next new packet |
| LosslessConnection.Connection.NewConnection | toxcore/Lossless_UDP.c:94-140 | opens a connection unless there is one |
| LosslessConnection.Connection.HandleHandshake | toxcore/Lossless_UDP.c:487-526 | answers requests and accepts the answer to its own |
| LosslessConnection.Connection.HandleSync | toxcore/Lossless_UDP.c:620-658 | dispatches on the status as the unbounded protocol does |
| LosslessConnection.Connection.HandleSync1 | toxcore/Lossless_UDP.c:542-562 | an inbound connection starts from the numbers of the SYNC |
| LosslessConnection.Connection.HandleSync2 | toxcore/Lossless_UDP.c:565-580 | completes the handshake and answers |
| LosslessConnection.Connection.HandleSync3 | toxcore/Lossless_UDP.c:582-618 | both window tests and the counter test agree with the unbounded ones; acknowledgement and requests are replaced together |
| LosslessConnection.Connection.StoreData | toxcore/Lossless_UDP.c:673-688 | stores a packet exactly when its number is in the window |
| LosslessConnection.Connection.Advance | toxcore/Lossless_UDP.c:690-695 | moves the receive number over the packets held without a gap |
| LosslessConnection.Connection.AddRecv | toxcore/Lossless_UDP.c:666-698 | computes the unbounded add_recv |
| LosslessConnection.Connection.HandleData | toxcore/Lossless_UDP.c:700-723 | drops data unless connected and of a legal size |
| LosslessConnection.Connection.Receive | toxcore/Lossless_UDP.c:487-723 | any packet: state and reply are those of the unbounded protocol |
| LosslessConnection.Connection.Emit | toxcore/Lossless_UDP.c:752-801 | what do_new, do_SYNC and do_data send, and when they send nothing |
| LosslessConnection.Connection.Step | toxcore/Lossless_UDP.c:94-801 | any event: state, packet and payload are those of the unbounded protocol |
| LosslessConnection.Connection.Run | toxcore/Lossless_UDP.c:94-801 | the record follows the unbounded endpoint through every history that stays in range |
| LosslessConnection.AcceptanceAgrees | toxcore/Lossless_UDP.c:589-599 | the tests on wrapped numbers accept exactly the SYNCs that the unbounded tests accept |
| LosslessConnection.RunsStayInRange | toxcore/Lossless_UDP.c:582-698 | in every run of two honest ends the window conditions of all these methods hold, for every packet less than 2^31 numbers old |
| LosslessRecords.RecordsFollow | toxcore/Lossless_UDP.c:94-801 | each end of every run without packets 2^31 numbers old has a history in range that leads to its state |
| LosslessRecords.PlayedInOrder | toxcore/Lossless_UDP.c:94-801 | two ends that do anything, with any delivery of sent packets: what is read is a prefix of what was written |
| LosslessRecords.Exchange | toxcore/Lossless_UDP.c:94-801 | two 32-bit records driven by fewer than 2^31 actions do the same as the unbounded ends, so what is read is a prefix of what was written |
| Nonce.IncrementNonce | toxcore/net_crypto.c:124-134 | the carry loop computes the successor |
| Nonce.IncValue | toxcore/net_crypto.c:123-134 | the successor as a little-endian number is plus one, and 0 after 256^24 - 1 |
| Nonce.IncByAdds | toxcore/net_crypto.c:123-134 | k increments add k modulo 256^24 |
| Nonce.NoncesDistinct | toxcore/net_crypto.c:123-134 | nonces fewer than 256^24 steps apart differ |
| CryptoSession.HandshakeRoundTrip | toxcore/net_crypto.c:315-374 | handle_cryptohandshake recovers sender, secret nonce and session key from send_cryptohandshake |
| CryptoSession.HandshakeAcceptedIff | toxcore/net_crypto.c:342-374 | a handshake is accepted exactly with 129 bytes, type 2 and 56 bytes under the sender's key |
| CryptoSession.WaitsForHandshake | toxcore/net_crypto.c:662-700 | a handshake from the right peer is met, from another ignored, anything else kills |
| CryptoSession.WaitsForConfirmation | toxcore/net_crypto.c:700-731 | four zero bytes under the right key and nonce establish, anything else kills |
| CryptoSession.CryptLengths | toxcore/net_crypto.c:59-104 | encryption takes 1 to 1008 bytes, decryption 17 to 1024 |
| CryptoSession.WritesIff | toxcore/net_crypto.c:180-209 | exactly messages of 1 to 1007 bytes are written, by an established session |
| CryptoSession.ReadsIff | toxcore/net_crypto.c:147-178 | exactly what opens is read; the rest is discarded without effect |
| CryptoSystem.PollKeeps | toxcore/net_crypto.c:662-731 | receive_crypto keeps the session invariant in both pending states |
| CryptoSystem.AcceptKeeps | toxcore/net_crypto.c:535-589 | accepting an inbound session keeps the invariant |
| CryptoSystem.RunInv | toxcore/net_crypto.c:147-209 | in every run the j-th data packet is sealed with the j-th nonce after the receiver's base under the common key |
| CryptoSystem.MessagesArriveInOrder | toxcore/net_crypto.c:147-209 | messages read are a prefix of messages written |
| CryptoSystem.NeverKilled | toxcore/net_crypto.c:662-731 | the branches of receive_crypto that should not happen do not happen |
| CryptoSystem.PollAdvances | toxcore/net_crypto.c:662-731 | the pending end that is not ahead has a packet that takes it one status further |
| CryptoSystem.SetupProgresses | toxcore/net_crypto.c:662-731 | two opened sessions are established or one of them can advance |
| CryptoSystem.NonceLockstep | toxcore/net_crypto.c:147-209 | sent_nonce is recv_nonce plus the number of data packets under way, modulo 256^24 |
| CryptoSystem.NothingDiscarded | toxcore/net_crypto.c:147-178 | an established reader decrypts every packet, to the next message |
| CryptoSystem.NoNonceReuse | toxcore/net_crypto.c:180-209 | no two data packets of one direction within 256^24 share a nonce |
| CryptoConnection.Connection.CryptoConnect | toxcore/net_crypto.c:442-455 | computes the opening of a session |
| CryptoConnection.Connection.Meet | toxcore/net_crypto.c:679-691 | takes over the peer's nonce and session key and confirms |
| CryptoConnection.Connection.AcceptCryptoInbound | toxcore/net_crypto.c:555-587 | opens and confirms in one call |
| CryptoConnection.Connection.ReceiveCrypto | toxcore/net_crypto.c:662-731 | computes receive_crypto for one record, including when it kills |
| CryptoConnection.Connection.WriteCryptPacket | toxcore/net_crypto.c:180-209 | sends and steps the nonce exactly when established, of legal length and with room in the stream |
| CryptoConnection.Connection.ReadCryptPacket | toxcore/net_crypto.c:147-178 | reads only in an established session and steps the nonce exactly when decryption succeeds |
| QuickSort.Partition | toxcore/misc_tools.h:230-245 | the pointers cross with nothing above the pivot on the left and nothing below on the right, and both parts are smaller than the range |
| QuickSort.Sort | toxcore/misc_tools.h:225-248 | for any total preorder: terminates, sorts the range, permutes it and leaves the rest alone |
| ClientDistance.IdClosest | toxcore/DHT.c:75-98 | compares two distances, as numbers, to the third id |
| ClientDistance.TieIff | toxcore/DHT.c:75-98 | ids are equally far exactly when every folded byte distance agrees |
| ClientDistance.TieExample | toxcore/DHT.c:75-98 | two different ids that are equally far |
| ClientDistance.DistanceShift | toxcore/DHT.c:75-98 | the same exclusive or on both ids leaves their distance as it is |
| ClientDistance.ZeroDigits | toxcore/DHT.c:84-94 | seen from 0 a byte x is x away below 128 and 256 - x otherwise |
| ClientDistance.CloserIff | toxcore/DHT.c:80-98 | the first byte whose distances differ decides, from the front |
| ClientDistance.CloserExample | toxcore/DHT.c:75-98 | from 3, the id 1 is closer than the id 4 |
| DhtLists.CmpIsPreorder | toxcore/DHT.c:100-111 | the comparator is a total preorder on pairs with the same first component |
| DhtLists.SortList | toxcore/DHT.c:305-325 | the list is permuted and sorted from furthest to closest |
| DhtLists.ClientInList | toxcore/DHT.c:128-156 | refreshes the first entry with this address or id, and nothing else |
| DhtLists.ReplaceBad | toxcore/DHT.c:277-303 | replaces the first timed-out entry, and nothing else |
| DhtLists.ReplaceGood | toxcore/DHT.c:327-350 | replaces a furthest entry and reports it exactly when the new client is closer than some entry, and sorts |
| DhtLists.AddToList | toxcore/DHT.c:362-371 | the three operations in order, on one list |
| DhtLists.KnownIsRefreshed | toxcore/DHT.c:128-156 | a client known by id or address keeps the first matching entry, with both brought up to date, good for exactly 70 seconds; nothing else changes |
| DhtLists.NewTakesBad | toxcore/DHT.c:277-303 | a new client takes the first entry not heard of for 70 seconds and forgets the returned address |
| DhtLists.NewTakesFurthest | toxcore/DHT.c:327-350 | among good entries a new client gets in exactly if some entry is further away |
| DhtLists.Dht.AddtoLists | toxcore/DHT.c:352-392 | the same for the close list and for every friend's list, each by its own distance |
| DhtStream.KeepsTheClosest | toxcore/DHT.c:352-392 | after any number of new clients a list of k entries holds exactly the k smallest distances offered |
| CloseNodes.ClientInNodelist | toxcore/DHT.c:158-171 | finds an id if and only if it is there |
| CloseNodes.ConsiderNode | toxcore/DHT.c:198-232 | what one candidate does to the answer |
| CloseNodes.GetCloseNodes | toxcore/DHT.c:192-275 | the answer after the close list and all friends' lists in order |
| CloseNodes.CloseNodesFound | toxcore/DHT.c:187-275 | different good nodes, at least as many as there are visible ones and at most as many as there are good ones, up to 8, one of them as close as any visible one; all are visible unless an unfilled slot holds a candidate's id |
| CloseNodes.OverlookedCandidate | toxcore/DHT.c:158-204 | the only candidate is skipped if and only if a slot holds its id at the start |
| CloseNodes.SlotsOnlyGetCloser | toxcore/DHT.c:217-230 | a filled slot never gets further from the target |
| ClosestAnswer.EvictionExact | toxcore/DHT.c:217-230 | a full answer that is the 8 closest so far stays the 8 closest after one candidate if and only if the first further node is a furthest one |
| ClosestAnswer.ClosestThroughout | toxcore/DHT.c:192-275 | all the way through a list of candidates the answer is the 8 closest so far if and only if a furthest node is given up every time |
| ClosestAnswer.FurthestFirstFails | toxcore/DHT.c:217-230 | for ten or more candidates, each closer than the one before, the answer is not the 8 closest |
| ClosestAnswer.TenNodesExample | toxcore/DHT.c:217-230 | ten such nodes |
| AnswerOrder.ReturnsClosestIff | toxcore/DHT.c:187-275 | for candidates at different distances, none twice, the returned answer is the 8 closest if and only if the closest that come after the first 8 come closest first, and none of them is closer than one of the closest in a slot in front of the one it is to fill |
| AnswerOrder.ReturnsTopIff | toxcore/DHT.c:187-275 | the same with ties, the earlier of two equally far candidates counting as closer |
| AnswerOrder.ReturnsClosest | toxcore/DHT.c:187-275 | in that order the answer is the 8 closest also with ties, repeated and bad candidates |
| AnswerOrder.TopExists | toxcore/DHT.c:187-191 | every list has its 8 closest in this sense |
| HolePunching.PunchHoles | toxcore/DHT.c:1052-1068 | 32 consecutive probes with a 32-bit number, or none for a bad port count |
| HolePunching.PunchRounds | toxcore/DHT.c:1052-1068 | m calls from number 0 with one list try probe numbers 0 to 32m - 1, modulo 2^32, each once and in order; before the wrap every port at most d above or below a known one, with 2n(d + 1) <= 32m, is among them |
| HolePunching.ProbesInOrder | toxcore/DHT.c:1060-1065 | before the wrap these are exactly the enumerated probes |
| HolePunching.ProbeSequence | toxcore/DHT.c:1060-1065 | probes 2(n k + j) and the next try the j-th port plus k and minus k |
| HolePunching.ProbeOfNumber | toxcore/DHT.c:1060-1065 | every position, offset and direction has a probe number |
| HolePunching.NumberOfProbe | toxcore/DHT.c:1060-1065 | and only one |
| HolePunching.OffsetsInOrder | toxcore/DHT.c:1060-1065 | offsets never decrease; the first 2n(k + 1) probes are exactly those with offset at most k |
| HolePunching.PortsWithinCovered | toxcore/DHT.c:1060-1065 | the first 2n(d + 1) probes try every known port moved by d |
| PingRing.DropTimedOut | toxcore/ping.c:53-68 | dropping timed-out pings from the front loses nothing that can be asked for |
| PingRing.RestIsLive | toxcore/ping.c:61-64 | behind the first live ping all are live |
| PingRing.PutNewest | toxcore/ping.c:78-91 | a new ping extends the history; a full ring gives up the ping that is 256 back |
| PingRing.Ping.RemoveTimeouts | toxcore/ping.c:46-69 | exactly the live pings remain |
| PingRing.Ping.AddPing | toxcore/ping.c:71-93 | the history grows by the ping |
| PingRing.Ping.IsPinging | toxcore/ping.c:95-116 | true exactly when one of the last 256 pings is live and matches under the wildcard rules |
| PingRing.PingingMeans | toxcore/ping.c:95-116 | the same in plain numbers: one of the last 256, at most 5 seconds old, by address and id, by id or by address |
| MessengerFriends.AddressChecksum | toxcore/Messenger.c:89-105 | the two exclusive-or sums |
| MessengerFriends.AddFriendKeeps | toxcore/Messenger.c:138-205 | m_addfriend keeps the list invariant on every path |
| MessengerFriends.DelFriendKeeps | toxcore/Messenger.c:243-269 | so does m_delfriend |
| MessengerFriends.DelFriendExact | toxcore/Messenger.c:243-269 | everybody else stays in their slot unchanged, the deleted friend is no longer found, and the list ends behind the last friend left |
| MessengerFriends.AddFriendNorequestExact | toxcore/Messenger.c:207-241 | somebody new gets the first free slot, confirmed; a friend is refused; nothing else changes |
| MessengerFriends.AddFriendCode | toxcore/Messenger.c:138-205 | each answer of m_addfriend exactly in its case |
| MessengerFriends.AddFriendEffect | toxcore/Messenger.c:138-205 | a refusal changes nothing, an addition only the first free slot |
| MessengerFriends.NospamReplaced | toxcore/Messenger.c:163-172 | for a friend another nospam replaces the old one and nothing else, the same one is refused |
| MessengerFriends.OneByteRefused | toxcore/Messenger.c:145-151 | an address one byte away from a valid one is refused without effect |
| MessengerFriends.OtherSumKept | toxcore/Messenger.c:89-105 | even positions count for the first sum only, odd ones for the second |
| MessengerFriends.NamesExact | toxcore/Messenger.c:342-370 | names of 1 to 128 bytes are set, and a friend's name only in its slot |
| MessengerStore.SavedSize | toxcore/Messenger.c:921-957 | saving writes exactly Messenger_size bytes |
| MessengerStore.HeadParses | toxcore/Messenger.c:935-947 | where keys, nospam and the size of the DHT part lie in the file |
| MessengerStore.LoadsIff | toxcore/Messenger.c:959-1036 | loading returns 0 exactly if the length of the file is what its three size fields make it and the parts are whole |
| MessengerStore.DhtLoadsIff | toxcore/DHT.c:1229-1235 | the DHT part is the close list and a whole number of friends |
| MessengerStore.SaveLoad | toxcore/Messenger.c:959-1036 | loading what was saved returns 0 and restores keys, nospam, name and the friends in order, holes closed |
| MessengerHistory.LoadKeeps | toxcore/Messenger.c:959-1036 | loading any data keeps the list invariant if and only if the file's key is nobody's to whom a request is open; always in an unused messenger |
| MessengerHistory.ForeignKeyExample | toxcore/Messenger.c:968-970 | such a key breaks it even when loading fails |
| MessengerHistory.HistoryKeeps | toxcore/Messenger.c:138-1036 | in every history, loads included, ids are distinct, an open request has 1 to 983 bytes and is not to ourselves, and the list does not end in a hole |
| MessengerHistory.SaveLoadAnyHistory | toxcore/Messenger.c:959-1036 | the round trip in every state of every history, loads included |
| MessengerHistory.RestoredIff | toxcore/Messenger.c:997-1001 | in every history, loading what was saved restores every friend if and only if there are fewer than 65536 slots |
| MessengerHistory.AllFriendsLost | toxcore/Messenger.c:997-1001 | a history with 65536 friends that are all lost |
| MessengerHistory.SecondCycle | toxcore/Messenger.c:935-1036 | what was once saved and loaded survives a second cycle unchanged |
| Messenger.Messenger.GetFriendId | toxcore/Messenger.c:56-70 | the first live friend with the id |
| Messenger.Messenger.AddFriend | toxcore/Messenger.c:138-205 | every outcome of m_addfriend in the order of its tests |
| Messenger.Messenger.AddFriendNorequest | toxcore/Messenger.c:207-241 | adds a confirmed friend unless there is one |
| Messenger.Messenger.DelFriend | toxcore/Messenger.c:243-269 | leaves a hole, or trims the end of the list |
| Messenger.Messenger.Save | toxcore/Messenger.c:935-957 | fills the buffer with the saved form |
| Messenger.Messenger.Load | toxcore/Messenger.c:959-1036 | every error exit and the success path of loading arbitrary data |

## Left out

- Sockets, polling, packet dispatch and LAN discovery: system calls; the network is the set of packets sent.
- Timers, send rates, time-outs (also the one that would end a stuck connection) and killing connections in Lossless UDP: sends are events that may happen at any time; one connection epoch per pair of ends.
- The table of connections, its reuse and trimming: one connection is modelled.
- The byte layout of Lossless UDP packets: packets are values; the length tests appear as bounds on payload and request list.
- A dishonest peer: its effect on the receive ring is covered by `ReceiveRingSafe`, up to request lists of 15; the statements about two ends are for honest ends.
- The internals of crypto_box, key generation and random numbers: parameters and inputs.
- Several sessions at once, and a session that is both opened and accepted by the same end: one role per end.
- Crypto requests (create_request, handle_request), friend requests and routing: they would only add members of the same kind as the handshake.
- DHT packet handlers, getnodes bookkeeping and NAT ping exchange.
- AddtoLists: clients whose id or address is already in a list are handled as the code does, but `KeepsTheClosest` is about new clients, because a known address may turn two entries into duplicates.
- ClosestThroughout: is stated for slots that match no candidate at the start, as are the results of `AnswerOrder`; otherwise candidates are overlooked (`OverlookedCandidate`).
- ReturnsClosest: is one direction only where a good candidate comes twice, because one that was given up can come back.
- Send rates: `adjust_rates` sets data_rate to 0 while 15 packets are requested, and `do_data` then divides by it (`toxcore/Lossless_UDP.c:820`, 793-794); the run of `StopsOneShort` passes through that point.
- Friend fields that loading does not read (connection, timers, status message, receipts), and the allocation of the list.
- SaveLoad: the DHT part is an opaque string of a size that DHT_load accepts; what DHT_load does with it is not modelled.
- User interface, wrappers and bootstrap programs.
