# Protocol_2.0 in Dafny

This project models the parts of Protocol_2.0 that carry its guarantees and proves what they guarantee.

- **Carousel** (`cpp/stuff.hpp`, `Karusel_Buffer`): a timing wheel of M buckets of N packets. `Schedule.dfy` says what
  the wheel is from outside, one FIFO for each coming drain, and proves its laws over every run of pushes and drains;
  `Carousel.dfy` is the wheel itself, with counters that over-count and one block of slots, proved to go through exactly
  those runs; `CarouselSteps.dfy` takes the same code apart into its atomic accesses, with any number of pushing threads
  beside the draining one; `CarouselTurns.dfy` says which bucket a push goes to in those runs and which turn drains it,
  `CarouselAtomic.dfy` that runs in which nothing overlaps do what the schedule does, `CarouselDiscipline.dfy` exactly
  which runs lose and repeat nothing, `CarouselOrder.dfy` that these keep the order inside each bucket, and
  `CarouselRaces.dfy` has two that lose or repeat. `ModeZero.dfy` puts the mode-0 sender and receiver of
  `cpp/client.hpp` and `cpp/server.hpp` on top.
- **Inner channel** (`python/protocol_core.py`): `Framing.dfy` has the datagrams, `InnerChannel.dfy` the header, the
  reassembly docks and the stop-and-wait sender, `RoundTrip.dfy` composes them byte for byte, and `ChannelRuns.dfy` runs
  sender, receiver and a network that loses, repeats and reorders; `ChannelOrder.dfy` says which messages can be
  delivered late, `ChannelProgress.dfy` when `send_msg` returns and how soon it ends, and `ChannelTheorems.dfy` has what
  the channel gives its user.
- **CRC-32** (`cpp/stuff.hpp`, used by `python/protocol_core.py` through `binascii.crc32`): `Register.dfy` is the serial
  register of section 8 of RFC 1952 over plain bits, `Words.dfy` the bits of machine words, `Crc32.dfy` the table-driven
  code and what the checksum detects.
- **Deadline queue** (`cpp/stuff.hpp`, `ThreadSafeQueue`): `DeadlineQueue.dfy` has the batch and single pops,
  `NextTarget.dfy` the lock-free minimum.
- **Stream buffer** (`cpp/include/asio/basic_streambuf.hpp`): `StreamBuf.dfy`.

`Basics.dfy`, `Bags.dfy` and `Packets.dfy` hold options and places on a wheel, sums of multisets, and the packet type.

What the outside world does is an input: clock readings, what other threads push and drain and when they stop, which
waits of the sender class see their acknowledgement, the hash function (any function of fixed output length), the
contents of uninitialised memory, the addresses a vector gets, and the order of all thread and network steps. Exceptions
are results (`None`, `false`, `Overflowed`, `TimedOut`, `raised`).

Five promises turned out not to hold of the code as they stand. For each there is a run or a value that shows it, and
the condition under which it is kept:

- `send_msg` can return before its message is handed on, because `put_packet` acknowledges before it files the fragment;
  any message can (`ChannelTheorems.ReturnBeforeDelivery`). It is then in the hands of the receiving thread
  (`ChannelTheorems.ReturnedMeansDelivered`).
- A `TimeoutError` can put messages out of order (`ChannelTheorems.TimeoutBreaksOrder`): exactly the messages given up on
  their last fragment can come late (`ChannelOrder.LateExactly`).
- A push that overlaps the drain of its bucket can be lost or can repeat an older packet (`CarouselRaces.PacketLost`,
  `CarouselRaces.PacketRepeated`). A run is safe from that, wherever it is stopped and finished, exactly when no drain
  begins while a push holds a slot of its bucket and no push takes a slot of a bucket being drained
  (`CarouselDiscipline.ConservesExactly`); taking none because the bucket is full does no harm.
- A mode-0 payload shorter than the hash is sent but always dropped by the receiver: `ModeZero.SealedAccepted`.
- A `prepare` that throws may have moved the bytes already (`StreamBuf.ThrowCanCorrupt`,
  `StreamBuf.ThrowKeepsExactly`); an `overflow` that throws has not. `commit` counts in an `int`
  (`StreamBuf.CommitCanGoBack`, `StreamBuf.CastExact`), and so does `consume`, whose pointer sum can wrap besides
  (`StreamBuf.ConsumeCanUnread`, `StreamBuf.CountExact`). Every operation is stated for every buffer these can leave
  behind with its pointers in order.

Check with `dafny verify dfyconfig.toml`.

## Model

| member | source | states |
|---|---|---|
| Register.FeedLinear | cpp/stuff.hpp:93 | the bit step is linear over exclusive or, message bit included |
| Register.SerialInjective | cpp/stuff.hpp:93 | for any fixed message the register is a bijection on its states |
| Register.BackFromZero | cpp/stuff.hpp:91-94 | at most 32 bits drive the register to zero only from the state that equals those bits |
| Register.BurstDetected | cpp/stuff.hpp:88-108 | two messages that differ inside one run of at most 32 bits end in different register states |
| Words.WordOfPolynomial | cpp/stuff.hpp:93 | the constant 0xEDB88320 is the reflected generator polynomial of the standard |
| Crc32.WordOfStep | cpp/stuff.hpp:93 | the shift-and-xor of the generator loop is one turn of the serial register |
| Crc32.GenerateTable | cpp/stuff.hpp:88-98 | entry i of the table is i after eight bit steps, for all 256 entries |
| Crc32.ByteStepRefines | cpp/stuff.hpp:105 | one table look-up equals feeding the eight bits of the byte to the serial register |
| Crc32.CrcRefinesStandard | cpp/stuff.hpp:101-108 | the table-driven checksum equals the bit-at-a-time checksum of the standard for every byte string |
| Crc32.CrcOfString | cpp/stuff.hpp:101-108 | the string overload computes that checksum |
| Crc32.LowByteOnly | cpp/stuff.hpp:125-132 | a signed char widened with its sign selects the same table entry as the unsigned byte |
| Crc32.CrcOfUnsigned | cpp/stuff.hpp:111-122 | the unsigned range overload gives the checksum of buf[start..end], of nothing when end <= start |
| Crc32.CrcOfChars | cpp/stuff.hpp:125-136 | so does the signed char overload |
| Crc32.CrcDetectsBurst | cpp/stuff.hpp:88-136 | a change inside one run of at most 32 bits, at any bit position, changes the checksum |
| Crc32.CrcDetectsWindow | cpp/stuff.hpp:88-136 | a change inside four consecutive bytes changes the checksum |
| Framing.FromBigEndian | python/protocol_core.py:119-122 | from_bytes undoes to_bytes for every value that fits its width |
| Framing.BigEndianBack | python/protocol_core.py:119-122 | and to_bytes undoes from_bytes, for every byte string |
| Framing.BigEndianAt | python/protocol_core.py:244-246 | byte i of to_bytes is the i-th digit of the number to base 256, the most significant first |
| Framing.TrailerValue | python/protocol_core.py:375-376 | read most significant byte first, the trailer is the checksum of the body |
| Framing.UnsealExact | python/protocol_core.py:413-417 | a datagram passes the receive check exactly when it is a body followed by that body's trailer, short datagrams included |
| Framing.WindowRejected | python/protocol_core.py:778-782 | a frame altered inside four consecutive bytes before an intact trailer fails the check |
| Framing.BurstRejected | python/protocol_core.py:413-417 | so does one altered inside a run of at most 32 bits |
| Framing.ClientToServer | python/protocol_core.py:777-785 | the server reads back id, connection and payload of every client frame |
| Framing.ServerToClient | python/protocol_core.py:413-419 | the client reads back id and payload of every server frame |
| Framing.ServerDrops | python/protocol_core.py:778-782 | the server drops a datagram exactly when it is no body followed by that body's trailer, whatever its length |
| Framing.ClientDrops | python/protocol_core.py:413-417 | so does the client |
| Framing.ServerExact | python/protocol_core.py:777-785 | of a datagram with room for all fields, id, connection and payload are handed on exactly when it is the frame of a client with these |
| Framing.ClientExact | python/protocol_core.py:413-419 | the same for the client and the frames of the server |
| Framing.ClientLayout | python/protocol_core.py:373-376 | a client frame is the id byte, the four bytes that name the connection, the payload, and the checksum of all that |
| Framing.ServerLayout | python/protocol_core.py:677-680 | a server frame is the id byte, the payload, and their checksum |
| InnerChannel.DecodeEncode | python/protocol_core.py:119-128 | the inner header round-trips and the echoed four bytes are the packet number |
| InnerChannel.EncodeLayout | python/protocol_core.py:244-246 | where each header field stands in the packet, and that the four bytes acknowledged are the packet number |
| InnerChannel.RouteExact | python/protocol_core.py:420-427 | which ids go to put_packet, which are acknowledgements and which number these name, and which are ignored |
| InnerChannel.FitsInOneByte | python/protocol_core.py:227-246 | the packet count fits its header byte exactly for messages of at most 255 * psz bytes |
| InnerChannel.SplitJoin | python/protocol_core.py:227-236 | joining the packets of a message gives the message, the empty one included |
| InnerChannel.ChunkBytes | python/protocol_core.py:227-236 | packet i of a message holds its bytes from i * psz on, psz of them or what is left |
| InnerChannel.StoreExact | python/protocol_core.py:133-149 | of any docks and fragment: when filing raises, when it hands a message on, which docks are there after, and that the docks of others do not change |
| InnerChannel.StoreFills | python/protocol_core.py:133-140 | the payload goes into its place and no other place of its dock changes |
| InnerChannel.Receiver.Reassemble | python/protocol_core.py:133-149 | filing a fragment, with the IndexError and the last-fragment paths |
| InnerChannel.Receiver.PutPacket | python/protocol_core.py:117-149 | one acknowledgement per packet, the last-received mark with its reset, then the filing |
| InnerChannel.Sender.Send | python/protocol_core.py:238-255 | identical transmissions until the first answered wait; TimeoutError exactly when none is answered; OverflowError on wide counts |
| InnerChannel.Sender.SendAll | python/protocol_core.py:234-236 | fragments in order under consecutive packet numbers, up to the first that is never answered; what it leaves in waiting and as last packet number |
| InnerChannel.Sender.SendMsg | python/protocol_core.py:225-255 | for any outcome of its waits: returns exactly when every fragment has an answered attempt; transmits its rounds, at most attempts * n frames; refuses exactly the messages over 255 * psz bytes |
| RoundTrip.FrameRead | python/protocol_core.py:761-791 | the framed encoding of a fragment is dispatched to put_packet as that fragment exactly when the server has the connection; a first frame from an unknown address opens one instead, any other is dropped |
| RoundTrip.AckArrives | python/protocol_core.py:425-428 | the acknowledgement of a fragment is read back as its packet number, on a connection the server has |
| RoundTrip.FrameFits | python/protocol_core.py:761-765 | with psz = 1280 every frame has at most 1299 bytes and fits the receive buffers |
| RoundTrip.WindowUnread | python/protocol_core.py:778-782 | neither side acts on a frame altered inside four consecutive bytes before its trailer |
| RoundTrip.BurstUnread | python/protocol_core.py:413-417 | nor on one altered inside a run of at most 32 bits |
| RoundTrip.MessageRoundTrip | python/protocol_core.py:117-246 | on a registered connection every message of at most 255 packets is split, framed, checked, dispatched and reassembled to one delivery of itself, leaving no dock |
| ChannelRuns.StepKeeps | python/protocol_core.py:117-255 | each step of sender, receiver and network keeps the invariant of the channel |
| ChannelRuns.RunKeeps | python/protocol_core.py:117-255 | so the invariant holds in every run of fewer than 2^32 packets |
| ChannelRuns.DockComplete | python/protocol_core.py:133-147 | when a last fragment is filed before any delivery, its dock already holds every other part |
| ChannelTheorems.MessagesGiven | python/protocol_core.py:225-236 | in every run message j has the id and bytes of the j-th call of send_msg, and its parts are those bytes cut into packets of psz |
| ChannelTheorems.OverflowsExactly | python/protocol_core.py:238-246 | in every run send_msg raises OverflowError exactly for the messages given with more than 255 * psz bytes |
| ChannelTheorems.FirstDeliveryExact | python/protocol_core.py:117-255 | first deliveries are the messages given to send_msg byte for byte under their ids, later ones ordered pieces ending with the last; put_packet never raises |
| ChannelTheorems.ReturnedMeansDelivered | python/protocol_core.py:124-255 | a message whose send_msg returned is delivered unless the receiver stands inside put_packet with its last fragment |
| ChannelTheorems.ReturnedThenFiled | python/protocol_core.py:124-255 | and that put_packet call delivers it |
| ChannelTheorems.DeliveredInSendOrder | python/protocol_core.py:141-255 | a message whose send_msg returned is delivered before any later message |
| ChannelTheorems.FirstDeliveriesInOrder | python/protocol_core.py:141-255 | unless some send_msg gave up on a last fragment it had transmitted, first deliveries enter the hand-off queue in send order |
| ChannelTheorems.DeliveriesCounted | python/protocol_core.py:133-149 | in every run a message is delivered once for each copy of its last fragment that put_packet is called with, but for one not filed yet |
| ChannelTheorems.ExactlyOnce | python/protocol_core.py:133-149 | so between calls of put_packet it is delivered exactly once exactly when one such copy was taken from the network |
| ChannelTheorems.ReturnBeforeDelivery | python/protocol_core.py:124-255 | from every reachable idle state, with one attempt at least, any message of at most 255 packets has a continuation in which send_msg returned and it is not delivered |
| ChannelTheorems.TimeoutBreaksOrder | python/protocol_core.py:249-255 | a run with a TimeoutError whose message 0 is delivered after a later one |
| ChannelOrder.LateGaveUp | python/protocol_core.py:133-255 | in every run a message first delivered after a later one had its send_msg give up on its last, transmitted, fragment |
| ChannelOrder.LateExactly | python/protocol_core.py:133-255 | between two calls of send_msg, an undelivered message can still come late exactly in that case, unless the receiving thread holds it to deliver it next and nothing later is delivered yet |
| ChannelProgress.TransmittedAreRounds | python/protocol_core.py:234-255 | in every run what is transmitted for a message is the sequence of rounds the sender class is specified by: exactly attempts transmissions of the fragment it times out on, none for a refused message |
| ChannelProgress.TransmissionsBounded | python/protocol_core.py:249-255 | in every run a message is transmitted at most attempts times for each of its packets |
| ChannelProgress.WorksIsHeard | python/protocol_core.py:124-255 | a transmission that is received and whose acknowledgement arrives before its wait expires sets the sender's event in time |
| ChannelProgress.WorkingReturns | python/protocol_core.py:234-255 | if every fragment sent for a message has such a transmission, its send_msg can only end by returning |
| ChannelProgress.ReturnedExactly | python/protocol_core.py:234-255 | a send_msg that ended returned exactly when every fragment was sent and an acknowledgement of it arrived in time |
| ChannelProgress.OwnStepCloser | python/protocol_core.py:249-255 | inside send_msg the sending thread always has a step, and each one comes closer to the end |
| ChannelProgress.StepsBounded | python/protocol_core.py:249-255 | in every run it takes at most 2 * attempts + 1 steps for each packet of a message |
| Packets.ConvertVectorToArray | cpp/stuff.hpp:452-468 | throws exactly above 1500 bytes; otherwise what is sent from the packet is the vector |
| Schedule.OffsetBounds | cpp/stuff.hpp:498 | the offset is the whole beats to the packet's time, at least one |
| Schedule.FirstFitExact | cpp/stuff.hpp:503-508 | everything tried before the chosen bucket is full, and everything is full when there is none |
| Schedule.AcceptExact | cpp/stuff.hpp:498-516 | push refuses exactly past the horizon or when every bucket from its own to the current one is full |
| Schedule.AcceptAfterDrain | cpp/stuff.hpp:498-536 | right after a drain a push inside the horizon is accepted |
| Schedule.PushExact | cpp/stuff.hpp:498-516 | on any schedule an accepted push adds its packet once, at the end of the first bucket with room, and changes no other bucket; a refused one changes nothing |
| Schedule.DrainExact | cpp/stuff.hpp:526-537 | a drain sends the nearest bucket, brings every other one a drain closer and leaves the farthest empty |
| Schedule.RunOnSchedule | cpp/stuff.hpp:494-550 | in every run drain t sends exactly the accepted packets due at t, in acceptance order, each within M drains of acceptance |
| Schedule.SentWhenDue | cpp/stuff.hpp:526-537 | whatever follows, an accepted packet stays accepted and is in the output of the drain it is due at |
| Schedule.RunConserves | cpp/stuff.hpp:494-550 | in every run sent and waiting packets together are, with multiplicity, exactly the packets of the pushes that returned true, and so no more than those pushed |
| Schedule.AcceptedAreTaken | cpp/stuff.hpp:494-517 | from any schedule, the entries added are those of the pushes that returned true, in order |
| Schedule.RunBalanced | cpp/stuff.hpp:494-550 | so they are together the accepted entries |
| Schedule.PacingBound | cpp/stuff.hpp:495-541 | on the beat, a packet leaves within one SPIN_THRESHOLD of its time, shifted by one for each bucket spilled |
| Schedule.RunPaced | cpp/stuff.hpp:495-541 | that bound for every accepted packet of every run, unless it wrapped onto the current bucket, with the push it came from and the buckets that push found full |
| Schedule.OffsetFalls | cpp/stuff.hpp:498 | one SPIN_THRESHOLD of clock time lowers the offset by one, down to one |
| Carousel.Karusel.constructor | cpp/stuff.hpp:471-486 | a new wheel has nothing scheduled |
| Carousel.Karusel.Claim | cpp/stuff.hpp:502-508 | the fetch_add loop finds the first bucket with room although the counters of full buckets pass N |
| Carousel.Karusel.Push | cpp/stuff.hpp:494-517 | the wheel's log takes the schedule's push step: the packet joins the end of the first-fit bucket, or nothing changes and push is false |
| Carousel.Karusel.DrainOnce | cpp/stuff.hpp:526-537 | one turn sends the nearest bucket in order and the log takes the schedule's drain step |
| Carousel.Karusel.Play | cpp/stuff.hpp:494-550 | over any series of pushes and drains the wheel goes through exactly the run of its schedule, its outputs are what the run sends, and outputs and waiting packets together are what waited before and the packets of the pushes that returned true |
| CarouselSteps.SlotsHandedOutOnce | cpp/stuff.hpp:502-537 | under any interleaving no slot index is handed out twice between two clears and none reaches N |
| CarouselSteps.SafeExactly | cpp/stuff.hpp:502-537 | from a balanced state a step keeps sent + waiting = accepted exactly when it sends a written slot, clears nothing unsent, or writes to a slot still its own |
| CarouselTurns.RunTurning | cpp/stuff.hpp:526-537 | under any interleaving turn u of the drainer drains bucket u mod M, and the packets a bucket takes now are due with the first turn of that bucket that is not over |
| CarouselTurns.RunOnCourse | cpp/stuff.hpp:498-509 | under any interleaving a push under way holds the packet it was called with, has tried its own offset and the next ones in turn, and adds to bucket (k + num) mod M for the k it read |
| CarouselTurns.PushPlaced | cpp/stuff.hpp:502-508 | at its fetch_add such a push, with offsets first to num - 1 found full and k read after t turns, joins the packets that the first turn of its bucket not over drains: those of turn t + num itself when that is one of the next M turns |
| CarouselTurns.SendsInTurn | cpp/stuff.hpp:526-533 | whatever is sent in turn u is of the round of its bucket that is due with turn u |
| CarouselAtomic.ApartRefines | cpp/stuff.hpp:494-537 | a run in which pushes and turns do not overlap accepts and sends, turn by turn, what the schedule's run of the same pushes and drains accepts and sends |
| CarouselDiscipline.DisciplinedSafe | cpp/stuff.hpp:502-537 | after any run in which pushes finish before their bucket's drain begins, every step the code can take is safe |
| CarouselDiscipline.DisciplinedConserves | cpp/stuff.hpp:502-537 | such a run keeps the balance under every interleaving of any number of threads, fetch_adds on full buckets being drained included |
| CarouselDiscipline.UndisciplinedBreaks | cpp/stuff.hpp:502-537 | after a disciplined run, any step that breaks the discipline can be followed, within the drain under way and the pushes under way, by a loss or a repetition |
| CarouselDiscipline.ConservesExactly | cpp/stuff.hpp:502-537 | a run keeps the balance wherever it is stopped and what is under way finished exactly when it is disciplined |
| CarouselOrder.SlotsInTurn | cpp/stuff.hpp:503-507 | in every run the x-th packet given a slot between two clears of a bucket is given slot x, and no other slots are |
| CarouselOrder.DrainsInOrder | cpp/stuff.hpp:502-537 | in a disciplined run a drain sends the packets of its bucket in the order of their fetch_adds, slot 0 first, and all of them by the clear |
| CarouselRaces.PacketLost | cpp/stuff.hpp:503-534 | a run in which push returns true and the packet is never sent and no longer counted |
| CarouselRaces.PacketRepeated | cpp/stuff.hpp:503-534 | a run in which one accepted packet is sent twice |
| ModeZero.SealedAccepted | cpp/server.hpp:251-265 | the receiver accepts a hashed payload exactly when it is at least as long as the hash, whatever the reused buffer held |
| ModeZero.CheckExact | cpp/server.hpp:251-265 | of any datagram that fits, the receiver keeps a payload exactly when the datagram is that payload with its hash and the payload is at least as long as the hash |
| ModeZero.RetryEnds | cpp/client.hpp:120-123 | a refused try is below the retry bound |
| ModeZero.PushUntilTaken | cpp/client.hpp:120-123 | with pushes and drains of other threads in each wait, a drain the last, and a SPIN_THRESHOLD between tries, the loop ends within the bound, at the first try the schedule accepts |
| ModeZero.SendPacket | cpp/client.hpp:117-126 | payload and hash are scheduled as one packet, or the size error is raised and nothing changes |
| ModeZero.AcceptedSent | cpp/stuff.hpp:494-537 | whatever is pushed and drained after a packet is accepted, it is in the output of the drain it is due at |
| ModeZero.EndToEnd | cpp/client.hpp:117-176 | send_packet, then any pushes and drains of the wheel: the due drain, fewer than m on, outputs the datagram, and the receiver keeps exactly the payload |
| DeadlineQueue.ThreadSafeQueue.Collect | cpp/stuff.hpp:381-391 | collects in timestamp order exactly the packets due at the last reading, each due at the reading it was compared with, one reading for each packet looked at |
| DeadlineQueue.ThreadSafeQueue.PopBatch | cpp/stuff.hpp:356-394 | the stopped, too-early and collecting paths, for any monotone clock and any pushes of others during its two waits |
| DeadlineQueue.ThreadSafeQueue.PopRound | cpp/stuff.hpp:399-441 | one turn takes a least packet that is due, or leaves all and nothing was due |
| DeadlineQueue.ThreadSafeQueue.Pop | cpp/stuff.hpp:396-442 | over any number of turns with others pushing: a popped packet was due and a minimum, and nothing else leaves; it ends exactly when it is stopped; every turn before found nothing due, and so did the last of a pop still waiting |
| NextTarget.StepKeeps | cpp/stuff.hpp:350-352 | stale reads and spurious failures included, each step keeps the invariant and only appends values |
| NextTarget.MinimumHeld | cpp/stuff.hpp:334-354 | in every run next_target only falls, is the initial maximum or a pushed time, and is no later than any finished push |
| NextTarget.QuietMinimum | cpp/stuff.hpp:344-354 | with no push in flight next_target is the least time pushed |
| NextTarget.NewestEnds | cpp/stuff.hpp:350-352 | a push that sees the newest value ends with its next step and leaves the lesser of that value and its time |
| NextTarget.PushEnds | cpp/stuff.hpp:350-352 | from every reachable state every push can end within two steps of its own, with next_target the lesser of what it was and its time |
| StreamBuf.CastExact | cpp/include/asio/basic_streambuf.hpp:236 | the cast to int keeps a count exactly up to INT_MAX |
| StreamBuf.CountExact | cpp/include/asio/basic_streambuf.hpp:251-253 | exactly for which n the pointer test and the cast of consume move the get pointer by min(n, size) |
| StreamBuf.BasicStreambuf.constructor | cpp/include/asio/basic_streambuf.hpp:131-141 | starts empty, with the smaller of max_size and 128 to write to |
| StreamBuf.BasicStreambuf.Reserve | cpp/include/asio/basic_streambuf.hpp:308-346 | in every state of the buffer, after a caught throw too: throws exactly when size + n > max_size; otherwise contents kept and room made; the exact contents after a throw |
| StreamBuf.BasicStreambuf.Relocate | cpp/include/asio/basic_streambuf.hpp:321-345 | the memmove and growth keep the contents and leave the pointers exactly where the source puts them |
| StreamBuf.BasicStreambuf.Prepare | cpp/include/asio/basic_streambuf.hpp:214-219 | the same for prepare, with at least n bytes to write to |
| StreamBuf.BasicStreambuf.Commit | cpp/include/asio/basic_streambuf.hpp:233-238 | appends the front of the put area, clamped, while the count fits an int |
| StreamBuf.BasicStreambuf.Consume | cpp/include/asio/basic_streambuf.hpp:247-254 | removes the front of the contents, clamped, exactly when the count clamps; how far the get pointer goes astray otherwise |
| StreamBuf.BasicStreambuf.Underflow | cpp/include/asio/basic_streambuf.hpp:263-274 | shows the next byte or eof and changes no contents |
| StreamBuf.BasicStreambuf.Overflow | cpp/include/asio/basic_streambuf.hpp:283-306 | a real character throws exactly when size = max_size, and then the contents stay; else it is appended; eof changes nothing |
| StreamBuf.BasicStreambuf.ReadSize | cpp/include/asio/basic_streambuf.hpp:353-359 | the suggested size is at most the limit and what max_size leaves, and at least 512 and the spare capacity when these allow it |
| StreamBuf.BasicStreambuf.PrepareSuggested | cpp/include/asio/basic_streambuf.hpp:353-359 | preparing what read_size_helper suggests never throws |
| StreamBuf.ThrowKeepsExactly | cpp/include/asio/basic_streambuf.hpp:322-340 | the exact condition under which a throw leaves the contents alone |
| StreamBuf.ThrowCanCorrupt | cpp/include/asio/basic_streambuf.hpp:322-340 | a buffer whose contents a throwing prepare changes |
| StreamBuf.ConsumeCanUnread | cpp/include/asio/basic_streambuf.hpp:251-253 | a buffer in which consume of SIZE_MAX brings a byte back instead of emptying it |
| StreamBuf.CommitCanGoBack | cpp/include/asio/basic_streambuf.hpp:235-237 | a buffer in which commit of INT_MAX + 1 bytes moves the put pointer back by as many |

## Left out

- Sockets, threads, sleeping, condition variables and mutexes as objects: their effects are the inputs and step orders named above.
- Cryptography, certificates, the Python handshake and re-keying: foreign calls and key plumbing; the extra acknowledgement of packet 1 that the client's handshake sends (python/protocol_core.py:163-164) is not a step of the channel.
- Corruption inside the channel runs: the network there only loses, repeats and reorders; what the checksum rejects, and that nothing is done with it, is stated in `Framing.dfy` and `RoundTrip.dfy`.
- Several threads in `send_msg` at once: the id counters are unlocked, so one sending thread per endpoint is modelled.
- Runs of 2^32 packets or more: packet and message numbers wrap there and the channel's promises end.
- `math.ceil(len(msg)/psz)` is exact integer division upwards here; the source divides in floating point.
- The order of the server's hand-off after reassembly: each message gets its own thread there.
- The race between the membership test and the lookup of `waiting` in the ack dispatch: a dictionary access is one step with its test.
- InnerChannel.Receiver: `last_recieved_id` is kept as the source keeps it, but nothing reads it.
- Packet counters of a bucket wrapping after 2^64 pushes without a drain.
- The exception path of the drain loop (a socket error leaves the loop); every `send_to` succeeds.
- ModeZero.PushUntilTaken: no other producer pushes between the last drain of a wait and the next try; with one the bound need not hold.
- Spill and timing of `push` under a clock that stops or runs backwards.
- Several threads that pop: other threads only push and stop; how long the waits of `pop_batch` last is not modelled.
- The sleeping and spinning inside `pop`: a turn that finds nothing due just gives the mutex up.
- A stream buffer whose get or put pointer has left its memory (a `commit` or `consume` whose count went astray): what follows is undefined in the source.
- Allocation that fails: a vector that has to grow gets room, at any address; a pointer past the end of a buffer is its 64-bit address.
- The server's table of addresses changing when a client moves (python/protocol_core.py:648-655).
- `sputn`, `sgetn` and the other inherited members of `std::streambuf`, allocators, and vector capacity beyond being at least the size.
- `GlobalDataStream`, the block channel, `Logger`, `access_control.hpp`, key setters and lifecycle flags, `Crc32Hasher`: unfinished, I/O, or one-branch facts.
