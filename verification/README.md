# World Opponent Network: four stateful components

Dafny models of four components of the repository that change state step by step, with proofs of
what every sequence of their operations keeps. `dafny verify dfyconfig.toml` checks everything.

**The network channel** (`Netchan`, `Fragments`, `Order`, `Stream`, `Delivery`, `Channel`, `Drift`,
`Survival`, `Misreading`, `WipedRun`, `Recovery`). An endpoint sends one reliable part at a time,
marks it with an alternating bit, and cuts long messages into fragments. `Netchan` holds the class
that runs the operations in place and the functions on values that say what they compute. `Stream`
is the protocol in the abstract, with one invariant that ties a sender, a receiver and the packets
between them together. `Channel` puts two endpoints on a network that loses, repeats and reorders
packets, shows that their operations refine the abstract steps, and proves for every run that
reliable parts are taken exactly once and in order and that the bytes delivered are a prefix of the
bytes queued. A transmission can wipe its packet and send other bytes in its place: `Misreading`
gives the exact condition under which the promises survive that, with the invariants of `Drift` and
`Survival`, and `WipedRun` a run in which they do not. `Recovery` proves that on a network that
loses nothing everything queued is delivered. `Fragments` says exactly which messages survive being
cut up.

**The hunk** (`Zone`, `BlockLists`, `MakingWay`, `Cache`, `Links`). The zone is a next-fit allocator
on a circular list of blocks; the class keeps the list in linked objects beside a sequence of cells
it must show. The cache keeps each block on an address list and a linked list of last use, moves
blocks when the low hunk grows, and evicts them to make room; the hunk's bytes are an array, and the
payload of each surviving user is followed through every copy and every zeroing. `BlockLists` and
`MakingWay` treat the lists as values, and say who is evicted and who is lost when the low hunk
grows.

**The master server list** (`MasterServer`, `Paging`). A doubly linked list sorted by hash, a pool
of reserve nodes, and replies that are filled page by page and resumed by hash. `Paging` says,
server by server, what a whole listing reports.

**The sound index** (`SoundLookup`). An open-addressing table that must agree with a scan of the
precache array.

**The loopback ring** (`Loopback`). Two rings of four slots as bounded queues.

`Basics` holds what the modules share. A fatal error of the original (`Sys_Error`) is a false,
`None`, `Fatal` or `Death` result; the state after it is not described where the program would have
ended. Ghost parameters and results, such as the place of a node in its list, are bookkeeping for
the proofs.

## Where the code does not do what is said of it

- Sound index: the table does not enter an array whose entry 0 is NULL, while the scan begins at
  entry 1. The two agree exactly if entry 0 is set or entry 1 is not (`LookupRefinesLinear`); the
  server sets entry 0 to the empty string before precaching.
- Paging: the code notes that many collisions may omit a server. The condition is exact in
  `ListingReports` and `HiddenIff`: servers of one hash beyond a page are never reported, but for
  the last where no server has the next hash. A buffer of six bytes makes no progress
  (`NoRoomNoProgress`), and with fewer the room wraps around (`FitsIff`). The comment that the 32nd
  bit is not for this function does not hold for its own resume hash after collisions at the highest
  hash (`ResumeBits`).
- Server filters: `!x & mask` negates before it masks, so the dedicated, secure, Linux and proxy
  filters never reject a server (`OnlyModAndPlayersFilter`).
- Fragments: SV_GetFragmentSize allows sizes up to 16384, but a fragment of 1200 bytes or more never
  leaves (`StuckSends`), and one of more than 1400 bytes is fatal when it is cut. More than 25000
  fragments are refused by the receiver (`HeadersValid`). Insertion in the middle of the fragment
  list loses a fragment (`FilingLoses`).
- Transmission: when a long reliable part is sent again the room for the unreliable part is computed
  without sign, so the unreliable part is written although it does not fit and may wipe the whole
  packet, header included (`GarbledIff`). Its bytes are sent in place of the packet, and the
  receiver reads the first eight as sequence and acknowledgement. If they are new to it, the
  promises survive only where the bytes are neither marked reliable nor flagged as a fragment and
  the acknowledgement does not mislead the receiver in its own sending: it must not clear a part
  that was not taken, nor make an empty part go out, nor a part that the other side has or will have
  go again, nor let an old answer clear the next part (`WipedIff`). `PromiseBreaks` and
  `PromiseBreaksLater` are runs that get there, and ordinary server datagrams are such bytes
  (`DatagramOfTimeOne`, `DatagramOfTimeTwo`). The sender can rule it out: the number in the first
  word must not exceed the last acknowledgement it has heard (`SenderCanTell`).
- SZ_GetSpace wipes a buffer that may overflow, but where the bytes alone are more than the buffer
  holds the copy runs past its end (`StaysInsideIff`); behind the message under construction of a
  channel lie the length and the bytes of its reliable part.
- Netchan_Process checks a fragment buffer for overflow after writing it, but SZ_Write is fatal on a
  fragment that does not fit, so the check never fires.
- Growing the low hunk moves the lowest block to the first gap above itself, even one below the mark,
  and from there again: a block that fits between the marks can be lost on the way (`BounceDrops`).
  Who is lost is said in `LostIff`, and where nobody is in `SpaciousKeepsAll`.
- NewNode returns NULL without unlocking its mutex; locks are not modelled.

## Model

| member | source | states |
|---|---|---|
| Channel.ExactlyOnce | ` world-opponent-network/OSHLDS/NET.c:2143-2611` | At every moment of every run of two endpoints over a network that loses, repeats and reorders packets, the reliable parts taken on one side are a prefix of those sent on the other, at most one behind, and a pending part stays pending until it was taken; both ways. Where a transmission wipes its packet, the bytes sent instead are on the network too and must not be new to the receiver |
| Channel.DeliveredIsPrefix | ` world-opponent-network/OSHLDS/NET.c:1600-2672` | In those runs the bytes an endpoint delivers, directly or from reassembled fragments, are a prefix of the bytes queued at the other, whether written to the message or cut into fragments |
| Channel.DeliversPrefix | ` world-opponent-network/OSHLDS/NET.c:1600-2672` | The same for every state that keeps the invariant; with nothing pending or queued, the delivered bytes are all the queued ones |
| Channel.RunKeeps | ` world-opponent-network/OSHLDS/NET.c:2108-2672` | The invariant of the alternating bit, the sequence numbers, the fragment lists and the byte streams holds after every such run, and all buffers stay within their bounds |
| Channel.StepKeeps | ` world-opponent-network/OSHLDS/NET.c:2108-2672` | Each write that fits its buffer, fragmentation, transmission and receipt, and each reading of bytes sent in place of a packet, keeps it |
| Channel.TakesOnce | ` world-opponent-network/OSHLDS/NET.c:2143-2611` | The same for every state that keeps the invariant |
| Channel.MisreadStep | ` world-opponent-network/OSHLDS/NET.c:2578-2611` | Bytes sent in place of a packet that are not new to the receiver are dropped however they are read |
| Channel.NothingLost | ` world-opponent-network/OSHLDS/NET.c:2143-2147` | A part is sent again exactly if the last packet heard acknowledges a later packet without it, and then it is pending and was not taken |
| Channel.EchoIsTrue | ` world-opponent-network/OSHLDS/NET.c:2595-2607` | The reliable bit of a new packet agrees with the sender's exactly if the other side had taken everything; a pending part is cleared exactly if it had and the acknowledgement before is recent enough |
| Channel.TransmitKeeps | ` world-opponent-network/OSHLDS/NET.c:2108-2298` | A transmission refines the step of the abstract sender, carries the echo of what was taken, and keeps queued bytes equal to sent bytes plus what is left, for every unreliable part |
| Channel.LoadKeeps | ` world-opponent-network/OSHLDS/NET.c:2149-2255` | The part loaded is the front of the queue, is not empty, and bears a header the receiver accepts |
| Channel.ReceiveKeeps | ` world-opponent-network/OSHLDS/NET.c:2578-2611` | Taking a new packet is the abstract receiver's and sender's step, and what was delivered is what the taken parts make up; an old packet changes nothing |
| Channel.WriteKeeps | ` world-opponent-network/OSHLDS/sizebuf.c:31-61` | Writing no more than the buffer holds keeps the order of the stream and the bounds, also where it overflows |
| Channel.CutKeeps | ` world-opponent-network/OSHLDS/NET.c:1873-1939` | Queueing a message in fragments keeps the order of the stream |
| Misreading.WipedIff | ` world-opponent-network/OSHLDS/NET.c:2108-2672` | The bytes that a transmission sends in place of the packet it wiped, on their arrival at any later moment: both promises hold in every continuation, whatever the receiver reads, exactly if it drops them, or they are neither marked reliable nor flagged as a fragment and their acknowledgement does not mislead it as a sender |
| Misreading.SurvivesIff | ` world-opponent-network/OSHLDS/NET.c:2484-2672` | The same for bytes that reach an endpoint in any state that keeps the invariant |
| Misreading.PlainBreaks | ` world-opponent-network/OSHLDS/NET.c:2143-2298` | Bytes whose acknowledgement misleads the receiver can be continued to a broken promise, in each of the five ways |
| Misreading.PlainBound | ` world-opponent-network/OSHLDS/NET.c:2595-2607` | Bytes whose acknowledgement does not mislead leave an invariant |
| Misreading.FragmentBreaks | ` world-opponent-network/OSHLDS/NET.c:2612-2645` | A fragment is filed without asking for the reliable bit: flagged bytes can be read so that a byte is delivered that was not queued |
| Misreading.MarkedIff | ` world-opponent-network/OSHLDS/NET.c:2518-2611` | A marked reading that is taken keeps the promise exactly if it is no fragment and its content is the pending part |
| Misreading.UnmarkedIff | ` world-opponent-network/OSHLDS/NET.c:2518-2611` | A reading that is not marked and not dropped leaves the promise of its direction alone, and breaks the other at once exactly if it clears a part that was not taken |
| Misreading.SenderCanTell | ` world-opponent-network/OSHLDS/NET.c:2143-2147` | Bytes whose number does not exceed the last acknowledgement heard are dropped |
| Misreading.WipedWhere | ` world-opponent-network/OSHLDS/NET.c:2291-2332` | A packet is wiped only where a pending part without a fragment header is sent again |
| Survival.BoundSurvives | ` world-opponent-network/OSHLDS/NET.c:2108-2672` | The weaker invariant gives both promises in every continuation |
| Survival.StepBound | ` world-opponent-network/OSHLDS/NET.c:2108-2672` | Every step keeps it |
| Survival.NothingBreaks | ` world-opponent-network/OSHLDS/NET.c:2143-2298` | An endpoint with nothing pending or queued that believes a part lost sends an empty part, which is taken |
| Survival.CopyBreaks | ` world-opponent-network/OSHLDS/NET.c:2143-2298` | A part that is sent again while a copy is still new to the other side is taken twice |
| Survival.NextClearedBreaks | ` world-opponent-network/OSHLDS/NET.c:2595-2599` | A part loaded while an older answer is still new can be cleared by it without having been taken |
| Drift.MisledTied | ` world-opponent-network/OSHLDS/NET.c:2595-2607` | A sender that hears an acknowledgement nobody gave stays tied to the receiver unless it clears what was not taken, sends nothing, or repeats or clears the next part wrongly |
| Drift.JumpTied | ` world-opponent-network/OSHLDS/NET.c:2578-2611` | A receiver that takes a packet without a part under a number nobody sent stays tied to its sender |
| Drift.SendTied | ` world-opponent-network/OSHLDS/NET.c:2143-2295` | Sending keeps a tied sender and receiver tied |
| Drift.HearTied | ` world-opponent-network/OSHLDS/NET.c:2595-2607` | So does any answer, however old |
| Drift.TakeTied | ` world-opponent-network/OSHLDS/NET.c:2578-2611` | So does any packet that arrives |
| Drift.LinkTies | ` world-opponent-network/OSHLDS/NET.c:2108-2672` | The invariant of runs without misreadings is a special case |
| WipedRun.PromiseBreaks | ` world-opponent-network/OSHLDS/NET.c:2108-2672` | A run of six events after which a transmission of 1100 bytes wipes its packet: every reading of bytes that are marked reliable and not flagged, with a number above two, breaks the promise |
| WipedRun.PromiseBreaksLater | ` world-opponent-network/OSHLDS/NET.c:2143-2672` | After the same run, unmarked bytes with the echo bit and an acknowledgement above zero break it in a continuation, though receipt does no harm at once |
| WipedRun.DatagramOfTimeOne | ` world-opponent-network/OSHLDS/SV_pkt.c:1705-1725` | The server datagram of the time 1.0 is of the first kind |
| WipedRun.DatagramOfTimeTwo | ` world-opponent-network/OSHLDS/SV_pkt.c:1705-1725` | The one of the time 2.0 is of the second kind for a quarter of the values of its eighth byte |
| Recovery.EverythingArrives | ` world-opponent-network/OSHLDS/NET.c:2143-2672` | From every reachable state, if the network loses nothing, so many exchanges as bytes are queued, and two more, deliver every queued byte, whatever unreliable parts are sent meanwhile that do not wipe their packet |
| Recovery.RunsRecover | ` world-opponent-network/OSHLDS/NET.c:2143-2672` | After every run, that many exchanges with unreliable parts of up to 39 bytes, which never wipe a packet, deliver everything |
| Recovery.TwoExchangesSettle | ` world-opponent-network/OSHLDS/NET.c:2143-2611` | Two loss-free exchanges settle whatever was pending, and then nothing is pending |
| Recovery.ExchangeIs | ` world-opponent-network/OSHLDS/NET.c:2143-2611` | After one exchange the sender knows exactly what the receiver has; from such a state the next one clears what it carries |
| Recovery.OneExchange | ` world-opponent-network/OSHLDS/NET.c:2143-2611` | The same on the abstract stream, for any pending part and any lost acknowledgement |
| Recovery.Drains | ` world-opponent-network/OSHLDS/NET.c:2143-2611` | Where nothing is pending, each exchange settles at least one queued byte |
| Recovery.TransmitSends | ` world-opponent-network/OSHLDS/NET.c:2261-2298` | A transmission sends a packet whatever the unreliable part, unless it wipes it |
| Recovery.ShortTalkOk | ` world-opponent-network/OSHLDS/NET.c:2291-2302` | No unreliable part of up to 39 bytes wipes a packet |
| Stream.SendKeeps | ` world-opponent-network/OSHLDS/NET.c:2143-2295` | First sending, sending again and plain packets keep the invariant, whether or not the packet gets onto the network |
| Stream.HearKeeps | ` world-opponent-network/OSHLDS/NET.c:2595-2607` | An acknowledgement that is delayed, repeated or overtaken keeps it, and clears a pending part only if that was taken |
| Stream.EchoIs | ` world-opponent-network/OSHLDS/NET.c:2595-2607` | The same on the abstract stream |
| Stream.TakeKeeps | ` world-opponent-network/OSHLDS/NET.c:2578-2611` | A packet that is new to the receiver and carries a part carries exactly the next one |
| Stream.AnswerKeeps | ` world-opponent-network/OSHLDS/NET.c:2261-2262` | An answer echoes the reliable bit and acknowledges without promising more than was taken |
| Stream.LostIs | ` world-opponent-network/OSHLDS/NET.c:2143-2147` | The condition for sending again holds only if the pending part was lost |
| Order.TransmitTakesFront | ` world-opponent-network/OSHLDS/NET.c:2149-2255` | A transmission takes the front of what was queued and leaves the rest in order: no direct message overtakes a fragment |
| Order.FragmentedBytes | ` world-opponent-network/OSHLDS/NET.c:1932-1939` | Netchan_CreateFragments queues a message behind everything queued before, including the message under construction |
| Order.WrittenBytes | ` world-opponent-network/OSHLDS/sizebuf.c:31-61` | So does a write that fits |
| Order.AdvancedBytes | ` world-opponent-network/OSHLDS/NET.c:1464-1489` | Netchan_FragSend moves bytes but neither loses nor reorders any |
| Order.AddedBytes | ` world-opponent-network/OSHLDS/NET.c:1873-1931` | The fragments of a message hold its bytes, behind all those waiting |
| Order.TakesMessage | ` world-opponent-network/OSHLDS/NET.c:2149-2255` | With nothing pending and no fragment in line, a transmission takes the whole message as it is, without a fragment header, and leaves it empty; the packet carries it under the flipped bit |
| Order.TakesFragment | ` world-opponent-network/OSHLDS/NET.c:2149-2255` | With a fragment in line, it takes exactly that one, if it is under 1200 bytes, under its number and count, and only that leaves the list; a message of at most 1200 bytes stays, a longer one is cut up and queued behind all others, and is fatal exactly if that takes a fragment of over 1400 bytes |
| Order.TakesNothing | ` world-opponent-network/OSHLDS/NET.c:2143-2298` | With nothing pending or queued nothing is taken; a lost part is sent again empty |
| Order.TakesNone | ` world-opponent-network/OSHLDS/NET.c:2143-2298` | With a part pending nothing else is taken, and it is sent again exactly if it was acknowledged as missing |
| Order.AddedIs | ` world-opponent-network/OSHLDS/NET.c:1873-1931` | A message is queued last, cut into numbered full fragments that hold its bytes, under their count |
| Order.FragmentedIs | ` world-opponent-network/OSHLDS/NET.c:1932-1939` | The message under construction is cut up first, and then the new one, each into an entry of its own; fatal exactly if one takes a fragment of over 1400 bytes |
| Order.ReceiptIs | ` world-opponent-network/OSHLDS/NET.c:2484-2645` | Which packets are dropped, fatal or taken, and what a taken one does to every field of the channel; a fragment taken is in the list |
| Fragments.RoundTrip | ` world-opponent-network/OSHLDS/NET.c:1600-1633` | A message cut, sent and put together comes out as it went in exactly if its fragments are under 1200 bytes and at most 25000, and it has at most 65536 bytes; it is ready with the last fragment and not before |
| Fragments.PiecesAre | ` world-opponent-network/OSHLDS/NET.c:1888-1919` | The fragments are numbered in order, full but for the last, not empty, and together are the message |
| Fragments.ArriveInOrder | ` world-opponent-network/OSHLDS/NET.c:2622-2645` | Fragments that arrive in order are filed in order and complete the message exactly with the last |
| Fragments.NoGapsInOrder | ` world-opponent-network/OSHLDS/NET.c:2376-2397` | Fragments filed in order leave no gap, on which a client would ask for a new connection |
| Fragments.NextArrives | ` world-opponent-network/OSHLDS/NET.c:1538-1567` | The next fragment goes to the end of the list, and completes the message if and only if it is the last |
| Fragments.GatherIff | ` world-opponent-network/OSHLDS/NET.c:1616-1629` | Gathering yields all bytes exactly if they fit the buffer |
| Fragments.GatheredIsEnd | ` world-opponent-network/OSHLDS/NET.c:1616-1629` | What is left of bytes that do not fit is the end of them |
| Fragments.TravelIff | ` world-opponent-network/OSHLDS/NET.c:2221-2223` | Fragments can all be loaded and accepted exactly if they are short and not too many |
| Fragments.HeadersValid | ` world-opponent-network/OSHLDS/NET.c:2461-2477` | Netchan_Validate accepts all headers of n fragments exactly if n is at most 25000 and the packet at most 2048 bytes |
| Fragments.FilingLoses | ` world-opponent-network/OSHLDS/NET.c:1553-1564` | Filing keeps every fragment exactly if none but the first has a higher number; otherwise one is overwritten |
| Fragments.OutOfOrder | ` world-opponent-network/OSHLDS/NET.c:1553-1564` | Of three fragments, the third is lost where the second comes after it |
| Fragments.StuckSends | ` world-opponent-network/OSHLDS/NET.c:2221-2239` | A fragment of 1200 bytes or more is never sent: each transmission flips the reliable bit and carries nothing |
| Fragments.StuckStays | ` world-opponent-network/OSHLDS/NET.c:2221-2239` | Nothing received, written to the message or cut into fragments meanwhile changes that |
| Fragments.UnreliableIff | ` world-opponent-network/OSHLDS/NET.c:2257-2302` | The unreliable part rides along exactly if it fits a packet, or the smaller one of a part sent again; otherwise it is dropped whole |
| Fragments.GarbledIff | ` world-opponent-network/OSHLDS/NET.c:2291-2302` | A packet is wiped, or the unreliable part fatal, exactly if a reliable part of over 1400 bytes is sent again and all together exceeds a packet: the signed room is compared without sign |
| Fragments.FragmentSize | ` world-opponent-network/OSHLDS/SV_pktcl.c:81-107` | The fragment size of a client is its cl_dlmax setting between 64 and 16384, and a fixed one beyond, without a setting or before it is connected; it reaches the limit exactly for settings from 1200 to 16384 |
| Netchan.HeaderIff | ` world-opponent-network/OSHLDS/NET.c:2261-2275` | Sequence number, reliable bit and fragment flag survive the header word exactly if the number has thirty bits |
| Netchan.Netchan.Transmit | ` world-opponent-network/OSHLDS/NET.c:2108-2312` | Step by step in place, with the refusal, the fatal error and the wiped packet, the new channel and the packet are those of Transmitted; what that takes is said in Order.TakesMessage and Order.TakesFragment |
| Netchan.Netchan.Prepare | ` world-opponent-network/OSHLDS/NET.c:2149-2176` | The queue is advanced, and a message over 1200 bytes joins pending fragments |
| Netchan.Netchan.Load | ` world-opponent-network/OSHLDS/NET.c:2178-2255` | The next reliable part is that of Loaded: the fragment first in line, if it is under the limit, or the whole message if there are no fragments, as Order.TakesFragment and Order.TakesMessage say of the transmission |
| Netchan.Netchan.Emit | ` world-opponent-network/OSHLDS/NET.c:2257-2298` | The packet takes the next number, which is remembered if it carries a reliable part |
| Netchan.Netchan.Pack | ` world-opponent-network/OSHLDS/NET.c:2257-2307` | Header, reliable part and unreliable part within their limits |
| Netchan.Netchan.FragSend | ` world-opponent-network/OSHLDS/NET.c:1464-1489` | The next waiting message moves up when the one in progress is done |
| Netchan.Netchan.AddFragments | ` world-opponent-network/OSHLDS/NET.c:1873-1931` | A message becomes a waiting list of fragments; the fatal error of too long a fragment |
| Netchan.Netchan.Cut | ` world-opponent-network/OSHLDS/NET.c:1888-1919` | The loop that cuts a message |
| Netchan.Netchan.CreateFragments | ` world-opponent-network/OSHLDS/NET.c:1932-1939` | The message under construction goes first, also when it is itself the argument |
| Netchan.Netchan.Process | ` world-opponent-network/OSHLDS/NET.c:2484-2672` | Validation, sequence check, acknowledgement and storing in that order, in place; the new channel is that of Processed, and only a client asks for new connections |
| Netchan.Netchan.Accept | ` world-opponent-network/OSHLDS/NET.c:2595-2611` | The clearing rule uses the acknowledgement before this packet |
| Netchan.Netchan.Store | ` world-opponent-network/OSHLDS/NET.c:2622-2645` | A fragment fills its buffer, found or added, and may complete the message |
| Netchan.Netchan.FindBufferById | ` world-opponent-network/OSHLDS/NET.c:1758-1775` | The buffer of an id, added if there is none |
| Netchan.Netchan.AddBufferToList | ` world-opponent-network/OSHLDS/NET.c:1538-1567` | Insertion by number, with the replacement it does |
| Netchan.Netchan.CheckForCompletion | ` world-opponent-network/OSHLDS/NET.c:2364-2400` | Ready when the list has as many fragments as announced; a client asks for a new connection once for each fragment not at its place |
| Netchan.NoGapsIff | ` world-opponent-network/OSHLDS/NET.c:2376-2397` | A client misses no fragment exactly if each is at the place of its number |
| Netchan.Netchan.CopyNormalFragments | ` world-opponent-network/OSHLDS/NET.c:1600-1633` | The assembled message, and an empty list |
| Netchan.Netchan.ReadPacket | ` world-opponent-network/OSHLDS/SV_pkt.c:1844-1862` | A packet is processed and a completed message taken out at once |
| Netchan.Netchan.constructor | ` world-opponent-network/OSHLDS/NET.c:1412-1434` | The first channel state |
| Netchan.SizeBuf.Write | ` world-opponent-network/OSHLDS/sizebuf.c:31-61` | What fits is appended; what does not wipes the buffer and the permission to overflow before it is written, or is fatal; the write stays inside the buffer exactly unless overflow is permitted and the bytes alone are too many |
| Netchan.StaysInsideIff | ` world-opponent-network/OSHLDS/sizebuf.c:31-61` | A write stays inside its buffer exactly unless overflow is permitted and the bytes alone are too many |
| Netchan.TransmitSized | ` world-opponent-network/OSHLDS/NET.c:2108-2298` | Buffers stay within their bounds |
| Netchan.ProcessSized | ` world-opponent-network/OSHLDS/NET.c:2484-2645` | Buffers stay within their bounds |
| Delivery.FragmentFlows | ` world-opponent-network/OSHLDS/NET.c:2221-2239` | A loaded fragment joins those before it at the receiver, or completes the message: no byte is lost or reordered |
| Delivery.FilesNext | ` world-opponent-network/OSHLDS/NET.c:2622-2645` | The next fragment is filed, or completes the message, which then is all its bytes |
| Delivery.DirectFlows | ` world-opponent-network/OSHLDS/NET.c:2196-2207` | A message sent directly is delivered at once and never splits a fragmented one |
| Delivery.FragmentedOk | ` world-opponent-network/OSHLDS/NET.c:1873-1939` | Every queued message stays one that travels whole |
| Delivery.AdvancedOk | ` world-opponent-network/OSHLDS/NET.c:1464-1489` | So it does when it moves up |
| Delivery.PreparedOk | ` world-opponent-network/OSHLDS/NET.c:2149-2176` | So it does when a long message joins |
| Loopback.RunIsFifo | ` world-opponent-network/OSHLDS/NET.c:812-1199` | Of the queue, in every interleaving of sends and gets, messages come out in order, and only those that were not among the last four sent are lost |
| Loopback.Ring.RingIsFifo | ` world-opponent-network/OSHLDS/NET.c:812-1199` | The ring holds at every moment what its run of sends and gets leaves in that queue |
| Loopback.Ring.Put | ` world-opponent-network/OSHLDS/NET.c:1179-1199` | Sending appends and drops the oldest beyond four |
| Loopback.Ring.Take | ` world-opponent-network/OSHLDS/NET.c:812-847` | Getting returns the oldest that is left; the fatal error on too small a buffer |
| Loopback.Loopbacks.SendLoopPacket | ` world-opponent-network/OSHLDS/NET.c:1179-1199` | A send goes to the peer's ring and leaves the own one alone |
| Loopback.Loopbacks.GetLoopPacket | ` world-opponent-network/OSHLDS/NET.c:812-847` | A get reads the own ring and leaves the peer's alone |
| Zone.Zone.TagMalloc | ` world-opponent-network/OSHLDS/HUNK.c:772-829` | Fails exactly if no free block of the zone is as large as the rounded request; otherwise gives of the first fit behind the rover the space needed, or up to 64 bytes more, with the rest as a free block behind it; the free bytes fall by just that, and every other block is as it was |
| Zone.Zone.GiveFit | ` world-opponent-network/OSHLDS/HUNK.c:807-829` | The block found is split, tagged and entered as live, and the rover moves on to the block behind it |
| Zone.Zone.FindFit | ` world-opponent-network/OSHLDS/HUNK.c:785-808` | The scan, which stops at the rover's predecessor and steps past a block after an occupied one, ends and finds what a full next-fit scan finds |
| Zone.NextFitFails | ` world-opponent-network/OSHLDS/HUNK.c:785-808` | The next-fit scan fails exactly if no block fits |
| Zone.NextFitIs | ` world-opponent-network/OSHLDS/HUNK.c:785-808` | Otherwise it finds the first free block large enough from the rover on, around the ring |
| Zone.Zone.Free | ` world-opponent-network/OSHLDS/HUNK.c:707-744` | Frees a block and joins it with its free neighbours, in place, exactly if it is a live block of the zone; the free bytes rise by its size, the blocks in use lose just it, and the rover moves only off a block that vanishes, to the one that absorbed it; the fatal errors, also on a block absorbed earlier |
| Zone.Zone.Malloc | ` world-opponent-network/OSHLDS/HUNK.c:752-765` | Succeeds exactly if some free block fits, adds one live payload, and gives no more than 64 bytes beyond the space needed |
| Zone.Zone.constructor | ` world-opponent-network/OSHLDS/HUNK.c:684-699` | One free block, nothing live |
| Zone.Zone.CheckHeap | ` world-opponent-network/OSHLDS/HUNK.c:849-867` | The walk succeeds exactly if every block touches the next, links back, and is not free beside a free one |
| Zone.Zone.ValidIsSound | ` world-opponent-network/OSHLDS/HUNK.c:849-867` | It therefore succeeds in every state that allocation and freeing reach |
| Zone.NeedIff | ` world-opponent-network/OSHLDS/HUNK.c:785-787` | The space computed on 32 bits holds the request exactly if the sum does not wrap around |
| Zone.CarveKeepsTiled | ` world-opponent-network/OSHLDS/HUNK.c:813-829` | Allocation keeps the blocks tiling the zone and no two free ones adjacent |
| Zone.ReleaseKeepsTiled | ` world-opponent-network/OSHLDS/HUNK.c:718-743` | Freeing keeps both, which the stop of the scan rests on |
| Zone.CarveAccounts | ` world-opponent-network/OSHLDS/HUNK.c:813-829` | Allocation adds exactly one live payload of at least the requested size |
| Zone.CarveGives | ` world-opponent-network/OSHLDS/HUNK.c:807-829` | The space given is at least what is needed and at most 64 bytes more, any more becomes a free block of exactly the rest, and the free bytes fall by just the space given |
| Zone.ReleaseAccounts | ` world-opponent-network/OSHLDS/HUNK.c:718-743` | Freeing removes exactly one live payload |
| Zone.ReleaseFrees | ` world-opponent-network/OSHLDS/HUNK.c:718-743` | Freeing turns exactly the bytes of the block free, and leaves the blocks in use but that one as they are |
| Zone.MergeCovers | ` world-opponent-network/OSHLDS/HUNK.c:718-743` | A block that vanishes in a merge lies in the one that absorbed it |
| Zone.PayloadsDisjoint | ` world-opponent-network/OSHLDS/HUNK.c:772-829` | Live payloads with their trash markers lie in the zone and do not overlap |
| Zone.NothingLive | ` world-opponent-network/OSHLDS/HUNK.c:684-744` | With nothing live, the zone is one free block again |
| Zone.ReleaseUndoesCarve | ` world-opponent-network/OSHLDS/HUNK.c:707-829` | Freeing right after allocating restores the blocks |
| Cache.Hunk.CacheAlloc | ` world-opponent-network/OSHLDS/HUNK.c:361-395` | Ends; succeeds exactly if the user has no block, the size is not zero and the rounded request fits between the marks; the block has the rounded size, stands in the first gap, and is the latest used; exactly the least recently used blocks are evicted, no more than needed; the others stay in place with their bytes |
| Cache.Hunk.MakeRoom | ` world-opponent-network/OSHLDS/HUNK.c:377-393` | The loop: finds room exactly if the request fits, after the fewest evictions |
| Cache.PlacementKeeps | ` world-opponent-network/OSHLDS/HUNK.c:361-395` | After evictions and a placement the users left are those whose blocks are not among the least recently used, in their old places |
| BlockLists.RoomIff | ` world-opponent-network/OSHLDS/HUNK.c:377-393` | Some number of evictions makes room exactly if the request fits between the marks |
| BlockLists.EvictedKeeps | ` world-opponent-network/OSHLDS/HUNK.c:387-391` | Evictions take the blocks from the end of the use order one by one and keep the rest of the order |
| BlockLists.EvictedUsers | ` world-opponent-network/OSHLDS/HUNK.c:387-391` | A number of evictions takes a user its block exactly if that is among so many used least recently |
| BlockLists.LatestStays | ` world-opponent-network/OSHLDS/HUNK.c:387-391` | So the user whose block was touched last keeps it while another block is cached |
| Cache.Hunk.TryAlloc | ` world-opponent-network/OSHLDS/HUNK.c:404-475` | First fit from the bottom, with the unsigned comparisons; the fatal error exactly on an empty cache without room |
| BlockLists.FindGap | ` world-opponent-network/OSHLDS/HUNK.c:438-471` | The gap found is large enough and the first that is |
| Cache.Hunk.HunkAllocName | ` world-opponent-network/OSHLDS/HUNK.c:149-184` | Succeeds exactly if header and rounded request fit; a user loses its block exactly if that has nowhere to go when its turn to move comes, and none does where room is enough; users that keep a block keep their bytes, higher blocks stay in place, and the space is zeroed behind a header with sentinel, size and name |
| Cache.GuardIsExact | ` world-opponent-network/OSHLDS/HUNK.c:152-157` | The two guards refuse exactly the requests that do not fit, wrap-around included |
| Cache.Hunk.CacheFreeLow | ` world-opponent-network/OSHLDS/HUNK.c:606-620` | Ends, by moving the lowest block to the first gap above it that holds it, or dropping it where there is none, until every block is at or above the new mark; every surviving payload is carried along, and where room is enough no user is lost |
| MakingWay.FreeLowKeeps | ` world-opponent-network/OSHLDS/HUNK.c:606-620` | The blocks left are old ones, moved up or in place, and those at or above the mark are untouched |
| MakingWay.LostIff | ` world-opponent-network/OSHLDS/HUNK.c:606-620` | A user loses its block exactly if some moves lead to a state in which the block is the lowest, starts below the mark, and no gap above it holds it |
| MakingWay.FreeLowMakesWay | ` world-opponent-network/OSHLDS/HUNK.c:606-620` | The loop is a chain of such steps that ends with no block below the mark |
| MakingWay.MakesWayIs | ` world-opponent-network/OSHLDS/HUNK.c:542-561` | Each step is determined: by gaps and addresses it can only be the move |
| MakingWay.SpaciousKeepsAll | ` world-opponent-network/OSHLDS/HUNK.c:606-620` | Where the blocks below the mark fit behind the last block, or behind the mark with one block to spare, no user is lost |
| MakingWay.BounceDrops | ` world-opponent-network/OSHLDS/HUNK.c:542-620` | A block that fits between the marks can be lost all the same |
| MakingWay.MoveKeeps | ` world-opponent-network/OSHLDS/HUNK.c:542-561` | A move keeps the lists well formed and lowers the measure that makes the loop end |
| MakingWay.MoveLowers | ` world-opponent-network/OSHLDS/HUNK.c:542-561` | The lowest block goes strictly up or is dropped |
| Cache.Hunk.CacheMove | ` world-opponent-network/OSHLDS/HUNK.c:542-561` | The lowest block is copied with its payload to the first gap above that holds it and is the latest used, or is dropped exactly if there is none |
| Cache.MoveCarries | ` world-opponent-network/OSHLDS/HUNK.c:542-561` | The copy meets no other block, so every payload is carried along |
| Cache.Hunk.CacheFree | ` world-opponent-network/OSHLDS/HUNK.c:582-598` | The block leaves both lists and its user, the cache stays well formed, and the other users keep their blocks and bytes; the fatal error |
| Cache.Hunk.FreeBlock | ` world-opponent-network/OSHLDS/HUNK.c:582-598` | The same steps inside Cache_Move, where two blocks have one user for a moment |
| Cache.Hunk.WriteHeader | ` world-opponent-network/OSHLDS/HUNK.c:167-181` | The header is written below the mark, where no user sees it |
| Cache.HeaderReads | ` world-opponent-network/OSHLDS/HUNK.c:167-181` | The first word of a header reads as the sentinel, the second as the size, and the rest as the name, cut to 63 bytes and filled up with zeros |
| Cache.BlockSizeIff | ` world-opponent-network/OSHLDS/HUNK.c:372` | The size computed on 32 bits holds header and request exactly if the sum does not wrap around |
| BlockLists.RemoveKeeps | ` world-opponent-network/OSHLDS/HUNK.c:582-598` | Both lists keep holding the same blocks, without overlap, and users and blocks point at each other |
| BlockLists.PlaceKeeps | ` world-opponent-network/OSHLDS/HUNK.c:404-475` | So they do when a block is placed |
| BlockLists.TouchKeeps | ` world-opponent-network/OSHLDS/HUNK.c:519-533` | So they do when a block is touched |
| Cache.Hunk.CacheCheck | ` world-opponent-network/OSHLDS/HUNK.c:519-533` | The user's data pointer; its block becomes the latest used, the others keep their order of use, and nothing else changes |
| Cache.Hunk.CacheFlush | ` world-opponent-network/OSHLDS/HUNK.c:569-575` | Everything is freed |
| Cache.Hunk.EvictOne | ` world-opponent-network/OSHLDS/HUNK.c:387-391` | The least recently used block goes |
| Cache.Hunk.HunkFreeToLowMark | ` world-opponent-network/OSHLDS/HUNK.c:278-284` | The freed space is zeroed; the cache sees the same bytes; the fatal error |
| Cache.Hunk.MakeLRU | ` world-opponent-network/OSHLDS/HUNK.c:484-494` | The four link assignments put a block in front of the order of use; the fatal error exactly on a block already in it |
| Cache.Hunk.UnlinkLRU | ` world-opponent-network/OSHLDS/HUNK.c:501-511` | The link assignments take a block out of the order of use and leave the rest of it; the fatal error exactly on a block not in it |
| BlockLists.HomeIs | ` world-opponent-network/OSHLDS/HUNK.c:519-598` | Every user with data owns exactly one block, on both lists |
| Cache.CarriedPayload | ` world-opponent-network/OSHLDS/HUNK.c:542-620` | Where payloads are carried along every surviving user sees its old bytes |
| Links.LinkedFirst | ` world-opponent-network/OSHLDS/HUNK.c:484-494` | Linking a node in behind the head shows the list with that node in front, both ways |
| Links.LinkedOut | ` world-opponent-network/OSHLDS/HUNK.c:501-511` | Bypassing a node in both directions shows the list without it |
| Links.EndsAre | ` world-opponent-network/OSHLDS/HUNK.c:384-391` | The link back from the head is the least recently used block, or the head exactly of an empty list |
| MasterServer.ServerList.FindNodeByIP | ` world-opponent-network/OS MASTER/SrvrNtwk.cc:312-328` | Returns a server of that address and port exactly if one is listed under its hash |
| MasterServer.ServerList.FindNodeByHash | ` world-opponent-network/OS MASTER/SrvrNtwk.cc:335-350` | The first server of a hash, or NULL exactly if there is none |
| MasterServer.ServerList.CollideIff | ` world-opponent-network/OS MASTER/SrvrNtwk.cc:407-413` | Whatever the offset, two addresses collide exactly if their low fifteen address bits agree and so do the bits set in port or high address half |
| MasterServer.ServerList.AddNode | ` world-opponent-network/OS MASTER/SrvrNtwk.cc:217-255` | Links a node in at its place by hash; the list stays sorted and doubly linked |
| MasterServer.ServerList.DeleteNode | ` world-opponent-network/OS MASTER/SrvrNtwk.cc:262-291` | Unlinks a node, which goes to the front of the pool; where that held 750, exactly the 400 in front are freed; NULL is ignored |
| MasterServer.ServerList.NewNode | ` world-opponent-network/OS MASTER/SrvrNtwk.cc:132-166` | Takes a node from the pool, which grows by what memory allows when it is low; NULL exactly without nodes and memory |
| MasterServer.ServerList.FreeUnlinkedNode | ` world-opponent-network/OS MASTER/SrvrNtwk.cc:177-200` | The node goes to the front of the pool and the count rises by one; where that held 750, exactly the 400 in front are freed |
| MasterServer.PooledIs | ` world-opponent-network/OS MASTER/SrvrNtwk.cc:177-200` | What pooling a node does to the pool, by its size before |
| MasterServer.PooledAllCounts | ` world-opponent-network/OS MASTER/SrvrNtwk.cc:177-200` | Pooling many nodes loses only multiples of 400, and none while the pool stays within 750 |
| MasterServer.RemovalConserves | ` world-opponent-network/OS MASTER/SrvrNtwk.cc:6-27` | So taking servers off the list into the pool balances listed against spare nodes |
| MasterServer.ServerList.ServerTimeouts | ` world-opponent-network/OS MASTER/SrvrNtwk.cc:6-27` | Leaves exactly the servers at or after the cutoff in their old order and pools the others: listed and spare nodes together change only by multiples of 400, and not at all while the pool stays within 750 |
| MasterServer.PicksPartition | ` world-opponent-network/OS MASTER/SrvrNtwk.cc:6-27` | Timed-out and remaining servers together are all servers |
| MasterServer.PickIs | ` world-opponent-network/OS MASTER/SrvrNtwk.cc:6-27` | The servers picked are exactly those marked, in their old order |
| MasterServer.ServerList.FlushServers | ` world-opponent-network/OS MASTER/SrvrNtwk.cc:628-639` | Empties the list into the pool, with the same balance of nodes |
| MasterServer.InsertKeepsAscending | ` world-opponent-network/OS MASTER/SrvrNtwk.cc:228-253` | The place searched for keeps the hashes ascending |
| MasterServer.InsertIs | ` world-opponent-network/OS MASTER/SrvrNtwk.cc:228-253` | The place is in front of a higher first hash, and otherwise behind the first and all lower ones and in front of the rest |
| MasterServer.LinkedWith | ` world-opponent-network/OS MASTER/SrvrNtwk.cc:228-253` | Linking in keeps the links and the back links consistent |
| MasterServer.LinkedWithout | ` world-opponent-network/OS MASTER/SrvrNtwk.cc:266-286` | Linking out keeps the links and the back links consistent |
| MasterServer.ServerList.FindNodeofEqualorLesserHash | ` world-opponent-network/OS MASTER/SrvrNtwk.cc:361-385` | Where a page starts |
| MasterServer.ServerList.FillPacketBufferWithIPs | ` world-opponent-network/OS MASTER/SrvrNtwk.cc:431-484` | Writes exactly the entries of the page, nothing beyond, and returns the resume hash; an unfinished page leaves at most six bytes |
| MasterServer.ServerList.ListsCovered | ` world-opponent-network/OS MASTER/SrvrNtwk.cc:431-484` | On a valid list a client that resumes a listing until told to stop learns of a server exactly if it passes the filter and is covered |
| MasterServer.ServerList.PoolOne | ` world-opponent-network/OS MASTER/SrvrNtwk.cc:141-150` | One more node for the pool |
| MasterServer.OnlyModAndPlayersFilter | ` world-opponent-network/OS MASTER/SrvrNtwk.cc:493-545` | The mod, full and empty filters reject what they should; the others never reject |
| MasterServer.ServerList.PassesIff | ` world-opponent-network/OS MASTER/SrvrNtwk.cc:431-545` | A listed server passes a request exactly if its mod, and its being full or empty, are as asked |
| MasterServer.ServerList.constructor | ` world-opponent-network/OS MASTER/SrvrNtwk.cc:40-50` | An empty list and an empty pool |
| Paging.ListingReports | ` world-opponent-network/OS MASTER/SrvrNtwk.cc:431-484` | Resumed from hash 0 until 0 comes back, the pages report a server if and only if it matches and its rank within its hash is below the page capacity, or it is the one before a later start |
| Paging.SmallClassesAreComplete | ` world-opponent-network/OS MASTER/SrvrNtwk.cc:431-484` | Every matching server is reported where no hash has more servers than a page |
| Paging.HiddenIff | ` world-opponent-network/OS MASTER/SrvrNtwk.cc:431-484` | A matching server is left out of a whole listing exactly if its class fills a page before it and the next entry has its hash or the one after |
| Paging.CollisionsHideAServer | ` world-opponent-network/OS MASTER/SrvrNtwk.cc:467-478` | Of the servers of one hash beyond those that fill a page, all but the last are left out of every listing |
| Paging.ResumeBits | ` world-opponent-network/OS MASTER/SrvrNtwk.cc:426-478` | The resume hash has 31 bits, but for a page for the highest hash of all that leaves the listing unfinished |
| Paging.FitsIff | ` world-opponent-network/OS MASTER/SrvrNtwk.cc:441-460` | The pages of every list fit the buffer exactly if it has at least six bytes |
| Paging.PageProgress | ` world-opponent-network/OS MASTER/SrvrNtwk.cc:431-484` | An unfinished page is full, and its resume hash is greater than the one passed in and bounded: paging ends even with unlimited collisions |
| Paging.UnfinishedIsFull | ` world-opponent-network/OS MASTER/SrvrNtwk.cc:441-460` | An unfinished page leaves at most six bytes of the buffer |
| Paging.NoRoomNoProgress | ` world-opponent-network/OS MASTER/SrvrNtwk.cc:451-478` | With a buffer of six bytes it does not |
| Paging.ReportedFrom | ` world-opponent-network/OS MASTER/SrvrNtwk.cc:431-484` | The same from any hash |
| Paging.PageRank | ` world-opponent-network/OS MASTER/SrvrNtwk.cc:361-385` | Which servers of its first hash a page reports |
| Paging.StartIs | ` world-opponent-network/OS MASTER/SrvrNtwk.cc:361-385` | Where a page starts relative to its hash |
| Paging.StopIs | ` world-opponent-network/OS MASTER/SrvrNtwk.cc:441-462` | Where a page stops |
| Paging.DecodeEncode | ` world-opponent-network/OS MASTER/SrvrNtwk.cc:453-456` | The reply bytes determine the addresses and ports, in order |
| Paging.LittleEndian | ` world-opponent-network/OS MASTER/SrvrNtwk.cc:453-456` | Addresses and ports are little endian |
| SoundLookup.LookupRefinesLinear | ` world-opponent-network/OSHLDS/SV_mcast.c:137-217` | The hashed lookup agrees with the linear scan on every name exactly if entry 0 of the precache array is set or entry 1 is not |
| SoundLookup.LookupAgrees | ` world-opponent-network/OSHLDS/SV_mcast.c:183-217` | It does so for case variants, absent names and duplicates |
| SoundLookup.LookupFindsLeast | ` world-opponent-network/OSHLDS/SV_mcast.c:204-216` | It finds the least index of the name in the part of the array that was entered |
| SoundLookup.ProbingFindsLeast | ` world-opponent-network/OSHLDS/SV_mcast.c:204-216` | So does the probe from any point up to the answer |
| SoundLookup.InsertKeepsChains | ` world-opponent-network/OSHLDS/SV_mcast.c:150-167` | An insertion leaves no empty slot between a name's hash and its place, and changes one slot |
| SoundLookup.BuildSucceeds | ` world-opponent-network/OSHLDS/SV_mcast.c:168-182` | Building never meets the fatal error |
| SoundLookup.BuildLeavesHalfEmpty | ` world-opponent-network/OSHLDS/SV_mcast.c:168-182` | It leaves at least 512 of 1023 slots empty, so every probe ends |
| SoundLookup.HashIgnoresCase | ` world-opponent-network/OSHLDS/SV_mcast.c:137-149` | Names that differ in case hash alike |
| SoundLookup.SameNameIs | ` world-opponent-network/OSHLDS/SV_mcast.c:183-217` | Two names are the same exactly if they are equally long and differ at most by the case of letters A to Z |
| SoundLookup.HashIs | ` world-opponent-network/OSHLDS/SV_mcast.c:137-149` | The hash is the sum of the lower-case bytes times 0x01010101, wrapped at 32 bits, modulo 1023 |
| SoundLookup.SpreadIs | ` world-opponent-network/OSHLDS/SV_mcast.c:137-149` | The disjunction of the four shifted copies of a byte is its product with 0x01010101 |
| SoundLookup.SoundServer.HashString | ` world-opponent-network/OSHLDS/SV_mcast.c:137-149` | The wrapping 32-bit accumulation |
| SoundLookup.SoundServer.AddSampleToHashedLookupTable | ` world-opponent-network/OSHLDS/SV_mcast.c:150-167` | Fills the first empty slot from the hash on, or fails exactly if none is |
| SoundLookup.SoundServer.BuildHashedSoundLookupTable | ` world-opponent-network/OSHLDS/SV_mcast.c:168-182` | The table of the precache array up to its first gap |
| SoundLookup.SoundServer.LookupSoundIndex | ` world-opponent-network/OSHLDS/SV_mcast.c:183-217` | The scan while loading, the table afterwards, the same answer with entry 0 set |
| SoundLookup.SoundServer.PrecacheLoading | ` world-opponent-network/OSHLDS/pf.c:1380-1396` | While loading the name goes into the first NULL entry, if none before is equal, and is found there |
| SoundLookup.SoundServer.FindPrecached | ` world-opponent-network/OSHLDS/pf.c:1398-1407` | Afterwards the least index of an equal entry |
| SoundLookup.SoundServer.PrecacheSound | ` world-opponent-network/OSHLDS/pf.c:1371-1410` | The index of a name, old or new, under which the lookups then find it unless it is 0, which it is exactly if entry 0 is NULL or the name; other answers stay |
| SoundLookup.PrecachedIsFound | ` world-opponent-network/OSHLDS/pf.c:1371-1410` | The same of any precache array |

## Left out

- Channel.ExactlyOnce: sequence numbers stay below 2^30, message fragments are under 1200 bytes, and a write to a message is no longer than its buffer, because the header word, the fragment limit and the memory behind the buffer break the protocol beyond (`HeaderIff`, `StuckSends`, `StaysInsideIff`); bytes sent in place of a wiped packet are not new to the receiver; what else they may be is said in `WipedIff`.
- Channel.DeliveredIsPrefix: besides, a fragmented message has at most 65536 bytes and 25000 fragments, because others are wiped or refused by the receiver (`RoundTrip`).
- Misreading.WipedIff: what munging makes of the content is not modelled, so a reading may have any content of its length, and the flag of the file stream with its fragment is not a reading; in the continuation, further bytes sent in place of packets are dropped.
- Recovery.EverythingArrives: no transmission wipes its packet, because a wiped packet does not arrive.
- Netchan.Netchan.Process: a packet is a record with its munging undone, a normal fragment stands at offset 0 as the sender puts it, and what is left of a packet behind a normal fragment is its header of eighteen bytes and the unreliable part, so that the final length test always passes.
- Netchan.Netchan.Pack: the padding of a short packet to sixteen bytes is not modelled.
- Netchan.Netchan.CheckForCompletion: the retry command is a number returned, and the multicast listener of a client, which stops at the first gap, is not modelled.
- The address list of the cache and the fragment lists of a channel are sequence fields that the methods reassign; the links below them are modelled for the zone, the server list and the order of use, for the last as maps by address.
- Cache.Hunk.TryAlloc: the header of a cache block is zeroed as bytes, and its fields are kept beside them.
- Zone.Zone.Free: the header of an absorbed block is taken to be as the merge left it, although a later payload may have overwritten it.
- Zone.Zone.TagMalloc: block contents, the trash marker behind each payload and the zeroing in Z_Malloc are not modelled; the room for the marker is.
- Cache.Hunk.CacheAlloc: requests so large that rounding them up wraps around 32 bits are left out, as they are for Zone.Zone.TagMalloc and Zone.Zone.Malloc, because the block is then smaller than the request (`BlockSizeIff`, `NeedIff`).
- MasterServer.ServerList.FillPacketBufferWithIPs: the buffer has at least six bytes, because with fewer the writes run past it (`FitsIff`).
- High-hunk allocation, Cache_FreeHigh, Hunk_Check and temporary allocation: the high mark is constant.
- MasterServer.ServerList.NewNode: a failing malloc shows as fewer nodes granted; the other malloc failures are not modelled.
- MasterServer.ServerList.HashServerIP: the random offset is a parameter of the list.
- Sockets, threads, mutexes, console output, clocks and cvars: each locked method is one step, and the cutoff of ServerTimeouts is a parameter.
- UDP split packets, the file fragment stream, out-of-band packets and bandwidth control.
- MSG_ReadLong and the other message functions, munging, and the wrap-around of the loopback counters.
- Names of sounds are byte strings without their terminator, and case folding is that of the C locale.
