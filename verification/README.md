# A verified model of the RON overlay node and its client transport

The repository is a client of a network emulator. `user/sm.cpp` is an overlay node: it pings a list of
servers through its gateway, keeps a round-trip time and a loss rate for each, learns one-hop detours
from the advertisements of its peers, and relays DSA and LSA packets of its peers through a
port-rewriting NAT. `base/cf.cpp` carries the node's frames over one socket: length-prefixed messages, a
loop around partial transfers, and a mutex shared by two threads.

This project states in Dafny what that code does and proves what it keeps. Where the C++ updates a
buffer, a table or a field, a method does the same and is tied to a function; the theorems are about the
functions, over every input, every run or every interleaving.

How the modules build on each other:

- `Bytes`, `Ports`, `Checksum`, `Address`, `Frames`, `Builders`: byte order, the port range, the two checksum routines against
  the ones-complement sum of section 1 of RFC 1071, the address printer and the two parsers, frame
  layout, the validator, the builders and the relay rewrites.
- `Learning`, `Destination`, `Advert`: one learning cell fed by offers; one entry of the server table fed
  by its events; the advertisement payload.
- `Overlay`, `Tables`, `Runs`: the whole node as a value with one step function, the invariant every step
  keeps, and the theorem that each table entry of the node is the destination machine run on the events
  addressed to it. This carries the per-destination theorems to the node.
- `RonNode`: the node as a class with the source's array and maps, every method tied to that step.
- `Discovery`: what an advertisement does to the server table, known and new servers alike.
- `Relay`, `Sending`, `Probing`, `Gossip`: theorems over several parties, stated on table fields and frame
  bytes: a relayed probe and its answer, the route of a probe and the direct answer, a ping and its echo,
  an advertisement and its reader.
- `NatThreads`, `Allocation`, `SendThreads`: interleavings of the threads, one statement or one socket
  call a step.
- `Wire`, `Transport`: message formats and their readers, and the socket loops in their imperative form.

`dafny verify dfyconfig.toml` checks the whole project.

## Where the code departs from its intent

The model follows the code; each of these is part of a theorem.

- `check_sum_ip` folds the carry once. The result is the RFC 1071 checksum exactly when quotient plus
  remainder of the word sum is below 65536, and is one too large otherwise (`Checksum.SingleFoldError`); a
  stamped header passes its own check under the same condition (`Checksum.StampVerifies`). So a node
  builds frames that its own validator refuses: a probe from 192.168.1.10 to 213.233.228.49 is one
  (`Frames.SingleFoldWitness`). For an option-free frame the condition depends on its length and two
  addresses only. A relayed probe comes back if and only if two address pairs pass, the sender with the
  server and the relaying peer with the server; otherwise the peer drops the probe or the answer
  (`Relay.RelayRoundTrip`).
- The advertised loss rate is computed before the counters are converted from wire order. It is the
  advertiser's own exactly when the byte pairs of the counters are proportional, in particular when both
  counters are below 256 (`Advert.SwappedLossExact`). After 255 answered pings and one open one, a loss of
  1/256 is received as -65279 (`Advert.SwappedLossWitness`).
- A reply is matched by number alone: a repeated reply is counted again (`Destination.DuplicateCounted`),
  and the probe numbered 65535 can never be answered (`Destination.LastNumberUnmatched`). The accounting
  identity therefore has a term for duplicates, and the order of the counters holds exactly when
  duplicates do not outnumber unanswered probes.
- A server discovered from an advertisement never enters `ip_to_id`; a `dsa` or `lsa` to it takes the
  route of entry 0 (`Tables.LookupExact`, `Tables.SendIsEnabled`).
- `sent_times[src_port - 1]` is written after the unlock. The key is the port used exactly when no other
  allocation was completed in between (`NatThreads.SentTimeKey`, `NatThreads.SentTimeWitness`).
- A send call that fails with part of its message written leaves a fragment, and later messages follow
  it. The wire is whole messages and the holder's prefix if and only if no failing call had written a byte
  (`SendThreads.WireIsWholeMessages`). The reader still recovers everything while nothing is written
  behind a fragment (`SendThreads.ReaderRecovers`); a message behind one can be lost
  (`SendThreads.ErrorBreaksFraming`), though one that repeats the fragment is not
  (`SendThreads.LuckyFragment`).
- A gateway hop keeps the old round-trip time after the direct path is declared down until a reset or an
  accepted reply (`Destination.GatewayCarriesDirect`).
- The second length test of `is_valid_packet` adds the Ethernet header twice (28 bytes, not 34), so the
  header checks may read past a short frame; the validator is modelled on the receive buffer.
- The reply flag starts at zero, so the first `ping` already counts one unanswered probe for a server that was
  never probed.

## Model

| member | source | states |
|---|---|---|
| Checksum.CheckSumIcmp | user/sm.cpp:605-620 | the loop and its two folds return the RFC 1071 checksum of the twelve bytes |
| Checksum.FoldTwiceIsRfc1071 | user/sm.cpp:615-619 | two folds give the ones-complement checksum of every word string whose sum fits 32 bits |
| Checksum.ByteOrderIndependence | user/sm.cpp:605-620 | swapping the bytes of every word swaps the bytes of the checksum, RFC 1071 section 2 (B) |
| Checksum.NativeStoreIsWireOrder | user/sm.cpp:605-620 | little-endian loads and a little-endian store leave the bytes of a big-endian computation |
| Checksum.StampedSumIsOnes | user/sm.cpp:665-666 | a string whose zeroed field receives the checksum sums to all ones, which is how a receiver verifies it |
| Checksum.CheckSumIp | user/sm.cpp:591-600 | the loop returns the complement of the once-folded word sum for every header length |
| Checksum.SingleFoldError | user/sm.cpp:597-599 | equal to the RFC 1071 checksum if and only if the single fold absorbs every carry, one larger otherwise |
| Checksum.WordSumSplice | user/sm.cpp:593-596 | overwriting words changes the sum by exactly the difference of the words |
| Checksum.StampVerifies | user/sm.cpp:652-653 | zero, stamp, check again gives 0 if and only if quotient plus remainder is below 65536 |
| Checksum.SingleByteDetected | user/sm.cpp:300 | of two headers that differ in one byte at most one passes the check |
| Address.IpIntoUint | user/sm.cpp:812-828 | the scan over any string, in 32-bit arithmetic, returns the specified value |
| Address.ParseJoin | user/sm.cpp:812-828 | four dot-separated groups of at most three digits and at most 255 give their big-endian number |
| Address.DecimalPart | user/sm.cpp:839-842 | the digit loop prints canonical decimal |
| Address.IpUintIntoStr | user/sm.cpp:833-847 | the two nested loops produce the specified text for every 32-bit address |
| Address.ParsePrint | user/sm.cpp:812-847 | parsing a printed address gives it back, for all 32-bit addresses |
| Address.PrintCanonical | user/sm.cpp:833-847 | the printed form is canonical dotted decimal if and only if the first octet is non-zero |
| Address.PrintParse | user/sm.cpp:812-847 | printing the parse of a canonical string with non-zero first octet gives the string back |
| Address.FindDot | base/cf.cpp:858 | the position of the first dot, or none |
| Address.ParseGroup | base/cf.cpp:866-872 | a group is read if and only if it is all digits, with its decimal value |
| Address.ParseIP | base/cf.cpp:850-885 | accepts exactly four groups; the result variable is written whenever the first four groups are good, even if text follows; the argument gains a dot |
| Address.AcceptedAreJoins | base/cf.cpp:850-885 | the accepted strings are exactly the joins of four groups of 0 to 3 digits, each at most 255 |
| Address.ParsersAgree | base/cf.cpp:850-885 | on every accepted string the two parsers give the same address |
| Address.PrintedIsAccepted | base/cf.cpp:850-885 | every printed address is accepted with the value that was printed |
| Frames.IsValidPacket | user/sm.cpp:285-319 | accepts exactly the valid frames: type, lengths, version, single-fold checksum, protocol, echo fields |
| Frames.TamperedIsRefused | user/sm.cpp:285-319 | a change of one byte of the type, the header, the UDP length, or the type, code or cookie of an echo makes an accepted frame refused |
| Frames.WrongVersionOrLength | user/sm.cpp:296-299 | so does another version or another length |
| Frames.AcceptedSizes | user/sm.cpp:302-313 | only UDP and ICMP are accepted, no shorter than 42 and 46 bytes |
| Frames.AcceptedUdp | user/sm.cpp:285-319 | acceptance of a UDP frame depends on its own bytes only, whatever else the receive buffer holds |
| Frames.HeaderFields | user/sm.cpp:625-654 | the fields of a built header read back, and it passes the check exactly when its sum builds cleanly |
| Frames.UdpFrameFields | user/sm.cpp:714-743 | every field of a built UDP frame reads back; the three length fields agree |
| Frames.BuiltIsValid | user/sm.cpp:714-743 | a built frame with sizes within 16 bits is accepted if and only if its length and two addresses give a header sum that folds cleanly |
| Frames.SingleFoldWitness | user/sm.cpp:597-599 | the probe from 192.168.1.10 to 213.233.228.49 has word sum 0x1FFFF, a checksum one too large, and is refused as built |
| Frames.RelayOutFields | user/sm.cpp:150-172 | the outward rewrite sets MACs, source address and source port, and keeps every other byte but the checksum |
| Frames.RelayBackFields | user/sm.cpp:183-197 | the inward rewrite sets MACs, destination address and destination port, and keeps every other byte but the checksum |
| Frames.RelayOutIsValid | user/sm.cpp:158-172 | the outward rewrite of an accepted UDP frame is accepted if and only if that frame's header, with the new address and port written into it, folds cleanly; whatever the header length |
| Frames.RelayBackIsValid | user/sm.cpp:185-197 | the same for the inward rewrite |
| Frames.PlainOut | user/sm.cpp:158-172 | for an option-free header the outward rewrite leaves the header of the new source address, and its condition is on that address and the destination alone |
| Frames.PlainBack | user/sm.cpp:185-197 | the same for the new destination address of the inward rewrite |
| Frames.CleanBothWays | user/sm.cpp:591-600 | whether a header folds cleanly does not depend on which of its two addresses sends |
| Frames.SwapReplyIsValid | user/sm.cpp:285-319 | a server's answer with addresses and ports exchanged is accepted exactly when the request was |
| Builders.WriteIpHeader | user/sm.cpp:625-654 | the buffer holds the stamped header at its offset and is otherwise unchanged |
| Builders.BuildUdp | user/sm.cpp:714-743 | the buffer built piece by piece is the specified UDP frame |
| Builders.BuildPing | user/sm.cpp:684-712 | the buffer built piece by piece is the specified echo request |
| Builders.WriteIcmp | user/sm.cpp:659-667 | the buffer holds the echo header with its checksum |
| Builders.RestampInPlace | user/sm.cpp:170-171 | zeroing and stamping in place changes the two checksum bytes only |
| Builders.RewriteOut | user/sm.cpp:150-172 | the private copy becomes the outward rewrite and the received frame is untouched |
| Builders.RewriteBack | user/sm.cpp:185-197 | the private copy becomes the inward rewrite and the received frame is untouched |
| Learning.RouteOptimality | user/sm.cpp:517-526 | while nobody raises an earlier offer, the stored cost is the minimum of the starting cost and all offers and the stored hop the first to reach it |
| Learning.FirstCheapestUnique | user/sm.cpp:517-526 | that first cheapest offer is unique, so hop and cost are determined |
| Learning.OverpricedMeansRaise | user/sm.cpp:517-526 | a stored cost above an offer once made implies that the hop then stored raised its offer later |
| Learning.NeverNaN | user/sm.cpp:517-526 | without NaN offers the stored cost is never NaN |
| Learning.NaNSticks | user/sm.cpp:517-526 | a stored hop whose offer is NaN (zero over zero: both advertised counters wrapped to 0, or a foreign sender) keeps the cell against every other neighbour |
| Learning.NothingSentOffers | user/sm.cpp:466-522 | an offer with zero probes sent: NaN is taken from the incumbent only, minus infinity beats every finite cost and is beaten by none |
| Learning.Provenance | user/sm.cpp:517-526 | the stored cost is the stored hop's own latest offer, over every stream of offers |
| Destination.DownDetection | user/sm.cpp:429-448 | in every run maximal RTT if and only if never answered or four ping commands since the last accepted reply, that is three checks that found the last probe unanswered; loss is then 1 |
| Destination.CountersTrackHistory | user/sm.cpp:429-448 | in every run the 16-bit counters are the history's counts modulo 65536, and the loss rate of an up server is their quotient |
| Destination.Balance | user/sm.cpp:429-448 | countable probes plus duplicate replies equal accepted replies plus unanswered probes |
| Destination.QuarterAnswered | user/sm.cpp:429-448 | in every run, because of down detection, the counted probes are at most four times the accepted replies |
| Destination.ProbeAccounting | user/sm.cpp:429-448 | without wrap, sent minus received is unanswered minus duplicates and sent is at most four times received; an up server's loss is 1 - received/sent, at most 3/4, and not negative exactly as long as duplicates do not outnumber unanswered probes |
| Destination.ThreeQuartersLost | user/sm.cpp:533-543 | a run that reaches the bound: up, four sent, one received |
| Destination.DuplicateCounted | user/sm.cpp:431 | a run in which a repeated reply is counted twice and received exceeds sent |
| Destination.LastNumberUnmatched | user/sm.cpp:431 | a server whose last probe was numbered 65535 accepts no reply at all |
| Destination.SmoothingBound | user/sm.cpp:432-439 | the stored RTT lies in (E - 1, E] for the exact halving average E of the samples since the path came up, and within any bounds of the samples |
| Destination.LearnsBothCells | user/sm.cpp:509-528 | RTT and loss are learned independently, each by the same cell rule |
| Destination.TablesFollowEpochs | user/sm.cpp:373-382 | in every run both learning cells are what the offers since the last reset make of the reset value |
| Destination.LearnedRoutesAreOptimal | user/sm.cpp:509-528 | over any history, and for RTT and loss separately: while nobody raised that offer since the reset, the stored cost is minimal and the hop the first to offer it |
| Destination.OverpricedRoutesWereRaised | user/sm.cpp:509-528 | over any history a route dearer than an offer made since the reset was raised after it by the hop then stored; for loss, as long as no offer was NaN |
| Destination.GatewayCarriesDirect | user/sm.cpp:672-682 | a gateway loss hop always carries the direct loss; a gateway RTT hop carries the direct RTT if and only if the path was not declared down since |
| Destination.PeerCarriesLatestOffer | user/sm.cpp:509-528 | a stored hop other than the gateway has offered in this epoch and the stored cost is its latest offer |
| Destination.ActiveOnceRouted | user/sm.cpp:516 | the learning table is marked active exactly once an offer or an accepted reply has arrived |
| Destination.ForwardingIsLastSnap | user/sm.cpp:361-368 | over any history the forwarding hops are what the learning hops were at the last snapshot |
| Destination.ForwardingUntilSnap | user/sm.cpp:361-368 | without a snapshot the forwarding table is what it was |
| Advert.AdvertRoundTrip | user/sm.cpp:397-482 | decoding an encoded table yields exactly the servers that are up, in order, with address, RTT and counters; the loop stops at the trailer |
| Advert.RecordCountExact | user/sm.cpp:454 | the decoding loop has iteration k exactly when 12k is below the size less four |
| Advert.RttIsCut | user/sm.cpp:468-470 | a received RTT keeps its low 16 bits |
| Advert.UpServersExact | user/sm.cpp:401 | a server is advertised if and only if it is configured and up |
| Advert.SwappedLossExact | user/sm.cpp:466-472 | the receiver's loss is the advertiser's if and only if the counters' byte pairs are proportional, so whenever both are below 256 |
| Advert.SwappedLossWitness | user/sm.cpp:466-472 | a run after which 255 of 256 probes are answered, the stored loss is 1/256, and receivers learn 1 - 65280 |
| Overlay.Find | user/sm.cpp:486-493 | the first entry with the address, or -1 if there is none |
| Tables.IdMapExact | user/sm.cpp:572-574 | for distinct servers the id map sends each address to its index and holds no other key |
| Tables.StartWellFormed | user/sm.cpp:79-97 | the initialized node is well-formed, with the given gateway and interfaces, port counter 8000 and empty maps |
| Tables.LearnAtKeeps | user/sm.cpp:509-528 | learning keeps addresses distinct, names spelling their integers, and adds at most the peer to the hops in use |
| Tables.ProcessKeeps | user/sm.cpp:122-226 | every frame keeps the node well-formed |
| Tables.ActKeeps | user/sm.cpp:228-268 | every command and every frame keeps the node well-formed |
| Tables.LookupExact | user/sm.cpp:486-493 | the id map agrees with the linear scan exactly on configured entries and entry 0 |
| Tables.SendIsEnabled | user/sm.cpp:745-759 | in a well-formed node the next hop of any known name is the gateway or has a stored MAC |
| Runs.ActEntry | user/sm.cpp:122-268 | one step of the node is, for each entry, the run of that entry's own events |
| Runs.AlwaysWellFormed | user/sm.cpp:228-268 | every state of every run from a well-formed node is well-formed, with the same setup |
| Runs.EntriesAreDestinations | user/sm.cpp:122-268 | in every run each entry is exactly the destination machine run on the events addressed to it |
| Runs.ConfiguredServers | user/sm.cpp:228-268 | in every run from initialization each configured server satisfies down detection, exact accounting until a wrap, smoothing, and for both costs optimality without raises, overpriced means raised, provenance, and forwarding as of the last snapshot |
| Discovery.NewIpsExact | user/sm.cpp:511-515 | the addresses added are exactly those advertised and not in the table, each once |
| Discovery.NewIpsInOrder | user/sm.cpp:495-504 | and stand in order of first mention |
| Discovery.RecordsTeach | user/sm.cpp:453-484 | after any records the table is the old servers, then the new ones; each has learned exactly the records that name it, in both cells, and nothing else of it has changed |
| Discovery.AdvertTeaches | user/sm.cpp:453-484 | the same for a frame: new servers are down, never probed, with loss 1 and no hop before their first offer; the sender's MAC is stored and nothing is sent |
| Discovery.DiscoveredBy | user/sm.cpp:495-504 | only an advertisement adds an entry, and its address was not in the table |
| Discovery.DiscoveredServers | user/sm.cpp:228-268 | in every run an entry discovered on the way is the destination machine run on its own events: never probed, down for ever, routes as offered and forwarded as of the last snapshot |
| RonNode.SimulatedMachine.constructor | user/sm.cpp:79-97 | the initialized object is the specified start state |
| RonNode.SimulatedMachine.InitializeServerInformation | user/sm.cpp:560-581 | one slot becomes a fresh entry, the id map gains its address, nothing else changes |
| RonNode.SimulatedMachine.GetIndexByIp | user/sm.cpp:486-493 | the scan returns the first index with the address |
| RonNode.SimulatedMachine.InsertIntoServerInfoes | user/sm.cpp:495-504 | the table gains one discovered entry at its end |
| RonNode.SimulatedMachine.UpdateLearningTable | user/sm.cpp:509-528 | look-up, insertion and the two comparisons perform one learning step of the table (its meaning: Discovery.RecordsTeach) |
| RonNode.SimulatedMachine.ReceivePingPacket | user/sm.cpp:429-448 | the loop over configured servers performs the echo step |
| RonNode.SimulatedMachine.ReceiveAdvertiseData | user/sm.cpp:453-484 | the loop over the payload performs the advertisement step and stores the MAC (its meaning: Discovery.AdvertTeaches) |
| RonNode.SimulatedMachine.CheckConnectionsIsAlive | user/sm.cpp:533-543 | every configured entry is checked, nothing else changes |
| RonNode.SimulatedMachine.UpdateServerInformation | user/sm.cpp:672-682 | one entry counts its probe, nothing else changes |
| RonNode.SimulatedMachine.SendIcmpPacket | user/sm.cpp:684-712 | one echo request goes out with the number the entry had before it is raised |
| RonNode.SimulatedMachine.Ping | user/sm.cpp:233-238 | the new state and the frames sent are those of the ping step (their meaning: Probing.PingAsksEachServer) |
| RonNode.SimulatedMachine.FillForwardingTable | user/sm.cpp:361-368 | every entry takes its snapshot (its meaning: Destination.ForwardingIsLastSnap, Sending.RoutesOfLastAdvertise) |
| RonNode.SimulatedMachine.ResetLearningTable | user/sm.cpp:373-382 | every entry's learning table returns to the direct path |
| RonNode.SimulatedMachine.EncodeUpServers | user/sm.cpp:397-416 | the bytes written are the encoded table |
| RonNode.SimulatedMachine.AdvertiseData | user/sm.cpp:397-422 | one broadcast of the encoded table, state unchanged |
| RonNode.SimulatedMachine.Advertise | user/sm.cpp:244-248 | the new state and the frame sent are those of the advertise step |
| RonNode.SimulatedMachine.IsServerValid | user/sm.cpp:277-283 | true if and only if some entry has the name |
| RonNode.SimulatedMachine.SendUdpPacket | user/sm.cpp:761-807 | one probe frame to gateway or peer, one port used (its meaning: Sending.ProbeLeavesBy) |
| RonNode.SimulatedMachine.Send | user/sm.cpp:255-266 | the new state and the frame sent are those of the send step, the id map entry included (its meaning: Sending.ProbesAreRouted) |
| RonNode.SimulatedMachine.RelayOutwards | user/sm.cpp:149-180 | one port is allocated and recorded and the rewritten request leaves on interface 1 |
| RonNode.SimulatedMachine.RelayInwards | user/sm.cpp:181-208 | the rewritten reply leaves on interface 0, state unchanged |
| RonNode.SimulatedMachine.ProcessFrame | user/sm.cpp:122-226 | for every buffer content the new state and the frames sent are those of the frame step |
| Relay.PortsPersist | user/sm.cpp:162-167 | while ports last, no run forgets or redirects an allocated port |
| Relay.ProbeReachesServer | user/sm.cpp:151-180 | the peer relays the probe exactly when sender and server addresses sum cleanly, from its outside address and a fresh port; the request is accepted exactly when that address and the server's sum cleanly too |
| Relay.AnswerReachesSender | user/sm.cpp:181-219 | the peer returns an answer to the sender's address and port exactly when it is accepted, and the sender takes it for its own exactly when server and sender addresses sum cleanly |
| Relay.RelayRoundTrip | user/sm.cpp:151-219 | over three parties and for any earlier and any intervening history of both nodes: the probe comes back to the sender's address and port and is taken for its own reply if and only if two address pairs sum cleanly, and who drops what otherwise |
| Relay.PeerRemembers | user/sm.cpp:162-167 | a relayed port maps to its requester in every later state |
| Relay.SenderRemembers | user/sm.cpp:783-787 | a port a node used itself is never in its relay map afterwards |
| Relay.FramesAreEnabled | user/sm.cpp:122-226 | every frame that fits the buffer can be processed, except exactly: a missing delay, an advertisement that over-reads or overflows the table, a relayed reply without a stored MAC |
| Sending.ProbeLeavesBy | user/sm.cpp:761-807 | the bytes and the interface of a probe by hop: gateway MAC and outside address, or the peer's stored MAC and inside address; port, service, destination and cookie; accepted if and only if its addresses sum cleanly |
| Sending.ProbesAreRouted | user/sm.cpp:745-759 | `dsa` to a known name sends one probe by the forwarding RTT hop to service 1000, `lsa` by the forwarding loss hop to 2000, a discovered name by entry 0's; one port is used up and the id map gains the looked-up entry |
| Sending.UnknownNameIsIgnored | user/sm.cpp:277-283 | any other name changes and sends nothing |
| Sending.DirectRoundTrip | user/sm.cpp:761-807 | a probe through the gateway is answered to the outside address and its own port, and every later state takes the answer for its own reply if and only if the outside address and the server's sum cleanly |
| Sending.AdvertiseWritesRoutes | user/sm.cpp:244-248 | `advertise` makes the hops learned so far the forwarding hops, then resets both learning cells to the gateway with the direct costs, and changes nothing else |
| Sending.RoutesOfLastAdvertise | user/sm.cpp:361-368 | over any run the forwarding hops are the learning hops at the last `advertise` |
| Sending.ProbesTakeLearnedRoutes | user/sm.cpp:228-268 | in every run from initialization a `dsa` (`lsa`) after the last `advertise` leaves by the hop its RTT (loss) epoch ended with; without raises that is the first to offer the least cost |
| Probing.EchoFrameFields | user/sm.cpp:684-712 | every field of an echo request reads back |
| Probing.PingAsksEachServer | user/sm.cpp:233-238 | `ping` sends exactly one echo request to each configured server, in order, on interface 1 through the gateway, with the number the entry has then, the cookie and a verifying checksum |
| Probing.EchoAccepted | user/sm.cpp:285-319 | an answer to a request is read as a reply of the probed address with the request's number if and only if it is of type 0, code 0, carries the cookie, and its addresses sum cleanly; otherwise it is ignored |
| Probing.RequestsAreIgnored | user/sm.cpp:314 | a node ignores echo requests |
| Probing.EchoIsCounted | user/sm.cpp:429-448 | an echo with the number before the entry's own changes that entry alone, and nothing if the number was 65535 |
| Probing.IcmpVerifies | user/sm.cpp:659-667 | every echo header sums to all ones |
| Probing.PingRoundTrip | user/sm.cpp:429-448 | over any run from a `ping` on without another, the echo of the i-th frame it sent is counted for entry i alone if and only if its addresses sum cleanly and its number was not 65535; otherwise nothing changes |
| Gossip.AdvertLeaves | user/sm.cpp:397-422 | `advertise` broadcasts one frame on interface 0, from and to port 5000, with the encoded table; accepted if and only if its header is clean |
| Gossip.AdvertKind | user/sm.cpp:146-148 | a broadcast that fits the receive buffer is read as the sender's address, MAC and table if and only if its header is clean |
| Gossip.AdvertDelivered | user/sm.cpp:453-484 | a receiver with room learns exactly the sender's up servers in order, old and new (Discovery), with the sender as next hop, stores its MAC and sends nothing |
| Gossip.ToldLossIsTrue | user/sm.cpp:466-472 | for exact counters the loss a receiver learns is the sender's stored loss if and only if the byte pairs are proportional |
| Gossip.EmittedIsSendable | base/cf.cpp:706-711 | no frame that a command or a received frame makes the node send is refused for its size, and each goes to one of its two interfaces |
| Gossip.AdvertiserHasMac | user/sm.cpp:387-392 | a peer that ever took in an advertisement of a node keeps a MAC for it, as the relay round trip requires |
| NatThreads.AllocationIsAtomic | user/sm.cpp:162-167 | under every interleaving, whenever the mutex is free the shared memory is that of the completed allocations done one after another |
| NatThreads.PortsAreUnique | user/sm.cpp:783-787 | up to port 65535 no port is handed out twice, own and relayed ports are disjoint and together exactly [8000, src_port), and the maps hold exactly the relayed ones |
| NatThreads.RelayedPortsAreForever | user/sm.cpp:162-167 | a relayed port maps for ever to the address and port it was allocated for |
| NatThreads.SentTimeKey | user/sm.cpp:806 | the send time is recorded under the port used if and only if no allocation was completed in between |
| NatThreads.SentTimeWitness | user/sm.cpp:806 | an interleaving in which the key is a relayed port |
| Allocation.RunReplaysIssues | user/sm.cpp:783-787 | over any run of the node its counter and port maps are its allocations replayed in order |
| Allocation.SameIssuesSamePorts | user/sm.cpp:162-167 | an interleaving and a run with the same completed allocations leave the same counter and maps whenever the mutex is free |
| Allocation.RunForIssues | user/sm.cpp:151-183 | from a fresh node every sequence of allocations in port order, for any addresses and ports, is made by some run |
| Allocation.InterleavingsAreRuns | user/sm.cpp:162-167 | for every interleaving some run of the node makes exactly its completed allocations and leaves the same counter and maps |
| Allocation.RepliesAreSorted | user/sm.cpp:181-219 | over any run, while ports last, an accepted frame to a non-service port is relayed back, taken for an own reply or ignored exactly as that port was allocated to a request, to a probe, or never |
| Wire.RefusedExactly | base/cf.cpp:709 | exactly the frames shorter than 14 or longer than 65531 bytes are refused |
| Wire.FrontOfMessage | base/cf.cpp:706-778 | a written message is read back whole, whatever follows it |
| Wire.CutMessage | base/cf.cpp:706-778 | no proper prefix of a message is taken for a message |
| Wire.DecodeMessages | base/cf.cpp:706-778 | a concatenation of messages decodes to exactly those requests, then the rest |
| Wire.MessageBytes | base/cf.cpp:706-778 | the bytes of each message; its length is the frame's plus ten, or twelve |
| Wire.HeadExactly | base/cf.cpp:615-664 | any server message is skipped, delivered or stops the loop exactly as its type, size and interface say |
| Wire.CutNoticeStops | base/cf.cpp:615-664 | a message cut short stops the loop |
| Wire.NoticesRecovered | base/cf.cpp:615-664 | the event loop's reading of a stream of well-formed notices is exactly their frames, in order |
| SendThreads.WireInLockOrder | base/cf.cpp:682-737 | under every interleaving and every pattern of partial sends and errors the wire is, in lock order, whole messages and the fragments of failed calls, then a prefix of the holder's; sentBytes is the payload of the whole ones |
| SendThreads.WireIsWholeMessages | base/cf.cpp:682-737 | the wire is the completed messages in lock order and a prefix of the holder's if and only if no failing send call had part of its message written |
| SendThreads.ReaderRecovers | base/cf.cpp:682-737 | while no byte is written behind a fragment the reader at the other end recovers exactly the completed requests, plus the holder's once it is all written |
| SendThreads.ErrorBreaksFraming | base/cf.cpp:786-808 | an interleaving in which a completed message is lost behind a fragment |
| SendThreads.LuckyFragment | base/cf.cpp:786-808 | an interleaving in which a completed message behind a fragment is recovered nevertheless |
| Transport.Connection.SendAll | base/cf.cpp:786-808 | the loop sends the whole buffer however send cuts it, or after an error a part of it |
| Transport.Connection.ReceiveAll | base/cf.cpp:786-808 | the loop ends and fills exactly the requested prefix, however recv cuts the stream |
| Transport.Connection.RealSendFrame | base/cf.cpp:706-737 | a refused frame writes nothing; success appends exactly one message and its payload to sentBytes; failure leaves a prefix |
| Transport.Connection.RealNotifyChangeOfIPAddress | base/cf.cpp:739-758 | success appends exactly one message, failure a prefix of it |
| Transport.Connection.RealNotifyChangeOfNetmask | base/cf.cpp:760-780 | success appends exactly one message, failure a prefix of it |
| Transport.Connection.SimulationEventLoop | base/cf.cpp:615-664 | every frame up to the message that ends the loop is delivered in order, independent of chunking; receivedBytes grows by the payload delivered |
| Transport.StreamVolume | base/cf.cpp:661 | the volume of a stream of frames is its length less ten bytes a frame |

## Left out

- Sockets, connecting, signals, process exit, printing and usage text. `send` and `recv` are nondeterministic partial transfers or errors.
- End of stream: `recv` returning 0 makes the source loop for ever; the model reports running out of input as an error.
- `recoverSimulation`: it repeats on the server's behaviour without a termination measure.
- Sign-in, map and node negotiation, command-line arguments, and the accessors of `Interface`, `Machine` and `Frame`.
- Clocks and the printed latencies: each measured delay is an input; theorems that need it ask for delays below 65535, the value that means "down".
- `mac_into_byte` (a library `sscanf`), memory allocation and leaks, and reading past short buffers other than in `is_valid_packet`.
- Rounding of doubles: loss rates are exact reals; a zero divisor gives NaN or minus infinity as in the source.
- Wrap-around of the 64-bit `sentBytes` and `receivedBytes` and of the 32-bit `src_port`: unbounded here. Port numbers on the wire are cut to 16 bits.
- Strings with bytes outside ASCII.
- Advertisement sizes whose last record would be read past the payload, a full server table, and warning texts larger than the receive buffer: preconditions (`Readable`, `Accepts`, `Fits`).
- A relayed reply to a requester without a stored MAC: the source would read from a null pointer; `Accepts` asks for the MAC, and `Gossip.AdvertiserHasMac` says when it is there.
- The NAT maps hold in host order what the source keeps in network order.
- Interleaving of table updates: the mutex of `update_learning_table` is in a by-value copy and protects nothing, so commands and frames are single steps for the tables. Port allocation and sending are interleaved statement by statement.
- Relay.RelayRoundTrip: asks for a stored MAC of the requester; the server between the parties is a frame that exchanges addresses and ports.
- SendThreads.ReaderRecovers: one direction; a message behind a fragment may be recovered or lost, as the two witnesses show.
- Transport.Connection.SimulationEventLoop: states for a run with a failing recv only that a prefix of the frames is delivered.
