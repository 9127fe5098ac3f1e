# NodePro data plane: a Dafny model

This project models the parts of NodePro 2.0 that carry, route and account for traffic, and
proves what holds of them over all inputs and all runs.

| file | component |
|---|---|
| `MuxWire.dfy` | `Aggregator`: chunking, framing and round-robin dealing |
| `Reassembler.dfy` | `Reassembler` and `WindowFlowController`, as classes and as atomic steps |
| `MuxRuns.dfy`, `MuxTheorems.dfy`, `MuxEndings.dfy` | every interleaving of arrivals, deliveries and reads, and the theorems about them |
| `FakeIP.dfy`, `Router.dfy` | the wrapping fake-IP allocator, and rule routing that undoes it |
| `NPChain.dfy` | the source-routed header, its decoder, and its journey along its own chain |
| `Obfs.dfy`, `Relay.dfy` | padded frames with heartbeats, the relay loop with its buffer pool, chains of relays |
| `Quota.dfy` | per-user quotas under interleaved relay loops |
| `Sniffer.dfy` | the TLS server-name sniffer against a builder of ClientHello messages |
| `Inbounds.dfy` | reconciliation of inbound handlers over histories of configurations |
| `Dns.dfy` | the answer cache, its key, and the race between upstreams |
| `Bytes.dfy`, `Basics.dfy` | big-endian fields, concatenation, shared concepts |

Code that updates state in place is a class or a method with loops, proved against functions on
values; the theorems are about those functions. Concurrency is a step system: a state, an
enabled event, the next state, and theorems over every finite run. Network reads are byte
sequences; random bytes, clocks, upstream replies, health scores, the failure of a write and the
order in which Go walks a map are parameters. An operation that would block on a channel is an
outcome of the model.

## What the code does that its documentation does not say

Each of these is proved, with the exact condition under which the promised behaviour holds.

* The chunk size field has 16 bits and the default chunk is 65536 bytes. A Write arrives whole
  exactly when the chunk size or the buffer is below 65536 (`MuxWire.LosslessIff`); at the default
  only the last `|data| mod 65536` bytes survive (`MuxWire.DefaultChunkKeepsTail`).
* The end of the stream is reported exactly when the FIN chunk happened to arrive last
  (`MuxTheorems.Completeness`, `MuxTheorems.WriteThenRead`); otherwise no continuation reports it
  (`MuxEndings.OpenForever`), and every stream of two or more chunks has such an order of arrival
  (`MuxEndings.ReaderWaitsForEver`).
* A paused delivery is resumed only by another push, never by a read, so a drained receiver can be
  stuck; `MuxTheorems.ProgressIff` and `MuxTheorems.CompletenessIff` say exactly when, and
  `MuxEndings.OneConnection` says it for in-order arrival of a buffer larger than the window.
* A fake address that has been reused still answers for the old domain in one direction;
  `FakeIP.RoundTripWindow` gives the window. Routing an IPv6 target while fake addresses are on
  crashes (`Router.CrashIff`).
* docs/protocol.md puts header padding before the hops; the encoder puts it after them and the
  decoder discards it after the first. Chains of two or more hops therefore work exactly without
  padding (`NPChain.ChainWorksIff`, `NPChain.PaddedRelayFails`).
* docs/protocol.md says relays validate the header's version; the decoder accepts any
  (`NPChain.DecodeIff`).
* A heartbeat's padding length is one byte, and docs/config.md shows a dummy size of 256. The length
  byte is then 0 and the random bytes are read as frames (`Obfs.DummySize256`). Connections and
  chains of relays are transparent exactly for dummy sizes up to 255 (`Obfs.TransparentIff`,
  `Relay.ChainLosslessIff`).
* With obfuscation switched on, the header decoder's four-byte read is refused
  (`NPChain.ObfuscatedHeaderUnreadable`).
* Inbound keys join protocol and address with a dash. They are unambiguous among protocols that
  can be built (`Inbounds.KeyInjective`) but not in general (`Inbounds.CollisionKeepsHandler`).
* The "round-robin" routing strategy takes the first candidate; only "lowest-latency" looks at
  scores (`Router.SelectByStrategy`).

## Model

| member | source | states |
|---|---|---|
| `MuxWire.Aggregator.constructor` | internal/mux/aggregator.go:20-29 | a non-positive chunk size becomes 64 KiB |
| `MuxWire.Aggregator.Send` | internal/mux/aggregator.go:45-66 | one chunk goes, framed, to the next connection in turn, unless that connection refuses it |
| `MuxWire.Aggregator.Write` | internal/mux/aggregator.go:32-72 | the connections receive exactly the frames of the buffer's chunks, dealt round-robin, up to the first write error; the result says which |
| `MuxWire.EmitDeals` | internal/mux/aggregator.go:36-69 | the sending loop is dealing the list of all frames, from any point of the loop on |
| `MuxWire.FrameLayout` | internal/mux/aggregator.go:45-58 | session ID, number mod 2^32, size mod 2^16, flag and reserved byte at their offsets, the whole chunk behind them |
| `MuxWire.DealBalanced` | internal/mux/aggregator.go:60-62 | from any counter value and for any number of frames, no connection carries more than one frame more than another |
| `MuxWire.PiecesCover` | internal/mux/aggregator.go:36-43 | the chunks concatenate to the buffer, and each has 1 to chunkSize bytes |
| `MuxWire.ParseFrame` | internal/mux/reassembler.go:31-36 | what Push extracts from a frame is its number mod 2^32, its FIN flag and the part of the chunk its 16-bit size covers |
| `MuxWire.ParseIff` | internal/mux/reassembler.go:31-36 | exactly which bytes Push accepts as a chunk: 24 header bytes with the FIN flag in the lowest bit of byte 22, then at least as many bytes as the size field says |
| `MuxWire.TruncatedFrameRejectedIff` | internal/mux/reassembler.go:31-35 | a frame cut short is rejected exactly when the cut removes a byte its 16-bit size covers; a cut 65536-byte chunk passes as an empty one |
| `MuxWire.LosslessIff` | internal/mux/aggregator.go:46-58 | the receiver can rebuild the buffer if and only if the chunk size or the buffer fits 16 bits |
| `MuxWire.DefaultChunkKeepsTail` | internal/mux/aggregator.go:21-50 | at the default chunk size exactly the last length mod 65536 bytes get through |
| `Reassembly.WindowFlowController.ShouldPause` | internal/mux/flowcontrol.go:25-27 | true exactly when the buffered bytes reach the window |
| `Reassembly.WindowFlowController.OnBuffered` | internal/mux/flowcontrol.go:30-32 | buffered grows by n, nothing else changes |
| `Reassembly.WindowFlowController.OnConsumed` | internal/mux/flowcontrol.go:35-38 | n bytes move from buffered to consumed |
| `Reassembly.WindowFlowController.WindowSize` | internal/mux/flowcontrol.go:41-47 | what is left of the window, never negative |
| `Reassembly.WindowFlowController.Reset` | internal/mux/flowcontrol.go:50-53 | both counters return to zero |
| `Reassembly.Reassembler.Push` | internal/mux/reassembler.go:30-57 | malformed and already delivered packets change nothing; otherwise the state is that of storing the chunk and delivering until a gap, a pause, a full queue or the close |
| `Reassembly.Reassembler.Drain` | internal/mux/reassembler.go:44-55 | the delivery loop reaches the state of delivering one chunk at a time to the end |
| `Reassembly.Reassembler.ReadInto` | internal/mux/reassembler.go:60-79 | the buffer receives the oldest undelivered bytes, the rest of a chunk is kept, EOF only when closed and empty |
| `MuxRuns.ReadConserves` | internal/mux/reassembler.go:60-79 | one Read takes its bytes from the front of what is delivered and changes nothing else |
| `MuxRuns.SendKeeps` | internal/mux/reassembler.go:45-49 | one delivery extends the delivered stream by exactly the next chunk and moves its bytes from held to queued |
| `MuxRuns.RunInv` | internal/mux/reassembler.go:30-79 | every run of arrivals, deliveries and reads keeps the invariant: order, no early end, no send on the closed channel, conservation |
| `MuxTheorems.ReassemblySafety` | internal/mux/reassembler.go:30-79 | in every reachable state returned ++ pending ++ queued is exactly the first nextSeq chunks; EOF only after everything; the closed channel is never sent on; buffered = held + queued + pending + repeated bytes, consumed = returned bytes, window size = what is left |
| `MuxTheorems.QueueBound` | internal/mux/reassembler.go:25 | in every run the output queue never holds more than 1024 chunks, and a delivery blocks exactly when it holds that many, the next chunk is stored and the window is open |
| `MuxTheorems.PushIsRun` | internal/mux/reassembler.go:44-55 | the uninterrupted delivery loop of Push is a run of the step system and never panics |
| `MuxTheorems.ProgressIff` | internal/mux/reassembler.go:44-55 | with everything read, delivery can ever continue if and only if a single push can make it continue |
| `MuxTheorems.FullStoreIsAbsorbing` | internal/mux/flowcontrol.go:25-38 | holding a window's worth of undelivered bytes with nothing to read is a state no run gets out of |
| `MuxTheorems.AdvancingRun` | internal/mux/reassembler.go:40-49 | if the held bytes and the new chunk stay below the window, pushing the missing chunk delivers it |
| `MuxTheorems.Completeness` | internal/mux/reassembler.go:33-55 | every chunk pushed once, in any order with any reads between: all delivered, store empty, closed exactly when FIN came last |
| `MuxTheorems.CompletenessIff` | internal/mux/reassembler.go:40-55 | pushing every chunk once suffices in every order if and only if the stream fits below the window |
| `MuxTheorems.ReadsDrain` | internal/mux/reassembler.go:60-79 | enough non-empty reads return everything delivered, then EOF exactly when closed |
| `MuxTheorems.DealTotal` | internal/mux/aggregator.go:60-64 | dealing over connections neither loses nor duplicates a packet |
| `MuxTheorems.NetIsRun` | internal/mux/aggregator.go:60-66 | receiving from FIFO connections in any interleaving is a run in which no chunk arrives twice |
| `MuxTheorems.WriteThenRead` | internal/mux/aggregator.go:32-72 | from Write over any number of connections to Read: exactly the carried bytes come out, in order; EOF exactly when FIN came last; the carried bytes are the buffer exactly under the 16-bit condition |
| `MuxEndings.OpenForever` | internal/mux/reassembler.go:50-53 | once everything is delivered with the channel open, no continuation of any kind closes it or reports the end |
| `MuxEndings.ReaderWaitsForEver` | internal/mux/reassembler.go:50-53 | every stream of two or more chunks has an order of arrival after which all is delivered and the end is never reported |
| `MuxEndings.EndAlwaysReportedIff` | internal/mux/reassembler.go:44-53 | every order of arrival closes the channel if and only if there is a single chunk |
| `MuxEndings.UnreadIsBuffered` | internal/mux/flowcontrol.go:25-38 | once every chunk has arrived, the buffered bytes are exactly the unread bytes |
| `MuxEndings.LastPushDecides` | internal/mux/reassembler.go:44-55 | when the last missing chunk is in, everything is delivered if and only if the bytes unread at the next turn are below the window; otherwise nothing more ever is, however much is read afterwards |
| `MuxEndings.InOrderArrival` | internal/mux/aggregator.go:60-66 | over one connection the chunks arrive in order |
| `MuxEndings.OneConnection` | internal/mux/reassembler.go:44-55 | over one connection, for any buffer and window, the last push delivers all and the end is reported if and only if the bytes unread at that moment are below the window |
| `FakeIP.OrLowMask` | internal/routing/dns.go:109-110 | or-ing the host mask into a network number adds 2^m - 1 |
| `FakeIP.ShiftOnes` | internal/routing/dns.go:110 | shifting all ones right by the prefix length leaves 2^(32-ones) - 1 |
| `FakeIP.ClearBounds` | internal/routing/dns.go:104-109 | the network number of an address is at most it, and the network fits the address space |
| `FakeIP.NewPoolShape` | internal/routing/dns.go:103-120 | for prefixes up to 30 bits the pool runs from network + 1 to broadcast - 1 without 32-bit overflow |
| `FakeIP.GetAllocates` | internal/routing/dns.go:122-140 | allocating a new domain keeps the closed form of both maps and the cursor |
| `FakeIP.GetAnswers` | internal/routing/dns.go:122-140 | after any run, asking for a domain answers network + 1 + i mod N, i being its place among the distinct domains asked for; the address of a new domain looks up to that domain |
| `FakeIP.ClosedForm` | internal/routing/dns.go:103-140 | after any run the i-th distinct domain owns minIP + i mod N, strictly inside the network |
| `FakeIP.RoundTripWindow` | internal/routing/dns.go:122-147 | after any run Lookup(Get(d)) is d exactly while fewer than N domains were allocated after d, and always finds some domain |
| `FakeIP.AddressOwnerAgrees` | internal/routing/dns.go:130-137 | the domain an address stands for always maps back to that address |
| `FakeIP.InsideIff` | internal/routing/dns.go:103-140 | every address ever handed out lies strictly inside the network if and only if the prefix has at most 30 bits |
| `FakeIP.FakeIPPool.constructor` | internal/routing/dns.go:103-120 | a new pool has the bounds computed with 32-bit arithmetic and empty maps |
| `FakeIP.FakeIPPool.GetIP` | internal/routing/dns.go:122-140 | known domains keep their address; a new one takes the cursor, which wraps |
| `FakeIP.FakeIPPool.LookupIP` | internal/routing/dns.go:142-147 | the domain last allocated to the address, if any |
| `Router.FakeAddressRoutesAsDomain` | internal/routing/router.go:34-91 | after any allocations, for any rules and outbounds, the text of a fake address gets the same verdict as the domain it stands for, which is its own domain exactly inside the window |
| `Router.RouteUnique` | internal/routing/router.go:34-111 | for a given walking order and given scores every target has a verdict, and only one |
| `Router.CrashIff` | internal/routing/dns.go:142-145 | because the lookup reads a number off the four-byte form, routing crashes exactly on an IPv6 target with fake addresses enabled |
| `Router.DomainRuleIff` | internal/routing/router.go:117-119 | a domain rule matches exactly the hosts that end in its pattern, a leading star dropped |
| `Router.MatchesApplies` | internal/routing/router.go:113-141 | each kind of rule matches exactly its hosts: default all, domain by suffix, ip by network, geoip and asn by database entry and never without a database, any other kind none |
| `Router.FirstApplyingRuleDecides` | internal/routing/router.go:34-111 | for a host that is no fake address, the first rule that applies decides: its named outbound or an error, else a member of its group in walking order and by score, or an error for an empty group |
| `Router.NoRuleApplies` | internal/routing/router.go:43-61 | with no rule that applies the verdict is the outbound named default, or an error if there is none |
| `Router.InGroupIff` | internal/routing/router.go:77-83 | the candidates are exactly the outbounds whose group is the rule's |
| `Router.AddressRulesIrrelevant` | internal/routing/router.go:113-141 | a name gets the same verdict with or without the ip, geoip and asn rules of the list |
| `Router.BaseRouter.Route` | internal/routing/router.go:34-92 | the verdict is one the first matching rule for the restored host allows; with `Router.RouteUnique` it is the only one |
| `Router.BaseRouter.Apply` | internal/routing/router.go:53-91 | default, named outbound or group choice, with the error cases |
| `Router.BaseRouter.Candidates` | internal/routing/router.go:77-83 | exactly the outbounds of the group, in walking order |
| `Router.SelectByStrategy` | internal/routing/router.go:94-111 | lowest-latency returns the first candidate of maximal score if any exceeds -1, everything else the first candidate |
| `NPChain.EntryRoundTrip` | internal/protocol/npchain/codec.go:88-113 | a hop entry decodes to the hop with its name cut to 30 bytes and its port to 16 bits |
| `NPChain.DecodeFirstHop` | internal/protocol/npchain/codec.go:127-216 | decoding an encoding and any payload yields the first hop and leaves exactly the payload unread |
| `NPChain.DecodeIff` | internal/protocol/npchain/codec.go:127-210 | exactly which streams decode: 24 header bytes starting with the four magic bytes, at least one hop, an address type of 1 to 3 with length at most 30, and all entries and padding present; the version is not looked at |
| `NPChain.ProperPrefixRejected` | internal/protocol/npchain/codec.go:127-210 | no proper prefix of an encoding decodes |
| `NPChain.DecodeShape` | internal/protocol/npchain/codec.go:152-213 | every successful decode uses up one entry and one padding and hands on a header with one hop less |
| `NPChain.TravelConsumes` | internal/protocol/npchain/codec.go:188-209 | along a whole journey every node eats one entry and one padding, whatever it reads them from |
| `NPChain.TravelWorks` | internal/inbound/npchain.go:45-84 | without padding, or with one hop, the journey visits all hops in order with session and network preserved and the payload arrives intact |
| `NPChain.EncodedChainTravels` | internal/protocol/npchain/codec.go:49-124 | a header made from call arguments, followed by a payload, visits those hops in order, each with the given session UUID, or a fresh one without it, and the given network |
| `NPChain.ChainWorksIff` | internal/protocol/npchain/codec.go:49-216 | visiting exactly the encoded hops and delivering the payload intact happens if and only if there are 1..255 normal hops and one hop or no padding |
| `NPChain.PaddedRelayFails` | internal/protocol/npchain/codec.go:116-201 | with two or more hops and padding, the remaining header alone never decodes |
| `NPChain.ObfuscatedHeaderUnreadable` | internal/inbound/npchain.go:41-45 | a header sent through the obfuscation layer is refused at the decoder's first read |
| `NPChain.EncodeHeader` | internal/protocol/npchain/codec.go:49-124 | an error exactly when some hop address is invalid; else the layout of the chain, with the session UUID or a fresh ID in bytes 8 to 24, the UDP and padding bits in byte 6 and the drawn padding length in byte 7 |
| `NPChain.HeaderBytes` | internal/protocol/npchain/codec.go:52-78 | those bytes, for any hops and any drawn padding, in terms of the arguments |
| `NPChain.AppendHops` | internal/protocol/npchain/codec.go:81-113 | the entries are appended in order; it fails exactly when some address is invalid |
| `NPChain.Conn.ReadFull` | internal/protocol/npchain/codec.go:140-142 | n bytes or failure, draining what is left |
| `NPChain.DecodeNextHop` | internal/protocol/npchain/codec.go:127-216 | agrees with the decoding function on every byte stream, including what stays unread; `NPChain.DecodeIff` says which streams those are |
| `NPChain.DecodeBody` | internal/protocol/npchain/codec.go:156-215 | the part after the fixed header, with the ignored padding position and the rebuilt header |
| `NPChain.HandleRelay` | internal/inbound/npchain.go:37-86 | egress exactly when no hop is left, else the remaining header is relayed; one step of the journey either way |
| `Obfs.ReadItems` | internal/common/obfs.go:99-135 | one Read over frames in flight skips heartbeats and gives the oldest payload, or refuses it for lack of buffer |
| `Obfs.Transparent` | internal/common/obfs.go:61-135 | any interleaving of data and heartbeat frames reads back as exactly the payloads, in order |
| `Obfs.DataIff` | internal/common/obfs.go:99-135 | a Read returns p and leaves a rest if and only if the stream is whole heartbeats, one whole frame around p, and that rest |
| `Obfs.ReadBounded` | internal/common/obfs.go:99-135 | every Read that succeeds consumes bytes and returns 1..65535 of them |
| `Obfs.FrameDelimitsIff` | internal/common/obfs.go:71-82 | a frame with a payload delimits itself if and only if payload and padding fit their length fields |
| `Obfs.WriteDelimitsIff` | internal/common/obfs.go:61-97 | what Write sends, whose padding always fits, delimits itself if and only if the payload has fewer than 65536 bytes |
| `Obfs.ExtraPadding` | internal/common/obfs.go:67-84 | padding beyond what the length byte says is taken for the next frame |
| `Obfs.HeartbeatInvisibleIff` | internal/common/obfs.go:46-73 | every heartbeat is invisible to every reader if and only if the dummy size is at most 255 |
| `Obfs.DummySize256` | docs/config.md:81-85 | at the documented dummy size of 256 the length byte is 0 and all 256 random bytes are read as frames |
| `Obfs.TransparentIff` | internal/common/obfs.go:46-135 | all interleavings of writes and heartbeats of a configured connection read back as the payloads if and only if the dummy size is at most 255 |
| `Obfs.PiecemealReadFails` | internal/common/obfs.go:119-121 | a Read is refused exactly when its buffer is smaller than the frame's payload |
| `Obfs.PadLen` | internal/common/obfs.go:64-71 | the drawn byte mod maximum + 1 unless more is forced; within the maximum when the forced one is, and one byte long unless forced further |
| `Obfs.EveryPadLenDrawn` | internal/common/obfs.go:66-67 | every padding length up to the configured maximum, below 256, is drawn by some random byte |
| `Obfs.ObfsConn.SendFrame` | internal/common/obfs.go:61-86 | appends one frame with the drawn or forced padding |
| `Obfs.ObfsConn.Write` | internal/common/obfs.go:88-97 | empty writes send nothing, others one frame |
| `Obfs.ObfsConn.Heartbeat` | internal/common/obfs.go:46-59 | one frame without payload |
| `Obfs.ObfsConn.Read` | internal/common/obfs.go:99-135 | the payload of the next data frame lands in the buffer; terminates on every finite stream |
| `Relay.BufPool.GetBuf` | internal/common/pool.go:20-22 | always a 32 KiB buffer |
| `Relay.BufPool.PutBuf` | internal/common/pool.go:25-30 | buffers of any other size are dropped |
| `Relay.RelayForwardsPrefix` | internal/common/utils.go:62-94 | a relay forwards a prefix of what it can read, in chunks of 1..32768 bytes, all of it unless quota or write stopped it |
| `Relay.RelayOutcome` | internal/common/utils.go:62-94 | a relay forwards the payloads up to the first that cannot be, accounts for that one too, and ends for the quota exactly when that one brings the total past a positive limit, otherwise because its write failed |
| `Relay.RelayCompleteIff` | internal/common/utils.go:62-94 | a relay reaches the end of its source if and only if no write fails and, under a positive limit, everything readable fits what is left of the quota |
| `Relay.RelayRespectsQuota` | internal/common/utils.go:65-70 | what one relay forwards fits in what was left of the quota |
| `Relay.NextRelayReads` | internal/common/utils.go:62-86 | what a relay sends is exactly what the next relay can read |
| `Relay.Pass` | internal/common/utils.go:63-87 | one turn of the loop: read, account, then write or stop |
| `Relay.Pump` | internal/common/utils.go:62-94 | the whole loop, its output, its accounting and why it ended |
| `Relay.RelayLoop` | internal/common/utils.go:34-95 | the loop with a pooled buffer; the pool stays uniform |
| `Relay.ChainLosesNothing` | internal/common/utils.go:49-94 | with dummies of at most 255 bytes, in every run of a chain of relays with heartbeats and quota stops, no read lacks buffer and the bytes out are a prefix of the bytes in; all of them once nothing is in flight and none stopped |
| `Relay.ChainLosslessIff` | internal/common/obfs.go:53-73 | that holds of every run of every chain if and only if the dummy size is at most 255 |
| `Relay.PassIsForward` | internal/common/utils.go:63-87 | one turn of the relay loop between two links is one step of the chain |
| `Quota.QuotaManager.AddUsage` | internal/common/quota.go:19-27 | the user's counter grows by n, others do not change; exceeded exactly when the limit is positive and the counter is above it |
| `Quota.QuotaManager.SetLimit` | internal/common/quota.go:29-33 | changes one user's limit |
| `Quota.QuotaManager.Reset` | internal/common/quota.go:36-40 | zeroes one user's counter if it exists |
| `Quota.QuotaManager.GetStatus` | internal/common/quota.go:42-50 | the user's counter and limit, zero when unknown |
| `Quota.QuotaBound` | internal/common/quota.go:19-40 | for any interleaving of any number of loops, bytes admitted since the last Reset never exceed the largest limit in force; the counter is admitted plus refused bytes |
| `Quota.CounterIsCounted` | internal/common/quota.go:19-40 | in every interleaving the counter is the sum of the reads committed since the last Reset, read off the events alone |
| `Quota.RefusedByLoadedLimit` | internal/common/quota.go:19-33 | in every run with any limit changes, a read is refused if and only if the limit in force when it was loaded is positive and the bytes accounted since the last Reset, its own included, exceed it |
| `Quota.RefusedIff` | internal/common/quota.go:25-26 | under a fixed limit that limit decides: a read within it is never refused, one past it always, and a limit that is not positive refuses nothing |
| `Quota.ExceededSticks` | internal/common/quota.go:25-26 | once past every limit in force, nothing is admitted until a Reset |
| `Quota.ExceededKeepsBeingReported` | internal/common/quota.go:19-27 | in any run under a fixed limit, once AddUsage has reported exceeded every later call of any loop does, until a Reset or a raised limit |
| `Quota.AddUsageIsRun` | internal/common/quota.go:19-27 | an uninterrupted AddUsage is a Load and a Commit of the step system, for that user alone |
| `Sniffer.HelloCut` | internal/common/sniffer.go:81-117 | on a prefix the parser gives the same result if the extension is wholly there and nothing otherwise |
| `Sniffer.SniffMonotone` | internal/common/sniffer.go:66-117 | a name found on a prefix is the name found on everything longer |
| `Sniffer.HelloParses` | internal/common/sniffer.go:84-117 | a well-formed ClientHello parses to its first server name after any other extensions |
| `Sniffer.FoundIff` | internal/common/sniffer.go:81-117 | a name is found if and only if the bytes are a ClientHello that carries it, after extensions of other kinds and within the announced extension length |
| `Sniffer.NoServerName` | internal/common/sniffer.go:84-117 | a ClientHello whose extensions are all of other kinds gives no name, on any prefix |
| `Sniffer.SniffFindsServerName` | internal/common/sniffer.go:66-118 | sniffing the first k bytes of such a record finds the name exactly when the extension ends within k and within 4096 bytes |
| `Sniffer.BufReader.Peek` | internal/common/sniffer.go:29-30 | peeking never consumes; it succeeds exactly within the buffer size and the bytes that arrive |
| `Sniffer.BufReader.Sniff` | internal/common/sniffer.go:66-79 | agrees with the sniffing function on the bytes that arrive, and loses none of them |
| `Sniffer.Parse` | internal/common/sniffer.go:81-101 | in-bounds on every byte string, agrees with the parsing function |
| `Sniffer.FindName` | internal/common/sniffer.go:98-117 | the extension loop terminates and agrees with the walk over extensions |
| `Inbounds.SyncValid` | internal/agent/agent.go:197-259 | a sync keeps: every handler ever created is running, or was stopped exactly once |
| `Inbounds.SyncIdempotent` | internal/agent/agent.go:197-259 | repeating a sync creates, stops and changes nothing |
| `Inbounds.ReconciliationHistory` | internal/agent/agent.go:197-259 | after any history a key is active exactly when an unbroken run of configurations wants it and could build it; its handler is the one built at the earliest such point; each other handler was stopped exactly once |
| `Inbounds.ActiveIsLastConfigIff` | internal/agent/agent.go:216-257 | the active keys are the buildable keys of the last configuration, with the exact exception |
| `Inbounds.ActiveIsLastConfig` | internal/agent/agent.go:216-257 | without exception when each key is always or never buildable |
| `Inbounds.KeyInjective` | internal/agent/agent.go:203 | keys of buildable inbounds determine protocol and address |
| `Inbounds.WhichProtocolsRun` | internal/agent/agent.go:219-257 | from nothing, a configuration of one inbound starts its handler exactly for socks5, http, tcp-forward, tcp-balance, udp-forward, udp-range, redirect and tproxy |
| `Inbounds.CollisionKeepsHandler` | internal/agent/agent.go:203-218 | a concrete two-configuration history in which an unbuildable entry keeps another's handler running |
| `Inbounds.WantedIsLast` | internal/agent/agent.go:201-205 | a key is wanted exactly when some entry has it, and then with the last such entry |
| `Inbounds.ByKey` | internal/agent/agent.go:201-205 | the entry per key, the later one winning |
| `Inbounds.Agent.StopRemoved` | internal/agent/agent.go:208-213 | exactly the handlers of unwanted keys are stopped, each once, and removed |
| `Inbounds.Agent.StartAdded` | internal/agent/agent.go:216-258 | exactly the wanted, inactive, buildable keys get a new handler |
| `Inbounds.Agent.SyncInbounds` | internal/agent/agent.go:197-259 | both loops together, in any walking order |
| `Dns.Lifetime` | internal/routing/dns.go:298-303 | 600 seconds without records, else the time between 10 and 3600 seconds nearest to the first record's TTL |
| `Dns.CacheKeyInjective` | internal/routing/dns.go:251 | different questions never share a cache key |
| `Dns.CacheAgrees` | internal/routing/dns.go:268-319 | in every run every cached answer was given by an upstream for the same question, stored since the last Flush and still alive |
| `Dns.QueryIsRun` | internal/routing/dns.go:267-312 | an uninterrupted Query is a run of the step system with the same cache and the same answer |
| `Dns.AnsweredIff` | internal/routing/dns.go:267-312 | a query is answered if and only if a live entry is cached or the race was won; a hit keeps the cache and takes the request's ID, a miss gives the race's message |
| `Dns.AskAgain` | internal/routing/dns.go:267-312 | once a race was won by a message, the same question is answered with it under each new ID for its whole lifetime, whatever else is asked and whatever later races say, until a Flush |
| `Dns.TrimDot` | internal/routing/dns.go:255 | the name without its final dot, if it has one |
| `Dns.RaceQuery` | internal/routing/dns.go:321-355 | an answer comes from some upstream; failure only if all failed, cancellation only if the context ended; an answer exactly when one arrives before that |
| `Dns.Upstreams` | internal/routing/dns.go:277-291 | the group of the routed outbound if it has any, else the local one, else the two built-in servers |
| `Dns.SmartResolver.Query` | internal/routing/dns.go:248-313 | fake-IP, cached, failed and freshly stored answers, and the cache afterwards; a response exactly from a live entry or a won race |
| `Dns.SmartResolver.FlushCache` | internal/routing/dns.go:315-319 | the cache is empty |

## Left out

- QUIC, TLS, WebSocket, ACME and certificates, the gRPC control client, inbound listeners and the admin API: wrappers over libraries and I/O.
- The HTTP Host sniffer, SOCKS5, PROXY protocol and NP-Chain datagram codecs: they would only add easier members of the same kind.
- IP, CIDR, host:port and UUID text: hosts are parsed values and targets are split from their ports; GeoIP and ASN lookups are arbitrary predicates.
- Bandwidth limiting, metrics, tracing, logging and YAML configuration.
- Reassembly.Reassembler.ReadInto: one reader at a time, as the unsynchronised `pending` field demands.
- MuxTheorems.ReassemblySafety: one Write of fewer than 2^32 chunks per Reassembler, because sequence numbers restart at 0 with every Write.
- MuxWire.Aggregator.Write: the 32-bit connection counter is below 2^31, beyond which the source indexes out of range.
- FakeIP.ClosedForm: prefixes of 31 and 32 bits and IPv6 ranges; `FakeIP.InsideIff` shows why the narrow ones are excluded.
- Quota.QuotaManager.AddUsage: counters are unbounded; wrap-around after 2^63 bytes is not modelled, nor is that of the flow controller.
- Obfs.ObfsConn.SendFrame: a maximal padding of -1, for which the source divides by zero.
- NPChain.DecodeNextHop: the kinds of decoding errors are not told apart.
- Relay.BufPool.GetBuf: which pooled buffer is handed out, and buffers the runtime drops.
- NPChain.HandleRelay: dialling and routing of the next hop; the header an npchain outbound would write first is not part of the journey.
- Dns.CacheAgrees: sub-second times, and answers edited by a caller after they were served.
