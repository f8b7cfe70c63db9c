# Verified models of the tunnel bridge

A Dafny 4.11 model of the wire formats and concurrent machinery of this repository: the Go
`slipnet-dns` scanner and transports, the tunnel registry of the Go bridge, and the small formats
that the Android, iOS and browser clients share with it. To check it: `dafny verify dfyconfig.toml`.

| module | what it models |
|---|---|
| Bytes, Split, ByteStream, RawConn | byte strings, cutting and joining text, the two halves of a network connection |
| ScanPipeline, ScanProgress, ScanInterrupt, ScanOverflow, ScanHistory | RunScanner: dispatcher, semaphore, scan goroutines, bounded channel, worker pool, interrupt, shutdown |
| DnsName, DnsMessage, ProbeQuery | names with compression pointers, the response walkers, query packets and the size budget of the tunnel probe |
| Base32 | the hand-written encoder over a wrapping accumulator |
| ProbeLoop | the early-exit verification loop and its clamped numbers |
| WebSocketFrame, WsConn | two frame writers, two frame readers, the byte stream over frames |
| ClientHello, FragmentConn | the ClientHello parser, the splitters, the fragmenting connection |
| TunnelRegistry | the tunnel map and counter under their mutex |
| EndpointList, ServiceInfo, SocksVless, TunnelFrame | the smaller codecs, each with its counterparts |

Code that works on fields or buffers step by step is a class or a method with loops, and its contract
ties it to a function on values; lemmas then say what that function means, against message
datatypes, grammars or inverses defined on their own. The two concurrent systems are state machines:
a step is one atomic action of one goroutine, a run is any schedule of enabled steps, and the theorems
speak about the state after every schedule.

Text is a byte string wherever Go treats it so. `x & 0x3F` and its like are written as remainders,
`byte(x)` as a remainder by 256, and the 64-bit accumulator wraps explicitly.

Results a reader might not expect, each with its exact condition:

- `webtransport_tunnel.ts`: `readExact` drops the rest of a chunk it has no room for. A read is
  lossless exactly when a chunk ends with it, and a stream of frames decodes in order exactly when a
  chunk ends with every header and every payload. The WebSocket path, which passes each message as one
  chunk, decodes empty payloads only.
- `scanner.go`: the clamps of the verify scan can ask for two passes out of one probe. The comment at
  line 705 says 500 ms a probe; the code, and the model, use 200.
- `scanner.go`: a qualifying resolver is passed over without an end-to-end test if the channel buffer is
  full when it is offered. A complete, uninterrupted run in which that happens exists exactly when
  end-to-end tests are on, there are more than 200 resolvers, the score asked for is at most 6 and the
  concurrency is positive. With a concurrency of zero the scan never gets going.
- `slipnet_bridge.go`: the handle returned over the C boundary stops its tunnel only below 2^31; from
  2^32 on it stops an earlier tunnel, if that still runs, whenever its low 32 bits are a positive C int.
- `vless.go`: domains of 252 to 255 bytes do not fit the one read; an IPv4-mapped IPv6 address and a
  domain that looks like an address change form on the way into the VLESS header. Its frame reader
  answers no ping.
- `ssh_transport.go`: a connection that breaks off inside a frame, but between two of its fields, looks like
  a clean end of file.
- Android and iOS read the same endpoint list differently from the first address that is not UTF-8 on.

## Model

| member | source | states |
|---|---|---|
| ScanPipeline.SlotsKept | go-bridge/slipnet-dns/scanner.go:1058-1078 | every step of every goroutine keeps the semaphore and wait-group accounting: occupied slots are the scanners that hold one (plus the dispatcher between acquiring and spawning), never above `concurrency`; e2eChan is closed only when no scanner is left, so no send can hit the closed channel |
| ScanPipeline.CountsKept | go-bridge/slipnet-dns/scanner.go:1080-1090 | every step keeps each of the four counters equal to the number of scanners that have reached it, per status |
| ScanPipeline.ListsKept | go-bridge/slipnet-dns/scanner.go:1092-1109 | the mutex has one holder; the two lists hold each resolver at most once, exactly those with a positive (qualifying) score that have passed through the critical section |
| ScanPipeline.ChannelKept | go-bridge/slipnet-dns/scanner.go:1099-1107 | hosts sent are hosts received followed by the buffer of at most 200; only qualifying hosts, each once; a refused send means 200 hosts had been queued; without an interrupt every qualifying host was sent, refused, or is about to be offered, and after one some may have been given up besides |
| ScanPipeline.TestsKept | go-bridge/slipnet-dns/scanner.go:981-1042 | received hosts are those tested, dropped, or in a worker's hands; results, passes and live workers are accounted for; a worker returns only from a closed, empty channel |
| ScanPipeline.HostsKept | go-bridge/slipnet-dns/scanner.go:990-1041 | no host is ever in the hands of two workers, received twice, or reported twice |
| ScanPipeline.PoolSize | go-bridge/slipnet-dns/scanner.go:982-990 | the pool has as many workers as asked for, ten if that is not positive, none without end-to-end tests |
| ScanPipeline.InvAlways | go-bridge/slipnet-dns/scanner.go:981-1152 | the whole invariant holds after every schedule of dispatcher, scanners, workers and interrupt |
| ScanPipeline.AlwaysSafe | go-bridge/slipnet-dns/scanner.go:981-1152 | in every interleaving: at most `concurrency` slots taken, working+timeouts+errors <= scanned <= total, passed <= tested <= received <= sent, nothing sent after the close, each host queued and tested at most once, one mutex holder |
| ScanPipeline.FinishedIsComplete | go-bridge/slipnet-dns/scanner.go:1139-1152 | when the run is over the slots are free, the statuses add up to `scanned`, every queued host was received and tested or dropped; without an interrupt every resolver was scanned, and every qualifying host was queued unless the buffer refused it |
| ScanHistory.ReportedAsJudged | go-bridge/slipnet-dns/scanner.go:1018-1027 | in every run each result reported is the verdict that the run itself gave that host's test |
| ScanHistory.ListedAsFound | go-bridge/slipnet-dns/scanner.go:1080-1100 | in every run a resolver is listed as compatible, or as working, only for the score its own scan came to |
| ScanHistory.TestsAreTried | go-bridge/slipnet-dns/scanner.go:1011-1027 | in every run the tests counted, passed and given up follow those that ended, ended well, and were given up for an interrupt or for want of a port |
| ScanHistory.FinalCounts | go-bridge/slipnet-dns/scanner.go:1080-1152 | in a finished run each of the three statuses is counted as often as a scan ended with it, and `passed` is the number of tests that ended well |
| ScanHistory.FinalLists | go-bridge/slipnet-dns/scanner.go:1092-1109 | an uninterrupted finished run has an outcome for every resolver; compatible are exactly those with a score, working exactly those whose score is at least the threshold as well |
| ScanOverflow.RefusalIff | go-bridge/slipnet-dns/scanner.go:1099-1107 | the buffer can refuse a host, in some schedule and then also in one that runs to its end without an interrupt, if and only if end-to-end tests are on, there are more than 200 resolvers, the threshold is at most 6 and the concurrency is positive |
| ScanOverflow.AllQueuedIff | go-bridge/slipnet-dns/scanner.go:1092-1109 | with end-to-end tests on, every complete, uninterrupted run queues each host that qualifies if and only if there are at most 200 resolvers, the threshold is above 6, or the concurrency is zero |
| ScanOverflow.CarriedOn | go-bridge/slipnet-dns/scanner.go:1057-1152 | any run can be carried on to its end without an interrupt, and a refused host stays refused |
| ScanProgress.NeverBlocks | go-bridge/slipnet-dns/scanner.go:1057-1152 | an unfinished run, whatever has happened, has a next step that does not wait for the user (given a semaphore slot, or nothing to scan) |
| ScanProgress.WaitsIff | go-bridge/slipnet-dns/scanner.go:990-1152 | in every run: a scanner waits exactly while another is in the critical section, a worker while all hosts sent are received and the channel is open, the dispatcher while `concurrency` scanners hold a slot, then for the scanners and for the workers |
| ScanProgress.NoSlotBlocks | go-bridge/slipnet-dns/scanner.go:1058-1066 | that condition is exact: with `concurrency` 0 and something to scan, the first send on the semaphore blocks for good, interrupt or not |
| ScanProgress.RankFalls | go-bridge/slipnet-dns/scanner.go:981-1152 | every step lowers a rank of the state |
| ScanProgress.RunsAreShort | go-bridge/slipnet-dns/scanner.go:981-1152 | no run takes more than 23 steps a resolver, one a worker, and seven |
| ScanProgress.EveryRunFinishes | go-bridge/slipnet-dns/scanner.go:1139-1152 | a run carried on as far as it goes ends with everything drained and joined |
| ScanInterrupt.AfterInterrupt | go-bridge/slipnet-dns/scanner.go:1044-1079 | after an interrupt, in every continuation: no new resolver is started, at most `concurrency` more scans are counted, at most one more host is queued, at most one more test a worker is counted |
| DnsName.EncodeDNSName | go-bridge/slipnet-dns/scanner.go:328-342 | the loop produces the wire form of the name's cleaned labels and the root |
| DnsName.EncodedSize | go-bridge/slipnet-dns/scanner.go:328-342 | an encoded name is at most two bytes longer than its text |
| DnsName.LabelsOnWire | go-bridge/slipnet-dns/scanner.go:328-342 | the labels sent are the pieces between dots that are not empty, each up to its 63rd byte |
| DnsName.SkipDNSName | go-bridge/slipnet-dns/scanner.go:429-441 | the loop returns the offset behind the name, on any bytes, in range or not |
| DnsName.SkipLandsBehind | go-bridge/slipnet-dns/scanner.go:429-441 | on a name in a record, compressed or not, that is exactly the byte behind it |
| DnsName.SkipSpelled | go-bridge/slipnet-dns/scanner.go:429-441 | on every name of the grammar skipping passes the labels up to the first pointer, and that pointer or the root |
| DnsName.DecodeDNSName | go-bridge/slipnet-dns/scanner.go:443-471 | the loop terminates on every packet and offset and returns the joined labels of the guarded walk |
| DnsName.DecodeSpelled | go-bridge/slipnet-dns/scanner.go:443-471 | whenever the grammar of section 4.1.4 of RFC 1035 has a finite reading at an offset, decoding gives exactly its labels; the visited guard never fires on it |
| DnsName.CompressedDecodes | go-bridge/slipnet-dns/scanner.go:455-462 | labels followed by the two bytes of a pointer to an offset decode to those labels and then the ones spelled at that offset |
| DnsName.CutOffDecodes | go-bridge/slipnet-dns/scanner.go:455-466 | a name that the packet breaks off in gives the labels before the break |
| DnsName.GuardFiresIffEndless | go-bridge/slipnet-dns/scanner.go:446-450 | on any packet the visited guard fires exactly when the walk along labels and pointers would never end |
| DnsName.NameRoundTrip | go-bridge/slipnet-dns/scanner.go:328-342 | an encoded name, placed anywhere in any packet, decodes to its labels and is skipped exactly; the text comes back unchanged if and only if it is empty or every label has 1 to 63 bytes |
| DnsMessage.HasOPTRecord | go-bridge/slipnet-dns/scanner.go:355-398 | the three loops, on any bytes and without leaving them, compute the walk that the next row is about |
| DnsMessage.OptIsFound | go-bridge/slipnet-dns/scanner.go:355-398 | in a packet that starts with a well-formed message, true if and only if the additional section has a type-41 record |
| DnsMessage.ExtractNSHost | go-bridge/slipnet-dns/scanner.go:400-427 | the loops return the name decoded at the RDATA found, or nothing, on any bytes |
| DnsMessage.NsIsExtracted | go-bridge/slipnet-dns/scanner.go:400-427 | in a well-formed message that RDATA is the first non-empty NS answer's, and its name, pointers followed, is what comes out |
| DnsMessage.CompressedNsIsExtracted | go-bridge/slipnet-dns/scanner.go:400-427 | RDATA that ends in a pointer gives its own labels and those of the name pointed to |
| DnsMessage.NothingIsExtracted | go-bridge/slipnet-dns/scanner.go:400-427 | without a non-empty NS (TXT) answer there is no host (no data) |
| DnsMessage.ExtractTXTRawData | go-bridge/slipnet-dns/scanner.go:607-648 | the loops return the character-strings of the RDATA found, or nothing, on any bytes |
| DnsMessage.DataIsFound | go-bridge/slipnet-dns/scanner.go:622-647 | in a well-formed message the RDATA found is that of the first non-empty answer of the type, and nothing is found exactly when there is none |
| DnsMessage.TxtIsExtracted | go-bridge/slipnet-dns/scanner.go:607-648 | for the first non-empty TXT answer the result is the concatenation of its character-strings, without a last one that overruns the RDATA |
| DnsMessage.TruncatedData | go-bridge/slipnet-dns/scanner.go:607-648 | any response at all, cut off anywhere behind its header, yields the same RDATA and TXT data if the RDATA is still whole, and none otherwise |
| ProbeQuery.BuildEDNS0OPT | go-bridge/slipnet-dns/scanner.go:344-353 | the eleven bytes are an OPT record of section 6.1.2 of RFC 6891 with the payload size as class |
| ProbeQuery.BuildQuery | go-bridge/slipnet-dns/scanner.go:289-313 | the packet is the wire form of a one-question message with the OPT record, if any, in the additional section |
| ProbeQuery.QueryWire | go-bridge/slipnet-dns/scanner.go:289-313 | the packet, byte by byte, is the wire form of the message |
| ProbeQuery.QueryReadsBack | go-bridge/slipnet-dns/scanner.go:289-313 | read back by this package's own parsers, a query yields the name asked for and an OPT record exactly when one was put in |
| ProbeQuery.SplitLabels | go-bridge/slipnet-dns/scanner.go:514-524 | the loop cuts the text into the pieces the next row describes |
| Split.PiecesShape | go-bridge/slipnet-dns/scanner.go:514-524 | the pieces, of this loop and of `multi` alike, join to the text, none is empty or above the size, and all are full but perhaps the last |
| ProbeQuery.TunnelRealismQuery | go-bridge/slipnet-dns/scanner.go:195-226 | the query name is the base32 of as many random bytes as the budget allows, in labels of 57, before the domain |
| ProbeQuery.ProbeNameReads | go-bridge/slipnet-dns/scanner.go:220-226 | the first labels of the query name decode to the random bytes, the others are the domain's |
| ProbeQuery.TunnelRealismPacket | go-bridge/slipnet-dns/scanner.go:195-226 | the packet made of that query, and its size within the budget whenever the next row's condition holds |
| ProbeQuery.ProbeFits | go-bridge/slipnet-dns/scanner.go:199-218 | whenever querySize is at least 50 and at least the domain length plus 27, the whole packet that dnsQuery builds fits it, whatever the domain |
| ProbeQuery.ProbeFitsExactly | go-bridge/slipnet-dns/scanner.go:199-218 | for a domain of proper labels the packet fits if and only if querySize is at least the domain length plus 27 |
| ProbeQuery.BudgetIsSpent | go-bridge/slipnet-dns/scanner.go:199-218 | a scaled probe uses at least eight ninths of the bytes left to it, but for two |
| ProbeQuery.UnscaledProbeSize | go-bridge/slipnet-dns/scanner.go:199-218 | without a budget, or with 198 bytes more than the domain, the packet carries 100 random bytes and has 181 bytes more than the domain |
| Base32.Base32Encode | go-bridge/slipnet-dns/scanner.go:494-512 | although the accumulator is never masked and wraps at 64 bits, the loop produces the five-bit groups of the bit string in the alphabet, zero-filled at the end (section 6 of RFC 4648) |
| Base32.LowBitsSurvive | go-bridge/slipnet-dns/scanner.go:498-500 | shifting a byte into the wrapped accumulator keeps the waiting bits and appends the byte's |
| Base32.LetterIsInAlphabet | go-bridge/slipnet-dns/scanner.go:492 | the letter of an index is the alphabet's |
| Base32.DecodingInverts | go-bridge/slipnet-dns/scanner.go:494-512 | decoding the output recovers the input, at any length |
| Base32.EncodingIsInjective | go-bridge/slipnet-dns/scanner.go:494-512 | no two inputs share an output |
| Base32.EncodingLength | go-bridge/slipnet-dns/scanner.go:494-512 | the output has ceil(8n/5) letters |
| ProbeLoop.RunProbes | go-bridge/slipnet-dns/scanner.go:795-823 | the early-exit loop: never a pass too few even when cut short, otherwise the verdict of all the probes, no probe after a halt or once the verdict is certain |
| ProbeLoop.Settle | go-bridge/slipnet-dns/scanner.go:699-726 | the clamps and the per-probe timeout: the threshold asked for is kept if it is in range and the time allows 200 ms for each pass, else 2 or the most the time allows; each probe gets the whole share of the time; the passes fit it if and only if it is 200 ms or more; more passes than probes are asked for if and only if there is one probe, the threshold asked for is not 1, and the timeout is 400 ms or more |
| ProbeLoop.NeededProbesFit | go-bridge/slipnet-dns/scanner.go:702-726 | passThreshold times the per-probe timeout is within the resolver's time if and only if that time is 200 ms or more |
| ProbeLoop.NobodyVerifiesIff | go-bridge/slipnet-dns/scanner.go:699-713 | no outcome of the probes verifies a resolver if and only if there is one probe, the threshold asked for is not 1, and the timeout is 400 ms or more |
| WebSocketFrame.WriteFrame | go-bridge/slipnet-dns/ssh_transport.go:357-393 | the writer emits exactly the frame bytes for its opcode, mask and payload |
| WebSocketFrame.WriteWSBinaryFrame | go-bridge/slipnet-dns/vless.go:403-434 | vless.go's writer emits the same bytes as the other with opcode binary, mask for mask |
| WebSocketFrame.ReadFrame | go-bridge/slipnet-dns/ssh_transport.go:311-355 | the stepwise reader returns the frame (or io.ReadFull's error) found by position and leaves exactly what follows it |
| WebSocketFrame.ReadInvertsWrite | go-bridge/slipnet-dns/ssh_transport.go:311-393 | reading a written frame, with anything behind it, gives its opcode and payload and leaves the rest |
| WebSocketFrame.PlainFrameReads | go-bridge/slipnet-dns/ssh_transport.go:311-355 | a server's frame, unmasked, final or not, in each of the three length forms, reads as its opcode and payload and leaves the rest (section 5.1 of RFC 6455) |
| WebSocketFrame.PartIsBroken | go-bridge/slipnet-dns/ssh_transport.go:311-355 | a frame that breaks off is io.EOF if it does so between two fields, io.ErrUnexpectedEOF inside one |
| WebSocketFrame.WrittenIsStandard | go-bridge/slipnet-dns/ssh_transport.go:357-393 | what is written is final, has no reserved bit and is masked: each bit of the payload is combined with its bit of the mask in front (sections 5.1 to 5.3) |
| WebSocketFrame.ParseFrameExtends | go-bridge/slipnet-dns/ssh_transport.go:311-355 | a frame that can be read is not changed by bytes that arrive later |
| WebSocketFrame.WriterIsShortest | go-bridge/slipnet-dns/ssh_transport.go:366-375 | no masked frame that reads back as the payload is shorter: the shortest of the three length forms is used (section 5.2 of RFC 6455) |
| WebSocketFrame.ReadWSFrame | go-bridge/slipnet-dns/vless.go:436-493 | the second reader, with its size limit and its handling of close, ping and pong, and what it leaves on the stream |
| WebSocketFrame.ReadersAgree | go-bridge/slipnet-dns/vless.go:469-492 | the two readers hand over the same bytes for a written frame if and only if it is within 16 MiB, is no close frame, and is no ping or pong with a payload |
| WebSocketFrame.ReadersAgreeOnPlain | go-bridge/slipnet-dns/vless.go:436-493 | what readWSFrame makes of every server frame, and leaves, by opcode and size |
| WsConn.Conn.Read | go-bridge/slipnet-dns/ssh_transport.go:262-292 | any buffer size: the bytes returned extend the bytes delivered; nothing is read while bytes are buffered, else frames up to the first that carries data; errors are the close frame's or the reader's |
| WsConn.Conn.HandleFrame | go-bridge/slipnet-dns/ssh_transport.go:271-290 | one turn of the loop keeps delivered bytes plus buffer equal to the data read, and pongs written equal to pings read, payload for payload |
| WsConn.Conn.Write | go-bridge/slipnet-dns/ssh_transport.go:294-302 | every non-empty Write is one binary frame, and the bytes offered grow by exactly it |
| WsConn.ParsedIsLog | go-bridge/slipnet-dns/ssh_transport.go:311-393 | frames read off the wire form of a log of sent frames are that log's, in order, from the first, and what is left is the wire form of the others |
| WsConn.Received | go-bridge/slipnet-dns/ssh_transport.go:247-393 | from any peer, masking client or plain server, whole frames or fragments: the frames seen are those sent, in order, the bytes handed out or held are what their data frames carry, and each ping has its pong |
| WsConn.Delivery | go-bridge/slipnet-dns/ssh_transport.go:247-393 | two connections back to back, whatever part of the bytes has arrived: the reader has seen the writer's frames in order, and what it handed out or holds is a prefix of what was written, all of it once all frames are read |
| ClientHello.FindSNIHostnameOffset | go-bridge/slipnet-dns/sni_fragment.go:96-149 | the parser, on any bytes, computes the walk that the next row is about, within bounds |
| ClientHello.HostIsFound | go-bridge/slipnet-dns/sni_fragment.go:96-149 | for every well-formed ClientHello: the first byte of the first server_name's host, its length before it, or -1 exactly when there is no server_name |
| ClientHello.SplitClientHello | go-bridge/slipnet-dns/sni_fragment.go:42-75 | each strategy, with its fallback, yields the chunks the next rows are about |
| ClientHello.ChunksJoin | go-bridge/slipnet-dns/sni_fragment.go:42-92 | under every strategy the chunks join to the data |
| ClientHello.SplitMulti | go-bridge/slipnet-dns/sni_fragment.go:82-92 | the loop by index makes the same cuts as splitLabels; its chunks join to the data and have 1 to chunkSize bytes each |
| ClientHello.FoundInPartIff | go-bridge/slipnet-dns/sni_fragment.go:96-149 | in any front of any data the parser finds what it finds in the whole, if and only if that lies in the front |
| ClientHello.CutIsInsideHost | go-bridge/slipnet-dns/sni_fragment.go:44-67 | where the parser has found a host, as the row on HostIsFound says it does, `sni_split` cuts strictly inside it if and only if it has at least two bytes |
| ClientHello.SniSplitCutsHost | go-bridge/slipnet-dns/sni_fragment.go:44-65 | with a host of two bytes or more found, the `sni_split` chunks are two and the first ends in the middle of the host |
| ClientHello.HelloIsCutInHost | go-bridge/slipnet-dns/sni_fragment.go:42-75 | so for every well-formed ClientHello with such a host |
| ClientHello.SniSplitOnBadLength | go-bridge/slipnet-dns/sni_fragment.go:48-63 | with an announced host length of zero the rest is halved; a cut past the end leaves one byte |
| ClientHello.HalvesOtherwise | go-bridge/slipnet-dns/sni_fragment.go:65-80 | without a host to cut, and for every other strategy but `multi`, the two chunks are halves |
| FragmentConn.Wrapper.Write | go-bridge/slipnet-dns/sni_fragment.go:18-26 | over any run of writes, while none fails, the connection receives exactly their concatenation in the planned segments and each call reports the full length; after a failure it has received a prefix |
| FragmentConn.FragmentWrite | go-bridge/slipnet-dns/sni_fragment.go:28-39 | the segments go out in order until one is refused |
| FragmentConn.OneWriteIsCut | go-bridge/slipnet-dns/sni_fragment.go:18-39 | at most one write of a run is cut, the first ClientHello: into two chunks, or with `multi` into chunks of 1 to 24 bytes |
| FragmentConn.HelloIsRecognised | go-bridge/slipnet-dns/sni_fragment.go:18-26 | every well-formed ClientHello is taken for one |
| FragmentConn.OtherWritesAreWhole | go-bridge/slipnet-dns/sni_fragment.go:18-26 | writes that are no handshake record with a ClientHello go out as they are |
| FragmentConn.HostIsCutInPlan | go-bridge/slipnet-dns/sni_fragment.go:18-65 | under `sni_split` the first ClientHello of a run goes out in two segments, the first of which ends strictly inside its host; all other writes are whole |
| FragmentConn.PlanKeepsBytes | go-bridge/slipnet-dns/sni_fragment.go:18-39 | the planned segments join to the bytes written |
| TunnelRegistry.Registry.Start | go-bridge/slipnet_bridge.go:90-94 | the locked part of a start: next id, new entry |
| TunnelRegistry.Registry.StartExported | go-bridge/slipnet_bridge.go:74-114 | a bad configuration changes nothing and returns -1, a good one registers, launches and returns the id as a C int |
| TunnelRegistry.Registry.Stop | go-bridge/slipnet_bridge.go:160-168 | the loop over the map cancels and removes every registered tunnel |
| TunnelRegistry.Registry.StopTunnel | go-bridge/slipnet_bridge.go:173-181 | one tunnel is cancelled and removed, an unknown id ignored |
| TunnelRegistry.Registry.Finish | go-bridge/slipnet_bridge.go:96-103 | a goroutine's deferred removal |
| TunnelRegistry.InvKept | go-bridge/slipnet_bridge.go:65-181 | every critical section and goroutine step keeps the registry invariant |
| TunnelRegistry.RegistryIsSound | go-bridge/slipnet_bridge.go:65-181 | in every interleaving a running goroutine is registered or cancelled, and a registered tunnel is as it was started, not cancelled and not gone |
| TunnelRegistry.IdsAreNeverReused | go-bridge/slipnet_bridge.go:90-92 | two starts of a run get different ids, and the new one was never used |
| TunnelRegistry.StartAddsOne | go-bridge/slipnet_bridge.go:90-94 | a start makes one tunnel, as asked for, registered and not cancelled, and leaves the others alone |
| TunnelRegistry.StopTouchesOnlyItself | go-bridge/slipnet_bridge.go:173-181 | stopping one tunnel cancels and removes it; every other stays registered and uncancelled |
| TunnelRegistry.FinishTouchesOnlyItself | go-bridge/slipnet_bridge.go:100-103 | a finishing goroutine removes no other tunnel's entry |
| TunnelRegistry.StopReachesEveryone | go-bridge/slipnet_bridge.go:160-168 | after SlipNetStop nothing is registered and every goroutine started before can end |
| TunnelRegistry.HandleStopsItsTunnel | go-bridge/slipnet_bridge.go:113-180 | the C int a start returns stops its tunnel if and only if the id is below 2^31 |
| TunnelRegistry.LateHandleNamesAnother | go-bridge/slipnet_bridge.go:113-180 | after any number of starts from 2^32 on, stopping by the last handle leaves the last tunnel and removes an earlier one if and only if the low 32 bits of the id are a positive C int |
| EndpointList.ParseKotlin | android/SmsBootstrapReceiver.kt:286-344 | the Android loop returns the entries read, rendered, or null for none |
| EndpointList.ParseSwift | ios/ShieldPacketTunnel/AcousticReceiver.swift:831-884 | the iOS loop returns the entries before the first whose address is not UTF-8, rendered, or nil for none |
| EndpointList.ListRoundTrip | android/SmsBootstrapReceiver.kt:286-344 | every list of up to 64 endpoints with addresses of 1 to 128 bytes is recovered from its wire form, on iOS if its addresses are text |
| EndpointList.TruncatedListReads | android/SmsBootstrapReceiver.kt:311-322 | cut off anywhere behind its header a list reads as exactly the entries that are still whole |
| EndpointList.PayloadReads | android/SmsBootstrapReceiver.kt:286-344 | as many entries as announced are read, whatever follows; or those before the first that announces an address of no or more than 128 bytes |
| EndpointList.BadHeaderReadsNothing | android/SmsBootstrapReceiver.kt:286-306 | another version, a count above 64 or a short header, and nothing is read |
| EndpointList.RenderShape | android/SmsBootstrapReceiver.kt:324-340 | type, address and port stand in the text in order, the port in digits that read back as it |
| EndpointList.RenderIsInjective | android/SmsBootstrapReceiver.kt:324-340 | no two endpoints of the six known types have the same text |
| EndpointList.ParsersAgreeIff | ios/ShieldPacketTunnel/AcousticReceiver.swift:852-884 | on any payload the two parsers agree if and only if every address read is valid UTF-8 |
| ServiceInfo.BuildServiceInfo | android/NanBridge.kt:458-478 | version, key and as much of the NUL-joined endpoints as 255 bytes hold; an overflow if the key does not fit |
| ServiceInfo.ParseServiceInfo | android/NanBridge.kt:485-523 | the key and the non-blank pieces, or null |
| ServiceInfo.PeerGetsFront | android/NanBridge.kt:458-523 | for a key of 1 to 96 bytes a peer gets that key, a front of the endpoint list and at most one truncated endpoint after it; all of the list if and only if it fits |
| ServiceInfo.KeyIsAcceptedIff | android/NanBridge.kt:459-508 | keys up to 253 bytes are published, but a peer accepts the result if and only if the key has at most 96 and something was published |
| ServiceInfo.PublishedBytes | android/NanBridge.kt:458-478 | version 1, the key behind its length, a front of the joined endpoints, and all of it below 255 bytes |
| ServiceInfo.BlankIsDropped | android/NanBridge.kt:510-520 | a piece is dropped if and only if it is nothing but blanks |
| SocksVless.ParseOneRead | go-bridge/slipnet-dns/vless.go:214-249 | the parser of one 258-byte read |
| SocksVless.ParseStream | go-bridge/slipnet-dns/ssh_native.go:228-270 | the streaming parser, and what it leaves on the stream |
| SocksVless.StreamReadsRequest | go-bridge/slipnet-dns/ssh_native.go:228-270 | on a well-formed CONNECT request with anything behind it: its host, its port, and what was behind |
| SocksVless.OneReadIffWhole | go-bridge/slipnet-dns/vless.go:215-249 | given the first k bytes of a request, the one-read parser yields a destination if and only if they are the whole request and at most 258 bytes; then it is the right one |
| SocksVless.ParsersAgreeIff | go-bridge/slipnet-dns/vless.go:214-249 | the two parsers agree on a request if and only if its domain, if it has one, has at most 251 bytes |
| SocksVless.OneReadRefuses | go-bridge/slipnet-dns/vless.go:215-245 | code 7 for what is too short, of another version or no CONNECT, and for nothing else; unknown address types are dropped |
| SocksVless.StreamRefuses | go-bridge/slipnet-dns/ssh_native.go:228-264 | code 7 for no CONNECT, 8 for an unknown address type, whatever the version byte |
| SocksVless.DottedReads | go-bridge/slipnet-dns/ssh_native.go:239-244 | an IPv4 address is printed as text that reads back as its four bytes |
| SocksVless.BuildVlessHeader | go-bridge/slipnet-dns/vless.go:372-397 | the header bytes, by what ParseIP makes of the host text |
| SocksVless.DestinationArrives | go-bridge/slipnet-dns/vless.go:372-397 | UUID and port always come out of the header again, and the destination if and only if it is no IPv4-mapped IPv6 address and no domain that reads as an address |
| TunnelFrame.Reader.ReadExact | extensions/shared/webtransport_tunnel.ts:148-162 | the loop gathers n bytes chunk by chunk, null for nothing, a short array at the end of the stream |
| TunnelFrame.ReadLosesNothingIff | extensions/shared/webtransport_tunnel.ts:154-160 | reading n bytes that are there loses nothing if and only if a chunk ends where they end |
| TunnelFrame.RestIsBehind | extensions/shared/webtransport_tunnel.ts:148-162 | what a read leaves are the chunks behind the first that together hold its bytes |
| TunnelFrame.EncodeFrame | extensions/shared/webtransport_tunnel.ts:99-110 | length, HMAC and payload, set in place |
| TunnelFrame.DecodeFrame | extensions/shared/webtransport_tunnel.ts:112-137 | the decoder's payload, null or exception, and the chunks it leaves |
| TunnelFrame.DecodesInOrderIff | extensions/shared/webtransport_tunnel.ts:112-162 | however the stream is cut into chunks, repeated decoding yields all payloads in order, zero-length ones included, and then null, if and only if a chunk ends at every header end and every payload end |
| TunnelFrame.SingleChunkDecodesIff | extensions/shared/webtransport_tunnel.ts:403-413 | a frame that arrives as one chunk, as on the WebSocket path, is decoded if and only if its payload is empty; otherwise the result is null |
| TunnelFrame.PayloadIsAuthentic | extensions/shared/webtransport_tunnel.ts:112-137 | on any stream, nothing is delivered but a payload whose own tag stands in the header |
| TunnelFrame.TagDecides | extensions/shared/webtransport_tunnel.ts:126-136 | a whole, aligned frame under any tag is delivered if the tag is the payload's, and thrown out otherwise |
| TunnelFrame.TooLongIsThrown | extensions/shared/webtransport_tunnel.ts:112-125 | a frame that announces more than 1 MiB is thrown out |
| TunnelFrame.CutShort | extensions/shared/webtransport_tunnel.ts:112-128 | a stream that ends inside the length is thrown out, one that ends in the tag or behind it gives null |

## Left out

- Sockets, TLS, SSH and HTTP handshakes, DNS transport, timers, signals and pauses between segments: reads are given byte sequences, outcomes and interrupts are free choices of a step or parameters.
- WebSocketFrame.ReadFrame: an announced length beyond what Go can allocate makes the original panic; the model reports the failed read that an unlimited allocation would end in.
- WebSocketFrame.ReadHeader: the header steps, which both readers spell out in the source, are one method here.
- WsConn.Conn.WriteFrame: the mutex that serialises writers is not modelled; a frame is written in one step.
- RawConn.Conn.Write: a connection accepts bytes until it breaks and none after; other partial-write behaviour is not modelled.
- ByteStream.ByteReader.ReadFull: how the network cuts the incoming bytes is not visible behind io.ReadFull, so the reader is the bytes still to come.
- The scan's console output and its mutex, the second interrupt (which exits the process), and the pre-filter and worker pool of RunVerifyScanner; ScanResolvers, a simpler form of the pipeline.
- ScanPipeline.TestsKept: recording a result, bumping the pass counter and listing the host happen under one mutex in the source and are one step here.
- testEDNS0 and testNXDOMAIN: loops over query outcomes; they read the fourth byte of a response without a length check, so they need responses of at least four bytes.
- extractTXTData, the string form of extractTXTRawData; SlipNetStatus, which lists the map; the SOCKS5 greeting and password phase; parseVlessURI.
- TunnelRegistry.IdsAreNeverReused: the counter is unbounded here; Go's 64-bit counter would wrap after 2^63 starts.
- HMAC-SHA256, AES-GCM and SHA-256: the frame codec takes the HMAC as any function with 32-byte results.
- EndpointList.ParseKotlin: UTF-8 decoding is a parameter, one decoder that replaces and one that refuses, agreeing on valid text.
- SocksVless.BuildVlessHeader: net.ParseIP and the text of IPv6 addresses are parameters, with parsing the inverse of printing.
- ServiceInfo.ParseServiceInfo: text is ASCII; UTF-8 decoding and blanks outside ASCII are not modelled.
- ServiceInfo.PeerGetsFront: text is ASCII; a cut inside a longer UTF-8 character is not modelled.
- WebTransportTunnel's reconnect timers, the obfuscator, the popups, battery selectors, menus, and the Python, Rust, C and C++ parts.
