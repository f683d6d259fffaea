# Verified models of the lab's codecs, schedulers and protocols

This project models the parts of the repository whose behaviour is decided by
logic rather than by the operating system, and proves what they are for. Each
source file has one or more Dafny modules. Code that changes state in place is a
class (or a method with loops) tied to a function on values; the properties are
then lemmas about those functions, over all inputs, all chunkings, all
interleavings or all runs.

| part | source | modules |
|---|---|---|
| pcapng parser and encoder | `app/src/lib/pcapng.ts` | `Pcapng`, `PcapngChunks`, `PcapngEncode`, `PcapngRoundTrip`, `PcapngForeign` |
| console colorizer | `app/src/lib/consoleColorizer.ts` | `LineColors`, `StreamColors`, `StreamColorsProofs`, `ColorsShown` |
| source-MAC attribution | `supervisor/internal/dirstat/` | `DirStat`, `DirStatProofs`, `DirStatHistory`, `DirStatShutdown` |
| NAT DHCP server | `supervisor/internal/extnet/` | `Dhcp`, `DhcpLeases`, `DhcpServer`, `DhcpWire` |
| RPC client and transport | `app/src/lib/supervisor.ts`, `wsTransport.ts` | `Rpc`, `RpcProofs`, `RpcHistory` |
| toasts | `app/src/lib/labStore.svelte.ts` | `Toasts`, `ToastsProofs`, `ToastsShown` |
| WebSocket framing and requests | `tools/iolab-launcher/wsclient.go` | `WsFrames`, `WsRequest`, `WsWire` |
| tiled panes | `app/src/lib/consoleUiStore.svelte.ts` | `Tiling`, `TilingShown` |
| console scripting | `supervisor/internal/consolescript/consolescript.go` | `ConsoleScript`, `ConsoleScriptProofs`, `ConsoleDialogue` |
| port contract | `tools/iolab-launcher/macos_ports.go` | `PortContract`, `PortContractProofs`, `PortContractText` |

`Wrappers`, `Bytes`, `Decimal` and `Text` hold what they share. `dafny verify
dfyconfig.toml` checks everything.

What the proofs found, beyond what the code promises:

- The pcapng parser is chunk-invariant exactly as long as no block length is
  corrupt, or the corrupt header ends the stream (`PcapngChunks.ChunkInvariance`):
  the whole buffer is thrown away, so a byte that arrives with the header is lost
  and a byte that arrives after it is kept. `encodePcapng` itself writes packets
  that the parser drops, those whose block exceeds 8 MiB
  (`PcapngRoundTrip.RoundTripExactly`).
- The readers of the classifier take the time before they take its lock, so times
  can run backwards there; a new conflict entry is then evicted at once exactly
  when the list is full of younger entries (`DirStatProofs.EvictedAtOnceExactly`, with
  such a run in `DirStatProofs.FloodLoses`).
  The report's own guard against conflicted MACs and the same-MAC clear branches
  never act (`DirStatProofs.ReportsOwn`, `DirStatProofs.ClearBranchesDead`).
- The IP and UDP length fields wrap for payloads over 65507 bytes
  (`DhcpServer.LengthFields`); the server's own frames are
  332 bytes and their fields agree (`DhcpServer.ReplyLengths`).
- A call made while the connection is down is both transmitted and rejected by the
  reconnect (`RpcProofs.QueuedIsSentAndRejected`).
- A command that ends in white space, or holds a line end, can never be echoed as
  the console driver expects, so running it never succeeds; every other command can
  succeed (`ConsoleScriptProofs.RunnableExactly`). In config mode the empty command
  is out too, as `do ` ends in white space (`ConsoleScriptProofs.SuccessNeedsEcho`).
- `expectedDarwinPortForwardRules` reads a range start of 0 as the default, the
  printer writes it as 0: what is printed for q matches p exactly when q is p with
  its zero starts replaced (`PortContractProofs.PrintedMatchesExactly`). Its reader's
  complaint of a field outside a list item is never made
  (`PortContractText.NeverOutsideItem`).

## Model

| member | source | states |
|---|---|---|
| Pcapng.PcapngParser.Push | app/src/lib/pcapng.ts:54-121 | the in-place parser leaves and returns what draining the merged buffer means; a read outside the buffer throws and loses nothing |
| Pcapng.PcapngParser.DrainBuffer | app/src/lib/pcapng.ts:66-121 | the block loop with its cursor computes `Drain`: packets in order, leftover bytes, byte order, tick rate, index and time origin |
| Pcapng.PcapngParser.PeekHeader | app/src/lib/pcapng.ts:71-83 | type and length of the block at the cursor, in the byte order a section header has just revealed |
| Pcapng.PcapngParser.ParseIdb | app/src/lib/pcapng.ts:123-140 | the option scan sets the tick rate of the last if_tsresol, and changes nothing else |
| Pcapng.PcapngParser.ParseEpb | app/src/lib/pcapng.ts:142-152 | one packet from the enhanced block's fields, or a throw without effect on the index |
| Pcapng.PcapngParser.ParseSpb | app/src/lib/pcapng.ts:154-161 | one packet at time zero, its length inferred from the block's, never negative and never outside the block |
| Pcapng.Palindrome | app/src/lib/pcapng.ts:73-76 | a section header's type reads the same in both byte orders, so it is found before the order is known |
| Pcapng.PeekTwice | app/src/lib/pcapng.ts:76-83 | peeking an incomplete header again, its byte order already taken over, changes neither order nor length |
| PcapngChunks.SoundNeverThrows | app/src/lib/pcapng.ts:142-175 | when every packet block holds its own data, no read leaves the buffer |
| PcapngChunks.DrainAppend | app/src/lib/pcapng.ts:70-120 | draining a and then the leftover with b behind it is draining a + b, or, after a corrupt length, loses b as well |
| PcapngChunks.ChunksAsOne | app/src/lib/pcapng.ts:54-121 | while no length is corrupt, pushing chunk by chunk gives the packets, leftover and decoder of one push of the whole |
| PcapngChunks.OneByteLate | app/src/lib/pcapng.ts:85-91 | for every stream with bytes behind its corrupt header there is a cutting that ends differently from the whole push |
| PcapngChunks.ChunkInvariance | app/src/lib/pcapng.ts:54-121 | every cutting of a sound stream, either byte order and repeated headers included, behaves as one push, if and only if nothing is lost to a corrupt length or only the twelve bytes of its header are |
| PcapngChunks.ZerosLose | app/src/lib/pcapng.ts:85-91 | thirteen zero bytes are a stream for which the cutting matters |
| PcapngEncode.EncodePcapng | app/src/lib/pcapng.ts:197-255 | the buffer sized up front is filled exactly, with the section header, the interface and one padded block per packet |
| PcapngEncode.TotalSize | app/src/lib/pcapng.ts:201-205 | the precomputed size is the size of what is written |
| PcapngRoundTrip.DrainFiles | app/src/lib/pcapng.ts:54-121 | encoded files back to back drain to all their packets with nothing left, for every decoder: the first header sets the byte order, the tick rate (which no header resets), index and time origin are the decoder's own |
| PcapngRoundTrip.RoundTrip | app/src/lib/pcapng.ts:142-255 | any files fed back to back in any chunks come back as one packet list: same data in order, indices 1..n, one time origin, and a time stamp is max(0, floor(ts)) exactly when that fits the two 32-bit halves |
| PcapngRoundTrip.RoundTripExactly | app/src/lib/pcapng.ts:85-91 | a saved file reads back as what was saved if and only if no packet's block exceeds 8 MiB |
| PcapngForeign.ForeignFile | app/src/lib/pcapng.ts:54-175 | any file of sections in either byte order, interfaces with options, enhanced, simple and unknown blocks, told byte by byte and cut anywhere, gives exactly the packets of its packet records: numbered from 1, timed in the rate the last interface before them set, relative to the first and never negative, with their data and original length |
| PcapngForeign.LengthDecides | app/src/lib/pcapng.ts:85-91 | a length under 12 or over 8388608 throws away what is buffered, any other that exceeds what is there is waited for |
| PcapngForeign.OptionsRead | app/src/lib/pcapng.ts:123-140 | of an interface's options the last non-empty if_tsresol before the end of options sets the rate, 10^n or, with its high bit set, 2^(n - 128) |
| PcapngForeign.EnhancedRead | app/src/lib/pcapng.ts:142-152 | the five numbers and the data of an enhanced block, in either byte order |
| PcapngForeign.SavedIs | app/src/lib/pcapng.ts:197-255 | what is saved is, byte by byte, a little-endian section of version 1.0, an Ethernet interface and one zero-padded enhanced block per packet |
| LineColors.Owners | app/src/lib/consoleColorizer.ts:106-125 | for any match oracle that respects lastIndex the rule loop terminates, zero-width matches included, and gives each character the least rule with an accepted match over it |
| LineColors.ScanRule | app/src/lib/consoleColorizer.ts:108-124 | one rule's scan claims exactly the free characters its accepted matches cover |
| LineColors.PaintRuns | app/src/lib/consoleColorizer.ts:127-141 | the text written is the line with a colour change wherever the owner changes and a reset at the end |
| LineColors.ColorizeLine | app/src/lib/consoleColorizer.ts:101-142 | the whole function: empty, over-long and ESC-bearing lines unchanged, all others painted by owner |
| LineColors.OwnerUnique | app/src/lib/consoleColorizer.ts:106-125 | the least-rule description determines the owner |
| LineColors.ErasedIsLine | app/src/lib/consoleColorizer.ts:127-141 | without the inserted colour changes the output is the line |
| LineColors.ShownInOwnersColour | app/src/lib/consoleColorizer.ts:127-141 | a terminal shows every character once, in its owner's colour, and is back in the default colour at the end |
| LineColors.StrippedIsLine | app/src/lib/consoleColorizer.ts:101-142 | deleting escape sequences from the text written for an ESC-free line gives the line back |
| StreamColors.ConsoleColorizer.Push | app/src/lib/consoleColorizer.ts:187-246 | the new fields and everything given to the sink, for any chunk and any clock readings; what is shown of it is `ColorsShown.PushShows` |
| StreamColors.ConsoleColorizer.Complete | app/src/lib/consoleColorizer.ts:196-214 | the newline loop: finished lines coloured if untouched, raw if dirty, and the tail behind the last newline; their colours are those of `ColorsShown.PushShows` |
| StreamColors.ConsoleColorizer.Settle | app/src/lib/consoleColorizer.ts:216-245 | the tail goes out raw, goes out as a prompt, or is held under a timer that counts from its first fragment |
| StreamColors.ConsoleColorizer.NoteInput | app/src/lib/consoleColorizer.ts:180-183 | the held tail is released first, and anything but a line end makes the line raw |
| StreamColors.ConsoleColorizer.FlushHeld | app/src/lib/consoleColorizer.ts:255-263 | timer cancelled, held tail given to the sink, nothing when nothing is held |
| StreamColors.ConsoleColorizer.TimerFires | app/src/lib/consoleColorizer.ts:242-245 | the callback disarms itself and flushes |
| StreamColors.ConsoleColorizer.Reset | app/src/lib/consoleColorizer.ts:266-270 | held tail, dirty mark and timer are gone, nothing is written |
| StreamColorsProofs.InvRun | app/src/lib/consoleColorizer.ts:157-278 | in every run the held tail bears no newline and no ESC, is no prompt and belongs to an untouched line; it is non-empty exactly when the timer is armed |
| StreamColorsProofs.Conserved | app/src/lib/consoleColorizer.ts:180-263 | one call loses, invents and reorders nothing: output without inserted colours, then the held tail, grows by the call's input |
| StreamColorsProofs.ConservedRun | app/src/lib/consoleColorizer.ts:180-263 | the same for every interleaving of pushes, keystrokes, flushes and timers |
| StreamColorsProofs.ConservedSinceReset | app/src/lib/consoleColorizer.ts:180-270 | a reset loses exactly the tail held when it came: behind the last one, output and held tail continue from what had been written |
| StreamColorsProofs.ReleasedRaw | app/src/lib/consoleColorizer.ts:255-263 | what a timer or keystroke releases is never coloured: the prompt branch of the flush is dead |
| StreamColorsProofs.RefinesWholeLines | app/src/lib/consoleColorizer.ts:187-246 | pushes alone, however cut as long as no cut leaves a prompt or an ESC at the end, write the coloured body and terminator of each finished line, as a terminal shows it in `ColorsShown.RunShows` |
| StreamColorsProofs.HeldAfter | app/src/lib/consoleColorizer.ts:187-263 | a call that leaves something held began it, or added to it without moving its start, or did nothing to it |
| StreamColorsProofs.DeadlineFromFirstFragment | app/src/lib/consoleColorizer.ts:180-270 | in every interleaving whatever is held is the tail that some push began and all that came since, and its one timer is due the delay after that first fragment, or at the last push when that is later |
| ColorsShown.PushShows | app/src/lib/consoleColorizer.ts:187-246 | from any state, one push shows each character of a finished untouched line in the colour of the first rule with a match over it that splits no word, its terminator in the default colour; the rest of a line partly written raw; a prompt at the end coloured likewise; anything else is held |
| ColorsShown.RunShows | app/src/lib/consoleColorizer.ts:187-246 | under the conditions of RefinesWholeLines the same for every finished line of all the input, whatever the cuts |
| ColorsShown.CoversIs | app/src/lib/consoleColorizer.ts:106-125 | a scan covers a character exactly when a chain of matches, each from where the one before ended and one further when that was empty, reaches one over it that splits no word |
| ColorsShown.OthersMark | app/src/lib/consoleColorizer.ts:180-270 | what keystrokes, flushes, timers and resets do to the mark that a line is partly written |
| ColorsShown.TerminalReads | app/src/lib/consoleColorizer.ts:127-141 | a terminal that knows CSI 39 m and CSI 38;2;r;g;b m reads the written text as the cells these statements speak of |
| DirStat.Classifier.ObserveSource | supervisor/internal/dirstat/dirstat.go:263-335 | the whole new state for any endpoint, MAC and time, which `DirStatHistory` tells by the history of every run |
| DirStat.Classifier.AddConflict | supervisor/internal/dirstat/dirstat.go:221-237 | refresh or append, then drop the oldest entry beyond 32 |
| DirStat.Classifier.ConflictIndex | supervisor/internal/dirstat/dirstat.go:212-219 | the first entry of the MAC, or -1 exactly when there is none |
| DirStat.Classifier.OldestIndex | supervisor/internal/dirstat/dirstat.go:228-236 | the first of the oldest entries |
| DirStat.Classifier.ExpireOld | supervisor/internal/dirstat/dirstat.go:239-252 | candidates and conflicts older than the TTL are gone, all others unchanged |
| DirStat.Classifier.Attribution | supervisor/internal/dirstat/dirstat.go:339-367 | expire, then one entry per endpoint in index order |
| DirStat.Classifier.Count | supervisor/internal/dirstat/dirstat.go:127-132 | one counter goes up by one, attribution sees only the endpoint |
| DirStat.Classifier.constructor | supervisor/internal/dirstat/dirstat.go:160-175 | only endpoints 0 and 1 with a device exist, all unseen |
| DirStatProofs.AlwaysSafe | supervisor/internal/dirstat/dirstat.go:263-335 | in every reachable state the endpoints are never both single on one MAC, no single MAC is in conflict, conflicts are duplicate-free and at most 32 |
| DirStatProofs.ReportsOwn | supervisor/internal/dirstat/dirstat.go:350-364 | so the report's guard never withholds a MAC: each entry is its endpoint's own state |
| DirStatProofs.ClearBranchesDead | supervisor/internal/dirstat/dirstat.go:263-335 | in every reachable state an endpoint single on a MAC neither shares it with the other nor has it in conflict, so the same-MAC clear branches are dead |
| DirStatProofs.EvictsOldest | supervisor/internal/dirstat/dirstat.go:221-237 | with a clock that has not run backwards the new entry survives and what is evicted is no younger than anything kept |
| DirStatProofs.EvictionInRuns | supervisor/internal/dirstat/dirstat.go:221-237 | the same for every conflict of every run with non-decreasing times |
| DirStatProofs.NewEntryEvictedExactly | supervisor/internal/dirstat/dirstat.go:221-237 | on any list of conflicts, with times out of order, the new entry is evicted at once if and only if the list is full and every entry is younger |
| DirStatProofs.EvictedAtOnceExactly | supervisor/internal/dirstat/dirstat.go:263-335 | the same for a conflict in any run of the classifier |
| DirStatProofs.FloodLoses | supervisor/internal/dirstat/dirstat.go:221-237 | a run of 66 sources that loses its 33rd conflict, timed one tick before the others |
| DirStatProofs.SingleStep | supervisor/internal/dirstat/dirstat.go:263-335 | a step ends in single on m exactly when it learns m, or was single on m and gave no reason to doubt it |
| DirStatProofs.SingleExactly | supervisor/internal/dirstat/dirstat.go:263-335 | an endpoint is single on m if and only if it learned m at some step and since then every valid source on it was m or in conflict on arrival, m was not seen on the other endpoint, and no report found it expired (by the times of the sources themselves: `DirStatHistory.SingleByHistory`) |
| DirStatProofs.AmbiguousStep | supervisor/internal/dirstat/dirstat.go:239-252 | ambiguous is left only by a report that finds more than the TTL since the last valid source |
| DirStatProofs.AmbiguousSince | supervisor/internal/dirstat/dirstat.go:263-335 | in every run an ambiguous endpoint's time is that of the last valid source on it |
| DirStatHistory.LastSeenIs | supervisor/internal/dirstat/dirstat.go:319-322 | in every run an endpoint single on m was last seen at the last operation that brought m on it |
| DirStatHistory.SingleByHistory | supervisor/internal/dirstat/dirstat.go:239-335 | an endpoint is single on m if and only if m came to it while it was blank and nobody else had m, and since then only m or a MAC in conflict was heard on it, m was not heard on the other, and every report came within five minutes of the last m |
| DirStatHistory.AmbiguousByHistory | supervisor/internal/dirstat/dirstat.go:239-335 | an endpoint is ambiguous if and only if a second source not in conflict came while it was single on another, and every report since came within five minutes of some source on it |
| DirStatHistory.ConflictsStep | supervisor/internal/dirstat/dirstat.go:221-252 | the conflict list grows by one entry at each clash, loses the oldest beyond 32, at a report those past five minutes, and changes at nothing else |
| DirStatHistory.EndpointsAre | supervisor/internal/dirstat/dirstat.go:127-198 | reported endpoints are those configured with a device and those a valid source or a counted frame named |
| DirStatHistory.ReportIs | supervisor/internal/dirstat/dirstat.go:339-367 | in every run the report has one entry per endpoint in index order, names m exactly when that endpoint is single on m, and calls it ambiguous exactly when it is |
| DirStatShutdown.StepInv | supervisor/internal/dirstat/dirstat.go:446-477 | what every atomic step of a read loop or a Close call keeps |
| DirStatShutdown.SafeShutdown | supervisor/internal/dirstat/dirstat_linux.go:84-102 | in every interleaving a socket is closed only after every read loop has returned, at most once, never under a loop, and a Close that returned after draining has closed all |
| DirStatShutdown.TimeoutLeavesOpen | supervisor/internal/dirstat/dirstat.go:446-457 | calls that only timed out, or have not got past their wait, leave every socket open |
| DirStatShutdown.TimedOutStays | supervisor/internal/dirstat/dirstat.go:450-452 | a timed-out call stays timed out and closes nothing later |
| DirStatShutdown.LoopsEnd | supervisor/internal/dirstat/dirstat_linux.go:151-180 | once stop is closed a read loop takes at most three more steps, however busy its socket |
| Dhcp.DecodePacket | supervisor/internal/extnet/dhcp.go:100-149 | the decoded packet, or the error for a short packet or a bad cookie |
| Dhcp.ScanTlvs | supervisor/internal/extnet/dhcp.go:123-147 | the option loop keeps the last message type and requested address, and stops at the end option or a truncated one |
| Dhcp.Encode | supervisor/internal/extnet/dhcp.go:154-184 | the fixed header and the eight reply options, as bytes, those of `DhcpWire.EncodedBytes` |
| Dhcp.ScanTlvList | supervisor/internal/extnet/dhcp.go:123-147 | options laid out one after the other and terminated are read one after the other, whatever follows |
| Dhcp.DecodeEncoded | supervisor/internal/extnet/dhcp.go:100-184 | decoding an encoded reply returns its xid, flags, addresses, hardware address and message type |
| DhcpLeases.Leaser.Lease | supervisor/internal/extnet/dhcp.go:291-306 | the bound address, binding the next one of the pool on the first request |
| DhcpLeases.MacStringInjective | supervisor/internal/extnet/dhcp.go:294-294 | different hardware addresses have different keys in the lease table |
| DhcpLeases.LeasesRoundRobin | supervisor/internal/extnet/dhcp.go:273-306 | after any requests the table holds exactly the distinct requesters, the k-th at base + k mod pool size |
| DhcpLeases.BoundForEver | supervisor/internal/extnet/dhcp.go:291-297 | later requests never change a binding |
| DhcpLeases.FirstClientsApart | supervisor/internal/extnet/dhcp.go:287-306 | the first pool-size requesters hold distinct addresses inside the pool |
| DhcpServer.IpChecksum | supervisor/internal/extnet/dhcp_linux.go:143-152 | the two loops terminate and compute the complement of the folded word sum |
| DhcpServer.Folded | supervisor/internal/extnet/dhcp_linux.go:148-150 | folding keeps the sum modulo 65535 and gives 0 only for 0 |
| DhcpServer.ChecksumVerifies | supervisor/internal/extnet/dhcp_linux.go:141-152 | for every even-length header of at most 65536 words, storing the result in its zeroed checksum word makes the checksum 0 |
| DhcpServer.BuildFrame | supervisor/internal/extnet/dhcp_linux.go:105-139 | the buffer written in place is the three headers and the payload |
| DhcpServer.FrameSound | supervisor/internal/extnet/dhcp_linux.go:105-139 | the header checksum verifies, the payload sits behind the headers, and a broadcast or address-less reply goes to everybody |
| DhcpServer.LengthFields | supervisor/internal/extnet/dhcp_linux.go:124-135 | the IP and UDP lengths agree with the frame's size exactly when the payload is at most 65507 bytes |
| DhcpServer.ReplyLengths | supervisor/internal/extnet/dhcp_linux.go:54-139 | every reply is a frame of 332 bytes with agreeing length fields |
| DhcpServer.DhcpServer.Consume | supervisor/internal/extnet/dhcp_linux.go:54-66 | the lease table, the reply and whether the frame was taken; every parsed request binds an address before its type is looked at |
| DhcpServer.ReplyDecodes | supervisor/internal/extnet/dhcp_linux.go:54-66 | the reply's payload decodes to the request's xid, flags, giaddr and chaddr with the bound address, or 0.0.0.0 in a refusal |
| DhcpServer.BoundInRun | supervisor/internal/extnet/dhcp_linux.go:54-66 | over any run of frames the k-th distinct client holds base + k mod pool size |
| DhcpServer.SameAddressLater | supervisor/internal/extnet/dhcp_linux.go:54-66 | a client's first request fixes its address for the rest of the run |
| DhcpServer.OfferedIsAcked | supervisor/internal/extnet/dhcp.go:220-238 | in any interleaving a client that requests what it was offered is acknowledged with it, and one that names another address, ciaddr different too, is refused with 0.0.0.0 |
| DhcpWire.ExchangeOnWire | supervisor/internal/extnet/dhcp_linux.go:54-139 | every request frame is answered, byte by byte, with the datagram its verdict calls for: Ethernet, IPv4 and UDP headers, xid, flags, relay and client of the request, the address given, the server's address in siaddr and in options 54 and 3, the mask in 1, 1.1.1.1 and 8.8.8.8 in 6, and 3600, 1800 and 3150 seconds in 51, 58 and 59; broadcast when asked for or when no address is given |
| DhcpWire.EncodedBytes | supervisor/internal/extnet/dhcp.go:154-184 | the message of every reply, field by field, options looked up by code |
| DhcpWire.FrameBytes | supervisor/internal/extnet/dhcp_linux.go:105-139 | the three headers of every frame, the IP header adding up to zero in ones' complement |
| DhcpWire.RequestIs | supervisor/internal/extnet/dhcp_linux.go:70-99 | a frame is taken exactly when it is a BOOTREQUEST with the cookie in a whole datagram to port 67, and these are the bytes its fields are read from |
| DhcpWire.OptionsKept | supervisor/internal/extnet/dhcp.go:123-147 | of a request's options the last one-byte message type and the last four-byte requested address count |
| DhcpWire.PoolInOrder | supervisor/internal/extnet/dhcp.go:273-306 | the k-th client's address, as a number, is the pool's start plus k modulo its size |
| Rpc.WsTransport.OnOpen | app/src/lib/wsTransport.ts:60-80 | the outbox is sent in order and emptied; the handlers run exactly on a reconnect |
| Rpc.WsTransport.Send | app/src/lib/wsTransport.ts:126-134 | sent at once on an open socket, queued otherwise |
| Rpc.WsTransport.OnClose | app/src/lib/wsTransport.ts:91-94 | disconnected, and a reconnect armed unless the close was wanted |
| Rpc.WsTransport.ScheduleReconnect | app/src/lib/wsTransport.ts:153-163 | at most one timer, with the doubling delay capped at 30 seconds |
| Rpc.SupervisorClient.Call | app/src/lib/supervisor.ts:113-119 | a new pending entry and one frame sent or queued |
| Rpc.SupervisorClient.OnFrame | app/src/lib/supervisor.ts:99-111 | a response settles its own pending call, ok resolving and an error rejecting it as in `RpcHistory.SettledExactly`, any other response nothing |
| Rpc.SupervisorClient.HandleTransportReconnect | app/src/lib/supervisor.ts:86-97 | everything pending is rejected in order, then the handlers' own calls are made |
| Rpc.SupervisorClient.OnTransportOpen | app/src/lib/wsTransport.ts:60-80 | flush first, then reject, then the handlers, as one event |
| RpcProofs.RunInv | app/src/lib/supervisor.ts:86-119 | in every run each call is pending or settled exactly once, frames go out in issue order and at most once, none is lost before a disconnect, and a closed transport has its timer armed |
| RpcProofs.SettledBy | app/src/lib/supervisor.ts:86-111 | only a call's own reply or a reconnect settles it |
| RpcProofs.OpenSettles | app/src/lib/wsTransport.ts:60-80 | a reconnect settles every call made before it, those just flushed included, and only the handlers' calls stay pending |
| RpcProofs.QueuedIsSentAndRejected | app/src/lib/wsTransport.ts:63-74 | a call queued during an outage is both transmitted and rejected by the reconnect |
| RpcProofs.LateReply | app/src/lib/supervisor.ts:99-106 | a reply to a settled or unknown id changes nothing |
| RpcProofs.SettledForEver | app/src/lib/supervisor.ts:86-111 | what is settled or sent stays so, in the same order |
| RpcHistory.SettledExactly | app/src/lib/supervisor.ts:86-119 | in every run, told by its events alone: a call is settled by the first event after it was made that can end it, resolved by its own ok reply, rejected by its own error reply, disconnected by a reconnect, and by nothing else |
| RpcHistory.OneEvent | app/src/lib/supervisor.ts:86-111 | what one event does to one call: pending and settlement after it, both ways |
| RpcHistory.PendingIs | app/src/lib/supervisor.ts:113-119 | a call is pending exactly when some event made it and none has ended it since |
| RpcHistory.SentWhileOpen | app/src/lib/wsTransport.ts:60-134 | frames reach open sockets only, and an open socket has been given every call made so far |
| RpcHistory.RedialsAfter | app/src/lib/wsTransport.ts:153-163 | after the n-th close in a row the next attempt is due in 500, 1000, 2000, 4000, 8000 or 16000 ms, later in 30 s |
| Toasts.ToastStore.EnqueueToast | app/src/lib/labStore.svelte.ts:301-358 | the whole new store for a repeated key, a free place, a queued place and a refusal, and the id returned |
| Toasts.ToastStore.DismissToast | app/src/lib/labStore.svelte.ts:360-384 | a visible toast gets its exit timer and no other, a queued one goes at once |
| Toasts.ToastStore.PauseToast | app/src/lib/labStore.svelte.ts:386-398 | the first pause keeps what is left of the time and stops the timer |
| Toasts.ToastStore.ResumeToast | app/src/lib/labStore.svelte.ts:400-408 | the last resume starts the timer again |
| Toasts.ToastStore.StartToastTimer | app/src/lib/labStore.svelte.ts:427-438 | a timer for what is left, or a dismissal when nothing is |
| Toasts.ToastStore.PromoteToast | app/src/lib/labStore.svelte.ts:440-446 | queued toasts move up in order while fewer than four are visible |
| Toasts.ToastStore.OnExit | app/src/lib/labStore.svelte.ts:377-382 | the exit callback removes the toast and promotes |
| ToastsProofs.RunInv | app/src/lib/labStore.svelte.ts:301-446 | in every run at most 4 visible and 20 in all, a queue only behind 4 visible ones, unique ids and keys, and each visible toast in exactly one of leaving with its exit timer, paused without a timer, counting down with one due in time |
| ToastsProofs.RoomForNewcomer | app/src/lib/labStore.svelte.ts:344-349 | a newcomer is refused exactly when the store is full, the queue is all errors and it is none; a queued error goes only for an error from a queue of errors |
| ToastsProofs.ReturnedExactly | app/src/lib/labStore.svelte.ts:301-358 | the returned id names a toast of the store unless, and only unless, the input was refused |
| ToastsProofs.PausePostpones | app/src/lib/labStore.svelte.ts:386-438 | pausing and resuming postpones the dismissal by exactly the pause |
| ToastsShown.RefreshShows | app/src/lib/labStore.svelte.ts:311-333 | a visible toast with the key takes over severity, message, time, duration and count in its place and starts anew, 4, 4.5, 6 or 8 seconds by default; a paused one waits; nothing else changes |
| ToastsShown.RefreshQueues | app/src/lib/labStore.svelte.ts:311-333 | a queued one takes it over in its place in the queue |
| ToastsShown.NewShows | app/src/lib/labStore.svelte.ts:335-353 | a new toast comes in front of fewer than four visible ones and starts |
| ToastsShown.NewQueues | app/src/lib/labStore.svelte.ts:344-356 | behind four it waits last; of twenty the first queued non-error goes, for an error among errors the first of all, else the newcomer |
| ToastsShown.DismissShows | app/src/lib/labStore.svelte.ts:360-384 | a dismissed toast loses its timer and its pauses and is due to go 120 ms later, nothing else changes |
| ToastsShown.ExitShows | app/src/lib/labStore.svelte.ts:377-446 | when a toast goes the longest waiting one takes the last place and starts |
| ToastsShown.HeldTwice | app/src/lib/labStore.svelte.ts:386-408 | held twice, a toast runs again only when released twice, with the time it had when first held |
| WsFrames.WriteFrame | tools/iolab-launcher/wsclient.go:165-212 | the bytes written: header in one of three lengths, key, masked payload, those of `WsWire.WireFormat` |
| WsFrames.ReadFrame | tools/iolab-launcher/wsclient.go:220-267 | the frame read and what is left, the refusal of a fragment, or an end of input |
| WsFrames.XorMask | tools/iolab-launcher/wsclient.go:206-209 | the masking loop computes the payload xored with the repeated key, bit by bit as in `WsWire.XorBit` |
| WsFrames.MaskedTwice | tools/iolab-launcher/wsclient.go:261-265 | masking is its own inverse |
| WsFrames.ReadWritten | tools/iolab-launcher/wsclient.go:165-267 | reading a written frame returns its opcode and payload and leaves what followed |
| WsFrames.StreamReadsBack | tools/iolab-launcher/wsclient.go:165-267 | any list of frames written one after the other reads back as exactly that list, nothing left over |
| WsFrames.MinimalLength | tools/iolab-launcher/wsclient.go:175-187 | whatever bytes read as a frame, writing that frame with the same masking takes no more of them |
| WsWire.WireFormat | tools/iolab-launcher/wsclient.go:165-212 | the bytes of a frame as RFC 6455 section 5.2 lays them out: final bit and opcode, mask bit and shortest length, big-endian, the key, and a payload that differs from the given one in exactly the bits set in the key byte over it |
| WsWire.XorBit | tools/iolab-launcher/wsclient.go:206-209 | bit j of a masked byte is set exactly when it is set in one of byte and key |
| WsWire.ReadsForeign | tools/iolab-launcher/wsclient.go:220-267 | a frame without the final bit is refused; a length need not be in its shortest form |
| WsRequest.ControlWsClient.Request | tools/iolab-launcher/wsclient.go:380-443 | the next id is used up; without a marshalled request or a mask key nothing is sent; otherwise one request frame, then the reply loop's result, its pongs and what it leaves unread |
| WsRequest.AwaitStream | tools/iolab-launcher/wsclient.go:401-442 | on any stream the loop passes over pings, pongs, events, noise and stale replies, pongs exactly the pings, and stops at the first close or own reply |
| WsRequest.AwaitInVain | tools/iolab-launcher/wsclient.go:401-406 | with neither it reads to the end and fails |
| WsRequest.AnswerIsOwn | tools/iolab-launcher/wsclient.go:420-437 | an answer is always the settlement of a frame with this id that is no event |
| WsRequest.StaleReplySkipped | tools/iolab-launcher/wsclient.go:426-430 | the reply to another request of the connection is passed over, ids being decimal numbers |
| WsRequest.EachGetsItsOwn | tools/iolab-launcher/wsclient.go:380-443 | requests made one after the other each get their own reply, whatever precedes it |
| WsWire.AwaitByOpcode | tools/iolab-launcher/wsclient.go:401-442 | what one incoming frame does, by opcode 1, 8, 9 or other and by the fields of its text: ok false fails, anything else of the own reply succeeds |
| WsWire.PongFor | tools/iolab-launcher/wsclient.go:412-416 | a ping is answered by one masked pong with its payload |
| Tiling.ConsoleUiStore.EnsureTiled | app/src/lib/consoleUiStore.svelte.ts:252-268 | the new tiles and focus times |
| Tiling.ConsoleUiStore.Trim | app/src/lib/consoleUiStore.svelte.ts:231-248 | the eviction loop terminates and computes the trimmed tiles |
| Tiling.ConsoleUiStore.LeastRecent | app/src/lib/consoleUiStore.svelte.ts:238-242 | the first of the candidates focused longest ago |
| Tiling.ConsoleUiStore.SetFocused | app/src/lib/consoleUiStore.svelte.ts:405-414 | the new focus, its time, and the pane tiled |
| Tiling.ConsoleUiStore.SyncFromLabStore | app/src/lib/consoleUiStore.svelte.ts:417-425 | an active console is adopted once |
| Tiling.ConsoleUiStore.SetLayout | app/src/lib/consoleUiStore.svelte.ts:427-441 | pin in front, trimmed, the focused pane brought in |
| Tiling.ConsoleUiStore.ToggleTile | app/src/lib/consoleUiStore.svelte.ts:443-452 | removed unless pinned, or tiled |
| Tiling.ConsoleUiStore.SetPinned | app/src/lib/consoleUiStore.svelte.ts:454-460 | the pin moves to the front and the rest is trimmed |
| Tiling.ConsoleUiStore.Reconcile | app/src/lib/consoleUiStore.svelte.ts:499-601 | closed panes go, a default focus is chosen, the layout is filled again |
| Tiling.TrimmedFits | app/src/lib/consoleUiStore.svelte.ts:231-248 | trimming ends within capacity, keeps the pin, and whatever unpinned pane is evicted was focused no more recently than any that stays |
| Tiling.TiledShows | app/src/lib/consoleUiStore.svelte.ts:252-268 | after ensureTiled(ref) ref is shown and nothing new but it and the pin |
| Tiling.RunInv | app/src/lib/consoleUiStore.svelte.ts:231-268 | in every run tiles are distinct, a tiled layout is within capacity and shows the pin, and focus times are past and belong to one pane each |
| Tiling.EnsureTiledInRuns | app/src/lib/consoleUiStore.svelte.ts:252-268 | all of this for ensureTiled in every reachable tiled state |
| TilingShown.TrimmedIs | app/src/lib/consoleUiStore.svelte.ts:231-248 | trimming takes off exactly as many unpinned panes as are too many, those focused longest ago and first in place among equals, and the rest keep their order |
| TilingShown.EnsureTiledIs | app/src/lib/consoleUiStore.svelte.ts:252-268 | the pin goes in front and the pane behind where they are missing, then the surplus beyond 2, 3 or 4 goes; its focus becomes the latest and no other changes |
| TilingShown.FocusIs | app/src/lib/consoleUiStore.svelte.ts:405-414 | focus, its time and tile, and the console last seen |
| TilingShown.SyncIs | app/src/lib/consoleUiStore.svelte.ts:417-425 | a console selected elsewhere is focused as by setFocused, once |
| TilingShown.LayoutIs | app/src/lib/consoleUiStore.svelte.ts:427-441 | a tiled layout takes in the pin, sheds the surplus, then takes in the focused pane |
| TilingShown.ToggleIs | app/src/lib/consoleUiStore.svelte.ts:443-452 | a shown pane goes unless pinned, the others keeping their order; a hidden one is tiled |
| TilingShown.PinIs | app/src/lib/consoleUiStore.svelte.ts:454-460 | the pin stands in front, the others keep their order, the surplus goes |
| TilingShown.ReconcileIs | app/src/lib/consoleUiStore.svelte.ts:499-601 | closed panes lose tile, pin and focus, the first console or else the first capture gets a lost focus, another lab starts from nothing, and the layout is filled |
| ConsoleScript.CommandOutput | supervisor/internal/consolescript/consolescript.go:155-172 | the line loop returns what follows the first complete line that echoes the command |
| ConsoleScript.CleanShowOutput | supervisor/internal/consolescript/consolescript.go:291-313 | the loop keeps the shown lines and trims blank ones at the ends |
| ConsoleScript.Session.AwaitCommand | supervisor/internal/consolescript/consolescript.go:176-190 | the read loop ends with an answer, a deadline or a failed read, for every timing of the console |
| ConsoleScript.Session.AwaitPrompt | supervisor/internal/consolescript/consolescript.go:137-150 | the same for a bare prompt |
| ConsoleScript.Session.EnsureEnable | supervisor/internal/consolescript/consolescript.go:211-242 | whether `do ` is needed, and everything written and heard on the way |
| ConsoleScript.Session.RunExec | supervisor/internal/consolescript/consolescript.go:255-287 | the result and the whole exchange, as a function of what the console does |
| ConsoleScriptProofs.PromptIs | supervisor/internal/consolescript/consolescript.go:69-102 | a prompt is recognised exactly when a host-name token and > or # stands alone on the last line that is not blank, and it is read off whole |
| ConsoleScriptProofs.BoundaryIs | supervisor/internal/consolescript/consolescript.go:152-172 | the output begins exactly behind the first complete line that echoes the command |
| ConsoleScriptProofs.BoundaryStable | supervisor/internal/consolescript/consolescript.go:152-172 | once the echo is buffered, more bytes, cut anywhere and even between CR and LF, never move the boundary and only extend the output |
| ConsoleScriptProofs.NormalisedExtends | supervisor/internal/consolescript/consolescript.go:156-156 | line-end normalisation of a prefix is a prefix of the normalisation |
| ConsoleScriptProofs.StaleReplySkipped | supervisor/internal/consolescript/consolescript.go:152-172 | whatever a late reply and a delayed prompt left in the buffer, the output is what follows the command's own echo |
| ConsoleScriptProofs.EchoableExactly | supervisor/internal/consolescript/consolescript.go:159-168 | anything the console says can hold a command's echo if and only if the command is one line that does not end in white space |
| ConsoleScriptProofs.SuccessNeedsEcho | supervisor/internal/consolescript/consolescript.go:255-287 | whatever the console does, running succeeds only for a command that can be echoed with the prefix of the mode it is sent in |
| ConsoleScriptProofs.RunnableExactly | supervisor/internal/consolescript/consolescript.go:255-287 | there is a console on which running a command succeeds if and only if it is one line without white space at its end |
| ConsoleScriptProofs.EnabledHears | supervisor/internal/consolescript/consolescript.go:211-242 | one CR, then `enable` exactly when the first prompt is neither privileged nor in config mode, each answered before the next write |
| ConsoleScriptProofs.RunExecScript | supervisor/internal/consolescript/consolescript.go:244-287 | for every behaviour of the console the writes are a prefix of CR, an optional enable, terminal length 0 and the command, the last two with `do ` in config mode; each write follows the echo and prompt of the one before; success means all four parts and returns the last one's cleaned output |
| ConsoleScriptProofs.FailsOnlyAtTheEnd | supervisor/internal/consolescript/consolescript.go:176-190 | a console that neither fails nor misses a deadline is given up only when it says nothing more |
| ConsoleScriptProofs.CleanedLines | supervisor/internal/consolescript/consolescript.go:289-313 | the cleaned output is the captured lines in order, less echoes, prompts and blank lines at the ends |
| ConsoleScriptProofs.CleanedTwice | supervisor/internal/consolescript/consolescript.go:289-313 | cleaning clean output changes nothing |
| ConsoleDialogue.PromptSeenIs | supervisor/internal/consolescript/consolescript.go:69-102 | the prompt read is the token of host-name characters and > or #, by their codes, that stands alone at the end |
| ConsoleDialogue.ReplyIs | supervisor/internal/consolescript/consolescript.go:152-190 | a command is answered exactly when a complete line is the command, or a prompt and the command, and what follows ends in a prompt |
| ConsoleDialogue.Dialogue | supervisor/internal/consolescript/consolescript.go:211-287 | whatever the console does, what is typed is a beginning of CR, `enable` unless the first prompt is privileged or in config mode, `terminal length 0` and the command, with `do ` exactly when the last prompt before them contains `(config`; each only when the one before was heeded; success returns the last reply cleaned |
| ConsoleDialogue.ReplyAwaited | supervisor/internal/consolescript/consolescript.go:176-190 | waiting for a reply ends at the first round with a passed deadline, a complete reply or a failed read, in this order |
| ConsoleDialogue.PromptWaits | supervisor/internal/consolescript/consolescript.go:137-150 | waiting for a bare prompt ends at the first round with a prompt, a passed deadline or a failed read, in this order |
| ConsoleDialogue.KeptAre | supervisor/internal/consolescript/consolescript.go:298-309 | the lines kept are all those that are neither the command nor a prompt without a blank, in order |
| ConsoleDialogue.CleanedEnds | supervisor/internal/consolescript/consolescript.go:310-312 | no newline is left at either end |
| PortContract.RequiredPorts | tools/iolab-launcher/macos_ports.go:84-93 | the GUI port and the two ranges in order |
| PortContract.ValidExactly | tools/iolab-launcher/macos_ports.go:54-82 | validate succeeds if and only if the 81 required ports are distinct, in 1..65535, and the GUI port is not the control port |
| PortContract.NewContract | tools/iolab-launcher/macos_ports.go:37-52 | every contract handed out is valid |
| PortContract.ParsePortForwardRules | tools/iolab-launcher/macos_ports.go:152-230 | the line loop with its indents computes the parse, errors included |
| PortContract.ParseBlockSequence | tools/iolab-launcher/macos_ports.go:247-270 | the items and how many lines they took, or the error |
| PortContractProofs.ItemsRead | tools/iolab-launcher/macos_ports.go:247-270 | a block sequence right of the dash of its rule, wherever that dash is, reads back as its items |
| PortContractProofs.RulesReadBack | tools/iolab-launcher/macos_ports.go:152-230 | any list of rules, dashes at any column and fields at any but column 0, each field in flow or block style, reads back as the maps it means inside any top-level document with no earlier portForwards line |
| PortContractProofs.RangeMeant | tools/iolab-launcher/macos_ports.go:205-223 | a range means the same in flow style, with a blank or without, and in block style |
| PortContractProofs.QuotedMeans | tools/iolab-launcher/macos_ports.go:272-279 | a scalar means the same bare, in single and in double quotes |
| PortContractProofs.LinesOfDocument | tools/iolab-launcher/macos_ports.go:157-157 | LF and CRLF line ends, mixed at will, give the same lines |
| PortContractProofs.PrintedMatchesExactly | tools/iolab-launcher/macos_ports.go:95-308 | q written with any columns, range styles and quotes inside any such document matches p if and only if q is p with zero starts defaulted |
| PortContractProofs.ResavedMatchesExactly | tools/iolab-launcher/macos_ports.go:206-308 | a config that Lima saved again, rules at column 0, ranges as block sequences, nothing quoted, matches a valid p if and only if it holds p |
| PortContractProofs.PrintedAlone | tools/iolab-launcher/macos_ports.go:95-308 | the printed fragment of q matches a valid p if and only if p = q |
| PortContractText.AskedFor | tools/iolab-launcher/macos_ports.go:37-93 | which argument is which port, zero meaning 4001, 9000 and 5500; accepted if and only if the 81 ports are distinct, in range and not 4000 for the GUI; and a complaint says something true of them |
| PortContractText.PrintedText | tools/iolab-launcher/macos_ports.go:95-116 | the seventeen lines printed |
| PortContractText.ValueIs | tools/iolab-launcher/macos_ports.go:272-279 | a value loses the white space and then any quotes around it, and in brackets the blanks and tabs inside |
| PortContractText.ColumnIs | tools/iolab-launcher/macos_ports.go:164-164 | a line's column counts blanks and tabs alike |
| PortContractText.CommentsIgnored | tools/iolab-launcher/macos_ports.go:152-270 | texts that differ in comments and blank lines alone are read alike and match the same contracts, between rules and inside block sequences too |
| PortContractText.MalformedField | tools/iolab-launcher/macos_ports.go:197-205 | behind any rules a field without colon or key is refused with its line number |
| PortContractText.NeverOutsideItem | tools/iolab-launcher/macos_ports.go:172-196 | the complaint of a field outside a list item is never made |

## Left out

- Sockets, taps, timers, clocks, `uuid`, JSON and mask keys: inputs of the models; a timer is a deadline and its callback a step, a missed read deadline is an end of input.
- Regular expressions: the fifty colour rules are match oracles of which only `lastIndex` behaviour is assumed, the prompt expression a predicate.
- Text is a sequence of characters: UTF-16 code units, invalid UTF-8 and characters cut in half between two reads are not modelled.
- Time stamps and rates are exact integers and reals; floating-point rounding, and infinite tick rates of if_tsresol, are not modelled.
- ChunkInvariance: assumes that every packet block holds its own captured data (`Sound`), because the parser reads a longer capture from whatever follows the block.
- RoundTripExactly: is about blocks below 2^32 bytes, the width of the length field, so that the field is the block's length.
- RunInv: the RPC model has the `reconnect` option on and starts when `connect()` has created a socket; the option off, calls queued before that, and a transport reused after `disconnect` (which also clears its subscribers) are left out; event frames and NDJSON batches are left to the caller.
- Request: a failed write of the request or of a pong is not modelled.
- ReadFrame: a deadline in the middle of a frame and the allocation of an announced length are not modelled.
- LeasesRoundRobin: a pool whose end lies below its start has size one, as in the code; subnet allocation is not part of this model.
- SafeShutdown: the operations under a mutex are atomic steps, and bindTap and recvfrom are events; a fatal receive error ends a loop.
- StaleReplySkipped of `ConsoleScriptProofs`: the late reply is complete lines and at most one prompt; a fragment of any other kind in front of the echo hides it, as in the code.
- RunExecScript: a write that fails is counted as written.
- PrintedMatchesExactly: lines of the document carry no CR except at their ends, `portForwards:` stands at column 0, the fields of a rule are in the printer's order, and indentation is blanks; comments and blank lines anywhere are added by CommentsIgnored.
- A toast's id is the pair of time and number rather than their text, a pane is compared by value rather than by its key string, a request's frame is its id.
- `Direction`, `Snapshot`, the packet summarizers, windows, marks, capture delivery, `closePane` callbacks and the rest of the lab store: presentation or single-branch code.
- `limaSetExpression`, port probing and `limactl`: foreign effects, or the same contract printed once more.
- The classic capture reader, profile selection, folder sync, lab import and export: easier repeats of what is modelled.
