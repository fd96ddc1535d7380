# Verification of the socket-programming lab

This project models the algorithmic and protocol cores of the repository in
Dafny and proves what they are for. Each file is one module; `dafny verify
dfyconfig.toml` checks them all.

- **CRC-16** (`Gf2`, `Gf2Order`, `RegisterBits`, `CrcBitwise`, `ModbusTable`,
  `Crc16`, `Crc16Properties`, `CrcOrder`). `Gf2` is polynomial division over
  GF(2) by a shift register, with the theory that follows: remainders exist and
  are unique, the register is linear, bursts and odd errors are detected.
  `Gf2Order` has the powers of x and their period. The table-driven Modbus CRC
  and the bit-by-bit CCITT CRC of `src/crc16.cpp` are methods with the source's
  loops, proved against it for messages of every length. The table is proved
  through its linearity, from eight entries. `CrcOrder` settles which two-bit
  errors and which 17-bit bursts go unseen.
- **File transfer** (`FtWire`, `FtSession`, `FtRuns`, `FtPieces`, `FtInStep`,
  `FtEndpoints`). `FtWire` is what the two programs write into and read out of
  their buffers; both hosts' byte orders are parameters throughout. `FtSession`
  is the whole session as a state machine over two byte channels. `FtRuns`
  proves that runs of it refine a machine that executes each command in one
  step, that none gets stuck, and that both sides are back in step at every
  prompt, if the commands fit. `FtPieces` lets requests and error replies arrive
  in pieces, and proves exactly which runs then stay in step. `FtInStep` proves
  that a command leaves the two sides in step and never stuck only if it fits.
  `FtEndpoints` has the routines themselves with their loops, each proved to do
  what it should to its connection and to be a run of the machine.
- **Internet checksum and headers** (`Bytes`, `InternetChecksum`, `Headers`).
  The checksum loop with its 32-bit accumulator and two folds against the
  definition of section 1 of RFC 1071; the packed IPv4, ICMP, Ethernet and VLAN
  headers as bytes in memory, on a host of either byte order.
- **Packet buffer** (`PacketBuff`, `SendVlan`). The stack allocator, whose
  regions tile the used area, and the frame that `send_vlan` builds with it.
- **Ping statistics** (`PingStats`). Welford's update over exact reals, the
  extremes, the 64-bit total and the counters.
- **Echo servers** (`EchoMachine`, `EchoServers`). One abstract echo service;
  the select loop and the epoll loop both refine it over a kernel that hands out
  descriptor numbers again, even within a round.
- **Ownership** (`SocketOwnership`, `LogSink`). Ledgers over every run of the
  socket class's operations and of the log sink's setters.
- **ARP scan** (`BitOps`, `ArpScan`). The addresses the scan goes through and
  the requests it sends, on a host of either byte order.

What the environment does is left open: a receive returns any non-empty prefix
of at most the buffer's size, `accept` any unused descriptor, `select` and
`epoll_wait` any set of ready descriptors, and replies, round trips and results
of `fopen`, `socket`, `bind` and `recvfrom` are parameters.

Where the code and its documentation or purpose differ, the model follows the
code and the exact condition is proved:

- An odd last byte is added as the low byte, where RFC 1071 puts it high:
  right exactly if that byte is 0 (`OddIsRfcExactly`).
- The 32-bit accumulator cannot overflow up to 131074 bytes and does at 131076
  (`NoOverflow`, `OverflowAfterBound`); what that does to the result is stated
  exactly for any length (`EvenExactly`, `OddExactly`).
- `pack_ipv4_hdr` stores its checksum unconverted. The header verifies exactly
  on a big-endian host or when the two checksum bytes are equal
  (`UnconvertedVerifies`); on a little-endian host the stored bytes are the swap
  of the right ones (`UnconvertedIsSwapped`). The header that `send_vlan` sends
  from such a host has the process id, cut to 16 bits, as its identification; it
  verifies exactly if that is 178 modulo 257 (`VlanVerifiesExactly`).
- `config_ip4_hdr` sets DF in what `frag` was before: DF alone exactly if `frag`
  was 0, or DF already (`DfAlone`).
- The put size reaches the server exactly if both hosts have the same byte
  order, the get size reaches the client exactly if the client is little-endian;
  otherwise a size of 0 is read (`PutSizeAcross`, `GetSizeAcross`). Sizes are cut
  to 32 bits. So a put or a get leaves the two sides in step, however the bytes
  are cut up, if and only if the number of bytes sent is the size that is read:
  for a file, if it is shorter than 4 GiB and between such hosts, or empty
  (`InStepExactly`, `FittingExactly`).
- A directory can be opened and has a size but no bytes that can be read. A get or
  a put of one leaves both sides waiting for ever, if its size is read as sent
  (`MisfitGet`, `MisfitPut`, `FittingExactly`).
- A request of ls, cd or get is padded to 1024 bytes. The server answers what its
  first receive brings, and drops whatever begins with a zero byte. The session
  stays in step exactly if each first piece holds the arguments, no padding is
  received together with the next request, and error replies arrive whole
  (`PiecesExactly`); a request that is received together with padding is lost,
  and both sides wait for ever (`RequestLost`).
- A listing or path that holds a byte 127 is printed up to that byte, and leaves
  the two sides out of step in some run (`InStepExactly`).
- `min_rtt` uses 0 for no value yet, and is the true minimum exactly if no round
  trip took 0 microseconds or the last one did (`MinimumExactly`).
- The mean gives the same average as `total_rtt` would exactly while the 64-bit
  total has not wrapped (`TotalAgreesExactly`).
- `lost` counts replies of another type, not timeouts; so `recv == c + lost`.
- `TcpSocket::open` on a socket that holds a descriptor loses it; nothing is
  lost if and only if that never happens (`OpenIsHeldExactly`, `OpenedTwice`).
- `simple_log_set_log_os` with the stream the sink owns closes it and keeps it
  (`ClosedSinkExactly`, `OwnStreamIsClosed`); the sink is at no point on a closed
  stream exactly if neither that stream nor a closed one is handed in
  (`SinkStaysOpen`).
- `simple_log_set_log_file` frees the sink's name before it copies the new one. A
  pointer that `simple_log_get_log_file` returned is safe to pass to it exactly
  while it is the sink's name, in a call that fails (`NoStaleNameExactly`); the
  ways to go wrong are runs of two and three calls (`OwnNameIsStale`,
  `KeptNameIsStale`, `ReplacedNameIsStale`).
- `send_vlan` passes its `smac` where the destination belongs; the frame is
  stated in the parameter order of `pack_ether_hdr`.

## Model

| member | source | states |
|---|---|---|
| ModbusTable.RowPlusColumn | src/crc16.cpp:11-59 | every entry is the sum of one in its row and one in its column, by comparing whole rows |
| ModbusTable.BasisIsClocked | src/crc16.cpp:11-59 | the entries at 1, 2, 4, ..., 128 are eight bitwise steps of their index |
| ModbusTable.EntryIsEightClocks | src/crc16.cpp:11-59 | every table pair is eight bitwise steps of its index |
| ModbusTable.StaticTables | src/crc16.cpp:11-59 | entry x of the two arrays is the division of x by the generator, for all 256 |
| Crc16Properties.TableIsLinear | src/crc16.cpp:11-59 | the entry at x xor y is the xor of the entries at x and y |
| CrcBitwise.ModbusClocksAreRun | src/crc16.cpp:63-79 | steps of the reflected register with 0xA001 are polynomial division, lowest bit first |
| CrcBitwise.ModbusCrcIsRun | src/crc16.cpp:63-79 | the bitwise Modbus CRC is division of the message's bits, lowest first in each byte |
| CrcBitwise.CcittCrcIsRun | src/crc16.cpp:82-98 | the CCITT register is division of the message's bits, highest first |
| Crc16.UsMBCRC16 | src/crc16.cpp:63-79 | the table-driven loop over the split register gives the bitwise reflected CRC from 0xFFFF |
| Crc16.IotCalcCrc16 | src/crc16.cpp:82-98 | the nested byte and bit loops with 16-bit shifts give the CCITT CRC from 0 |
| Crc16Properties.ModbusIsRemainder | src/crc16.cpp:63-79 | a register is the CRC if and only if it is the remainder of the message times x^16 with the initial ones added |
| Crc16Properties.CcittIsRemainder | src/crc16.cpp:82-98 | a register is the CRC if and only if it is the remainder of M(x) x^16 modulo x^16+x^12+x^5+1 |
| Crc16Properties.ModbusConcat | src/crc16.cpp:63-79 | the CRC of a concatenation continues from the first part's register |
| Crc16Properties.CcittConcat | src/crc16.cpp:82-98 | the same for CCITT |
| Crc16Properties.ModbusLinear | src/crc16.cpp:63-79 | linear in register and message together, so affine from 0xFFFF |
| Crc16Properties.CcittLinear | src/crc16.cpp:82-98 | linear under xor of messages of equal length |
| Crc16Properties.ModbusResidue | src/crc16.cpp:63-79 | two appended bytes give residue 0 if and only if they are the CRC, low byte first |
| Crc16Properties.CcittResidue | src/crc16.cpp:82-98 | the same with the high byte first |
| Crc16Properties.ModbusDetectsBurst | src/crc16.cpp:63-79 | messages that differ within one burst of at most 16 bits never share a CRC |
| Crc16Properties.CcittDetectsBurst | src/crc16.cpp:82-98 | the same for CCITT |
| Crc16Properties.ModbusDetectsOdd | src/crc16.cpp:63-79 | messages that differ in an odd number of bits never share a CRC |
| Crc16Properties.CcittDetectsOdd | src/crc16.cpp:82-98 | the same for CCITT |
| Crc16Properties.ModbusParity | src/crc16.cpp:63-79 | the register's parity is that of the initial register and all message bits |
| Crc16Properties.CcittParity | src/crc16.cpp:82-98 | the same for CCITT |
| Crc16Properties.ModbusCollision | src/crc16.cpp:63-79 | two messages share a CRC if and only if the generator divides their difference |
| Crc16Properties.CcittCollision | src/crc16.cpp:82-98 | the same for CCITT |
| CrcOrder.ModbusPeriod | src/crc16.cpp:63-79 | x^d is 1 modulo the generator if and only if 32767 divides d |
| CrcOrder.CcittPeriod | src/crc16.cpp:82-98 | the same for CCITT |
| CrcOrder.ModbusTwoBits | src/crc16.cpp:63-79 | messages that differ in exactly two bits share a CRC if and only if 32767 divides the distance of the bits |
| CrcOrder.CcittTwoBits | src/crc16.cpp:82-98 | the same for CCITT |
| CrcOrder.ModbusBurst17 | src/crc16.cpp:63-79 | messages that differ within 17 bits share a CRC if and only if they are equal or differ by the generator itself |
| CrcOrder.CcittBurst17 | src/crc16.cpp:82-98 | the same for CCITT |
| CrcOrder.BurstOf17Unseen | src/crc16.cpp:63-98 | two such messages for each CRC: 16 bits is the longest burst that is always seen |
| FtWire.PutSizeAcross | src/ft/ft-client.c:187-188 | the size in a put request is read as sent if both hosts have one byte order, else as 0 |
| FtWire.GetSizeAcross | src/ft/ft-server.c:111-114 | the 32-bit size the server writes is read as a long by a little-endian client, else as 0 |
| FtWire.GetNameRoundTrip | src/ft/ft-client.c:152-155 | the server's strtok finds the name the client put into a get request |
| FtSession.WhatCanBeSent | src/ft/ft-client.c:141-155 | which commands can be given |
| FtSession.RequestBytes | src/ft/ft-client.c:130-134 | every request byte by byte: kinds 1 to 5, arguments up to 1023 bytes and zeroes, name and size fields of put; what is read after the kind up to the first zero is the arguments |
| FtWire.PathAcross | src/ft/ft-server.c:20-25 | the server of ls and cd goes to the path the client was given, or to "." without one |
| FtWire.PutRoundTrip | src/ft/ft-client.c:184-196 | a put header with whatever follows it decodes to the name, the rest and the size or 0, between any two hosts |
| FtWire.GetRoundTrip | src/ft/ft-server.c:111-114 | a get reply with whatever follows it decodes to the size or 0, between any two hosts |
| FtWire.BeforeEndOf | src/ft/ft-client.c:22-41 | a body without byte 127 is everything before the first one |
| FtEndpoints.ResponsePut | src/ft/ft-server.c:124-152 | for every segmentation name and file are what the request and the stream hold, with nothing left over when the peer sends the announced size; one END is sent; a run of the machine |
| FtEndpoints.ResponseGet | src/ft/ft-server.c:98-122 | header and whole file, or an error byte and the message; a run of the machine |
| FtEndpoints.ReplyIsBytes | src/ft/ft-server.c:98-122 | every reply byte by byte: 127 after a text, 255 before a message, 0 and the size before a file |
| FtEndpoints.SendFile | src/ft/ft-server.c:117-118 | the file leaves in order and in full, in pieces of at most 1024 bytes |
| FtEndpoints.ResponseLs | src/ft/ft-server.c:18-52 | every name without a leading dot on a line of its own, or the message, then END; a run of the machine |
| FtEndpoints.HiddenNames | src/ft/ft-server.c:42-45 | a listing of two names and a hidden one |
| FtEndpoints.RecvFile | src/ft/ft-client.c:75-95 | the written file is what came with the header and after it, exactly, for every segmentation; a run of the machine |
| FtEndpoints.CmdPut | src/ft/ft-client.c:175-210 | sends header and file, then takes exactly one byte and succeeds if it is END; a run of the machine |
| FtEndpoints.PutReceived | src/ft/ft-client.c:25-40 | one receive and its inner loop print up to the first END and no further; a step of the machine |
| FtEndpoints.PrintResponseBody | src/ft/ft-client.c:22-41 | for every segmentation exactly the bytes before the first END are printed, and a newline; a run of the machine |
| FtSession.StepFollows | src/ft/ft-server.c:155-192 | every step of client or server keeps the invariant: written, in flight and unsent bytes make up the file, shown and coming bytes the text |
| FtSession.FittingExactly | src/ft/ft.h:42-54 | a file fits exactly if it is shorter than 4 GiB and the hosts' orders suit, or it is empty; a directory exactly if its size is read as 0 |
| FtRuns.StepDecides | src/ft/ft-server.c:160-186 | a new command starts only when none is in progress, and each is answered once |
| FtRuns.NeverStuck | src/ft/ft-client.c:122-281 | while a command is in progress one of the programs can take a step |
| FtRuns.StepsDescend | src/ft/ft-server.c:98-152 | every step that moves bytes brings them closer to where they go |
| FtRuns.StepsAreBounded | src/ft/ft-server.c:98-152 | after the server has taken a request the number of steps is bounded by the bytes still to be moved |
| FtRuns.SessionFinishes | src/ft/ft-client.c:122-281 | from every state that fitting commands reach, the two programs alone can reach the prompt |
| FtPieces.EventFollowsExactly | src/ft/ft-server.c:155-192 | whatever pieces arrive, a step keeps the session in step with the abstract one if and only if a piece of a request holds its arguments, only padding is dropped, and an error reply is received whole |
| FtPieces.PiecesExactly | src/ft/ft-server.c:155-192 | over every run of fitting commands, in whatever pieces: in step at every point if and only if every step is of that kind |
| FtPieces.PiecesRefine | src/ft/ft-client.c:122-281 | at the prompt after such a run, files and screen are those of executing the commands one at a time, and nothing but padding is in the channels |
| FtPieces.PieceHoldsArguments | src/ft/ft-client.c:130-134 | a piece of a padded request holds its arguments if and only if it is longer than they are |
| FtPieces.PieceIsPadding | src/ft/ft-server.c:186-187 | only padding is dropped if and only if the piece ends before the next request |
| FtPieces.FirstWordPadded | src/ft/ft-server.c:101-101 | strtok finds the same word in a piece and in the whole request when only padding is missing |
| FtPieces.PiecesGoOn | src/ft/ft-server.c:155-192 | while a command is in progress, a step that keeps it in step can be taken |
| FtPieces.PiecesFinish | src/ft/ft-client.c:122-281 | from every point in step the two programs can lead back to the prompt, in step |
| FtPieces.RequestLost | src/ft/ft-server.c:186-187 | with padding on its way, a next request other than put can be dropped if its arguments leave as many bytes of the buffer free; then neither side can go on |
| FtInStep.InStepExactly | src/ft/ft-server.c:98-192 | a command leaves the two sides in step and never stuck, in every run, if and only if the size read is the number of bytes sent, or its text holds no END |
| FtInStep.MisfitPut | src/ft/ft-server.c:139-147 | otherwise a run of a put ends at the prompt with bytes of the file left for the server to take as a request, or with both sides waiting for ever, according to which is greater |
| FtInStep.MisfitGet | src/ft/ft-client.c:83-91 | the same for a get and the client |
| FtInStep.MisfitText | src/ft/ft-client.c:31-36 | a run of a listing with an END in it ends at the prompt with the rest of the text left for the client |
| InternetChecksum.Checksum | lib/netpackets/src/ipv4.c:26-43 | the loop with a wrapping 32-bit sum and exactly two folds brings every carry back in and complements |
| InternetChecksum.TwoFolds | src/send_icmp_echo.c:168-171 | two folds suffice for every 32-bit sum |
| InternetChecksum.NoOverflow | src/send_icmp_echo.c:155-172 | no partial sum overflows up to 131074 bytes |
| InternetChecksum.EvenIsRfc | lib/netpackets/src/ipv4.c:26-43 | for every even length up to 131074 the RFC 1071 checksum |
| InternetChecksum.EvenExactly | src/send_icmp_echo.c:155-172 | for any even length: the RFC's exactly under a condition on the number of wraps |
| InternetChecksum.OverflowAfterBound | src/send_icmp_echo.c:155-172 | 131076 bytes of 0xFF overflow and give another checksum: the bound is tight |
| InternetChecksum.OddIsRfcOfPadded | lib/netpackets/src/ipv4.c:37-38 | for odd lengths the RFC checksum of the data with a zero inserted before the last byte |
| InternetChecksum.OddIsRfcExactly | lib/netpackets/src/ipv4.c:37-38 | for odd lengths the RFC's own checksum if and only if the last byte is 0 |
| InternetChecksum.OddByteDiffers | lib/netpackets/src/ipv4.c:37-38 | a single byte 1 gives 0xFFFE where the RFC has 0xFEFF |
| InternetChecksum.OddPaddedExactly | lib/netpackets/src/ipv4.c:26-43 | for any odd length: that of the padded data exactly under the condition of EvenExactly |
| InternetChecksum.OddExactly | lib/netpackets/src/ipv4.c:26-43 | for any odd length: the RFC's own exactly if the wraps and 255 times the last byte cancel modulo 0xFFFF |
| InternetChecksum.SelfVerifies | lib/netpackets/src/ipv4.c:25-43 | data with its checksum stored in network order checks to 0 |
| InternetChecksum.SwappedVerifiesExactly | lib/netpackets/src/ipv4.c:58-58 | with the two bytes swapped it checks to 0 if and only if they are equal |
| Headers.Ipv4Hdr.ConfigIp4Hdr | src/send_ipv4.c:22-40 | the header parses to the given fields and checks to 0, for all fields and on either host |
| Headers.DfAlone | src/send_ipv4.c:32-33 | the flags come out as DF alone if and only if frag was 0 or DF |
| Headers.Ipv4Hdr.PackIpv4Hdr | lib/netpackets/src/ipv4.c:45-59 | the header's bytes, and that it checks to 0 exactly on a big-endian host or with equal checksum bytes |
| Headers.UnconvertedVerifies | lib/netpackets/src/ipv4.c:58-58 | a checksum stored without conversion verifies if and only if the host is big-endian or its bytes are equal |
| Headers.UnconvertedIsSwapped | lib/netpackets/src/ipv4.c:58-58 | on a little-endian host the stored bytes are the swap of the verifying ones |
| Headers.VlanVerifiesExactly | src/send_vlan.c:58-58 | the header sent there from a little-endian host checks to 0 if and only if its identification, the process id cut to 16 bits, is 178 modulo 257; for identification 0 the checksum is 0xAF60 |
| Headers.ParsePacked | lib/netpackets/src/ipv4.c:45-59 | a packed header parses to the fields it was packed from |
| Headers.Ipv4Hdr.Ipv4Ntohs | lib/netpackets/src/ipv4.c:11-16 | length, identification and checksum become the numbers on the wire; everything else stays |
| Headers.PingPacket.Assemble | src/send_icmp_echo.c:174-191 | the request reads as type 8, code 0, the checksum of itself with that field zeroed, process and sequence number modulo 2^16, and the data, and checks to 0, from a host of either byte order |
| Headers.EtherHdr.PackEtherHdr | lib/netpackets/src/ether.c:11-17 | destination, source and type at their offsets, the type in network order |
| Headers.VlanHdr.PackVlanHdr | lib/netpackets/src/vlan.c:10-17 | the tag decodes, as clause 9.6 of IEEE 802.1Q lays it out, to the given values cut to 3, 1 and 12 bits |
| PacketBuff.PacketBuffer.constructor | lib/netpackets/src/packet_buff.c:10-25 | an empty zeroed buffer of the given capacity |
| PacketBuff.PacketBuffer.Push | lib/netpackets/src/packet_buff.c:38-46 | hands out the next region of the tiling, or changes nothing if it does not fit |
| PacketBuff.PacketBuffer.Pop | lib/netpackets/src/packet_buff.c:48-55 | cuts the tiling at the new tail, or changes nothing if that much is not used |
| PacketBuff.PacketBuffer.Reset | lib/netpackets/src/packet_buff.c:32-36 | nothing outstanding |
| PacketBuff.PacketBuffer.LengthIsExact | lib/netpackets/src/packet_buff.c:38-55 | data_len is tail - head and at most the capacity, after any run |
| PacketBuff.TilesInOrder | lib/netpackets/src/packet_buff.c:38-46 | outstanding regions are disjoint and in push order |
| PacketBuff.TilesCover | lib/netpackets/src/packet_buff.c:38-46 | every used byte lies in exactly one outstanding region |
| PacketBuff.CutUndoesPush | lib/netpackets/src/packet_buff.c:48-55 | a matching pop restores what was outstanding before the push |
| SendVlan.BuildFrame | src/send_vlan.c:44-59 | the frame is its headers and payload in push order: addresses, type 0x8100, tag 7/0/100 with type 0x0800, and an IPv4 header whose every field is read as meant |
| PingStats.Statistics.UpdateRttStats | src/send_icmp_echo.c:92-114 | the three statements are one step of Welford's recurrence |
| PingStats.WelfordIsBatch | src/send_icmp_echo.c:92-114 | count, average and sum of squared deviations of all round trips |
| PingStats.VarianceNotNegative | src/send_icmp_echo.c:92-114 | m2 and m2 / (c - 1) are not negative |
| PingStats.OrderDoesNotMatter | src/send_icmp_echo.c:92-114 | the same result for every permutation of the round trips |
| PingStats.Statistics.RttStats | src/send_icmp_echo.c:117-127 | one more round trip in the extremes, the wrapping total and the running values |
| PingStats.MinimumExactly | src/send_icmp_echo.c:121-124 | min_rtt is the true minimum if and only if no round trip was 0 or the last one was |
| PingStats.ZeroIsForgotten | src/send_icmp_echo.c:121-124 | after round trips of 0 and 5 min_rtt is 5 |
| PingStats.GreatestIsMaximum | src/send_icmp_echo.c:125-125 | max_rtt is the true maximum |
| PingStats.Statistics.Ping | src/send_icmp_echo.c:293-337 | sent is the number of rounds, recv == c + lost <= sent, the statistics are those of the echo replies, and after one reply minimum, maximum and mean are end - start |
| PingStats.OneRound | src/send_icmp_echo.c:300-324 | what one round adds: an echo reply, type and code 0, the time r with start + r == end in 64 bits; another packet counts as received only |
| PingStats.RoundsConcat | src/send_icmp_echo.c:293-337 | rounds are counted one after the other |
| PingStats.Statistics.AverageRtt | src/send_icmp_echo.c:137-138 | the truncated mean is the integer quotient of sum and count |
| PingStats.AverageWithin | src/send_icmp_echo.c:137-138 | with positive round trips it lies between min_rtt and max_rtt |
| PingStats.TotalAgreesExactly | src/send_icmp_echo.c:123-138 | it equals total_rtt / c if and only if the 64-bit total has not wrapped |
| EchoMachine.EchoesExactly | src/select-echo-server.c:66-79 | between rounds a client's output is exactly what was read from it |
| EchoMachine.ClosedExactlyAtEnd | src/select-echo-server.c:70-75 | a connection is watched exactly from its acceptance until its end is read, and then closed once |
| EchoMachine.NoStaleRead | src/epoll-echo-server.c:59-80 | a descriptor is read only if the last answer of the kernel named the connection it stands for now |
| EchoMachine.EveryoneIsAsked | src/select-echo-server.c:44-47 | whenever the kernel is asked, it is asked about every connection that is watched |
| EchoMachine.RoundServesAll | src/epoll-echo-server.c:51-95 | everyone the kernel reports is read within the round |
| EchoServers.SelectServer.Visit | src/select-echo-server.c:52-81 | one pass of the inner loop serves one bit of look, also when a number is reused on the way |
| EchoServers.SelectServer.Round | src/select-echo-server.c:42-83 | asks about every open client and the listener, with room for all, reads at most 64 bytes at a time, keeps the watched set and max_fd, and is a round of the machine |
| EchoServers.EpollServer.Round | src/epoll-echo-server.c:51-95 | asks about every open client and the listener, with room for 1024 events, reads at most 64 bytes at a time, keeps the interest set for events in any order, and is a round of the machine |
| EchoServers.EpollServer.Serve | src/epoll-echo-server.c:51-123 | any number of rounds, each asking the kernel once, keeps the invariant |
| SocketOwnership.TcpSocket.Move | lib/simplesocket/src/Socket.cpp:35-38 | takes the descriptor over and leaves the other socket empty |
| SocketOwnership.TcpSocket.Assign | lib/simplesocket/src/Socket.cpp:40-49 | closes its own, takes over the other's; assigning to itself does nothing |
| SocketOwnership.TcpSocket.Close | lib/simplesocket/src/Socket.cpp:93-100 | closes what it holds, if anything, and holds nothing |
| SocketOwnership.TcpSocket.Open | lib/simplesocket/src/TcpSocket.cpp:13-30 | holds what socket() returned, also when bind fails; throws if either fails |
| SocketOwnership.TcpSocket.Accept | lib/simplesocket/src/TcpSocket.cpp:40-48 | a new owner of what accept() returned, or an exception and no owner |
| SocketOwnership.Program.Run | lib/simplesocket/src/Socket.cpp:27-54 | any run of operations on objects of the class is a run of the ledger machine |
| SocketOwnership.EveryRunIsSound | lib/simplesocket/src/Socket.cpp:35-54 | live sockets hold distinct open descriptors, no bad close, each opening that is not open closed exactly once |
| SocketOwnership.OpenIsHeldExactly | lib/simplesocket/src/TcpSocket.cpp:13-30 | the kernel's open descriptors are the held ones if and only if no socket was opened while it held one |
| SocketOwnership.OpenedTwice | lib/simplesocket/src/TcpSocket.cpp:13-30 | a run that opens one socket twice: the first descriptor is open and no socket holds it |
| SocketOwnership.AnythingCanHappen | lib/simplesocket/src/Socket.cpp:27-54 | no run that the class allows is left out: any call on a live socket, with any unused descriptor or a failure |
| SocketOwnership.AllClosedExactly | lib/simplesocket/src/Socket.cpp:51-54 | with the last socket gone every opening was closed exactly once, under the same condition |
| LogSink.Sink.SetLogOs | lib/simple_log/simple_log.c:79-83 | the sink moves to the caller's stream, which it does not own, and forgets the name |
| LogSink.Sink.SetLogFile | lib/simple_log/simple_log.c:85-105 | null, stdout, stderr, a failing and a succeeding fopen; on failure nothing changes |
| LogSink.Sink.SetSinkFp | lib/simple_log/internal/simple_log_sink.c:40-52 | closes the old stream exactly if it was owned |
| LogSink.Sink.SetSinkFile | lib/simple_log/internal/simple_log_sink.c:54-66 | frees the old copy first and makes the new one then, from whatever the path points to |
| LogSink.Sink.Choose | lib/simple_log/simple_log.c:90-101 | the stream, and each use of the path by strcmp and fopen, stale or not |
| LogSink.StandardStreams | lib/simple_log/simple_log.c:92-104 | "stdout" and "stderr" stand for the standard streams, unowned; any other name for the opened file |
| LogSink.EveryRunBalances | lib/simple_log/internal/simple_log_sink.c:40-79 | each opened stream but the current one closed once, no other stream ever closed, each copied name freed once |
| LogSink.ClosedSinkExactly | lib/simple_log/simple_log.c:79-83 | a call leaves the sink on a closed stream if and only if it hands one over or changes nothing |
| LogSink.SinkStaysOpen | lib/simple_log/simple_log.c:79-105 | over every run: at no point on a closed stream if and only if the run has no such hand-over |
| LogSink.OwnStreamIsClosed | lib/simple_log/simple_log.c:79-83 | handing the sink the stream of its own log file: closed, and the sink stays on it |
| LogSink.NoStaleNameExactly | lib/simple_log/simple_log.c:85-105 | over every run no freed name is read if and only if no call passes a copy freed before and no replacing call passes the current one; equivalently, every copy passed is current and its call fails |
| LogSink.StaleUses | lib/simple_log/simple_log.c:90-104 | how many uses of a freed name one call makes |
| LogSink.OwnNameIsStale | lib/simple_log/internal/simple_log_sink.c:57-65 | passing the sink's own name: strdup reads it after free |
| LogSink.KeptNameIsStale | lib/simple_log/simple_log.c:92-99 | passing a name kept over set_log_os: every use of it reads freed memory |
| LogSink.ReplacedNameIsStale | lib/simple_log/simple_log.c:92-99 | the same when another file has replaced it |
| BitOps.HtonlBits | src/arp_scan.c:93-122 | and and or give the same addresses before and after conversion of the byte order |
| BitOps.MaskedNumber | src/arp_scan.c:107-107 | masking with n ones takes off exactly the low bits |
| ArpScan.NetworkAddress | src/arp_scan.c:93-107 | src_ip & htonl(create_mask(n)) is the first address of the network, on either host |
| ArpScan.HostMask | src/arp_scan.c:108-120 | ~subnet_mask is the number of host addresses less one |
| ArpScan.TargetAddress | src/arp_scan.c:120-122 | network_ip or htonl(i) is the i-th address after the network's |
| ArpScan.ProbeHost | src/arp_scan.c:124-154 | at most three requests; a first message with opcode bytes 0 and 2 from the target to this interface's addresses is the answer, and three that each differ in some field are none |
| ArpScan.RepliesAre | src/arp_scan.c:142-146 | what the four comparisons accept, on a host of either byte order |
| ArpScan.ProbeIsUnique | src/arp_scan.c:124-154 | what is received fixes the number of requests and the answer |
| ArpScan.Scan | src/arp_scan.c:92-155 | the k-th address visited is network + 1 + k, up to the one before broadcast |
| ArpScan.ScanCovers | src/arp_scan.c:107-122 | an address is visited if and only if it has the same first n bits and is neither network nor broadcast; once, in ascending order |

## Left out

- Sockets, poll, ioctl, fork, readline, clocks and DNS as such; failing system calls other than those named above; a peer that disconnects within a transfer.
- FtPieces.PiecesExactly: a put request arrives with its header and name, and the first receive of a get reply has its 9 header bytes; with fewer, both programs pass a negative number to fwrite. What the server takes begins with 0 or a request of the session: it looks the first byte up in a table of seven names, and the model stops where that is out of bounds. Names are one word that fits the buffers.
- FtRuns.SessionRefines: only runs in which a request and an error reply arrive in one receive; FtPieces.PiecesRefine is for any pieces.
- FtRuns.SessionInStep: under the same restriction, under which both channels are empty at every prompt.
- FtRuns.Completes: the commands open, help and exit are not steps of the session.
- FtWire.ERROR: the client compares a plain char with -1, so the model is of hosts whose char is signed; where it is not, an error reply is taken for data.
- FtEndpoints.ResponsePut: the caller has received the whole header, as the source takes for granted.
- File transfer with several sessions: the server's two buffers are shared by all its threads.
- The terminating zeros that are written after a receive only for printing.
- EchoServers.SelectServer.Round: descriptors are unbounded, so the limit FD_SETSIZE of fd_set is not modelled.
- EchoServers.Kernel.Poll: which of the descriptors asked about the kernel reports, and when, is left to it.
- EchoServers.Kernel.ReadClient: a read or write that fails, and a write that takes only part of the data.
- PingStats.WelfordIsBatch: over exact reals; the rounding of double is not modelled, nor the square root in mdev, nor its value with fewer than two replies.
- PingStats.Statistics.Ping: counters are unbounded.
- SocketOwnership.TcpSocket.FromFd: a caller that builds a second owner of a descriptor with the explicit constructor.
- SocketOwnership: listen, read, write, addresses and non-blocking mode.
- LogSink: levels, formatting, and callers that close a stream of the library themselves.
- ArpScan.Scan: a prefix length of 0, where the shift by 32 is undefined; what arping puts into its request; short messages.
- Headers.EtherHdr.PackEtherHdr: pack_ether_frame only copies the data behind this header.
- src/nl_get_ipaddr.c: its stepping lies in kernel macros that are not part of this model.
- src/op-server.c and src/op-client.c: a simpler framing than src/ft.
- The parsing and printing of addresses, time formatting, the shell, hexdump, string helpers and prime tests: easy members next to these cores.
