# A verified model of the SOCKS5 tunnel

Two servers form a tunnel. A client talks SOCKS5 (RFC 1928, RFC 1929) to `socks5-server`; that server talks encrypted,
length-prefixed frames to `relay-server`; the relay talks to the target. This project models both servers and the
connection between them in Dafny and proves what the composition guarantees: for every chunking, interleaving, loss,
failure and close.

`dafny verify dfyconfig.toml` checks everything.

## How it is laid out

| file | subject |
|---|---|
| `bytes.dfy` | bytes, Go's narrowing conversions, facts about sequences |
| `constants.dfy` | the buffer size and the address types |
| `frames.dfy` | the frame format and streams of frames, as functions; the laws of the cipher |
| `link.dfy` | one direction of the link between the servers, byte by byte |
| `secure_conn.dfy` | `net.Conn`, `io.ReadFull` and `SecureConn` as classes and methods |
| `pump.dfy` | the pump loops of both TCP handlers, and how the two ends of a direction compose |
| `preamble.dfy` | how the target address reaches the relay |
| `lane.dfy` | one direction of a TCP tunnel as a step system |
| `pump_steps.dfy` | one turn of a pump loop, as code, is a path of steps of its direction |
| `tcp_tunnel.dfy` | four pumps, three connections, the relay's dialling phase, all closes |
| `tunnel_ends.dfy` | a handler that returns, bytes lost on the link |
| `key_exchange.dfy` | the two-party key exchange, as code and as a protocol |
| `address_text.dfy` | decimal numerals, dotted quads, host and port, as Go's `strconv` and `net` treat them |
| `spelling.dfy` | the same, character by character |
| `udp_header.dfy` | the UDP request header: bytes, text, and back |
| `parser.dfy` | handshake, authentication and request parsers |
| `session.dfy` | one client session as code, against an automaton of the protocol |
| `session_wire.dfy` | what the client is sent, byte by byte |
| `segmentation.dfy` | a session whose client's messages arrive in other pieces |
| `udp_association.dfy` | two goroutines, a mutex, the relay's loop and the link between them as one protocol |
| `udp_wire.dfy` | what stands in every datagram and frame of an association, byte by byte |
| `udp_stops.dfy` | what a UDP association can still give back once something in it has stopped |
| `udp_relay.dfy` | the relay's request loop as code |
| `udp_handler.dfy` | the two goroutines as code, and the round trip through both servers |
| `udp_steps.dfy` | one turn of a goroutine or of the relay, as code, is a path of steps of the association; losses |
| `end_to_end.dfy` | from the client's CONNECT request to what the relay dials |

Code that changes things step by step is a method or a class proved against a specification function. What happens
between goroutines and between the two servers is a step system whose invariant is proved over all its runs. The cipher
and the curve are arbitrary functions obeying the algebraic laws of section 2.8 of RFC 8439, section 6.1 of RFC 7748 and
section 2 of RFC 5869; for both a small instance shows that the laws can be met together.

## What the code does that its messages and documents do not say

Each of these is a theorem of the model; where the code falls short only in some cases, the theorem says exactly in
which.

* `SecureConn.Read` answers `io.EOF` not only at the end of a frame but also right behind a nonce and right behind a
  nonzero length, so a link cut there is logged as a normal end of data (`Frames.EofExactly`). Inside a tunnel, bytes
  are missing at such an end exactly if a write had failed (`TcpTunnel.RunEofComplete`), which does happen
  (`TcpTunnel.EofWithoutAll`).
* The key exchange makes a single `Read` for 32 bytes. The two sides are sure to share a key exactly if both reads
  return all 32 (`KeyExchange.AgreeExactly`); for every other pair of lengths there is a run in which both finish
  without an error and with different keys (`KeyExchange.ShortReadBreaksAgreement`). And exactly then a side stands at
  the first byte of its peer's frames (`KeyExchange.AlignedExactly`).
* Positions in a CONNECT request for a domain name are computed in eight bits. Names of up to 249 bytes are handled
  correctly; a 250-byte name gets a port whose low byte is 5; longer names and a four-byte request panic
  (`Parser.ConnectDomainExactly`, `Parser.ConnectExactly`). For a 250-byte name with a five-digit port the address text
  has 256 bytes, its length byte is 0, and the relay dials the empty text (`EndToEnd.RelayDialsText`).
* Once the pump that reads the client has stopped, after a half-close for one, the client can still get the whole reply
  exactly if all it lacks is the one payload the other pump has in hand (`TcpTunnel.RunAfterEnd`); in some run from
  every initial state with an address of 1 to 255 bytes it gets none of it, although the target sent all and the relay
  read all (`TcpTunnel.EndLoses`). Both theorems also hold with the roles of client and target exchanged.
* A session takes whatever one `Read` returns for one message. With a known pair, if one is asked for, and a relay that
  can be dialled, a client that waits for each answer is connected exactly if each of its messages arrives in one piece
  (`Segmentation.InStepOpens`), and one that sends handshake and request together exactly if they arrive as two
  (`Segmentation.PipelinedOpens`): a handshake cut short ends the session unanswered, and what arrives together with a
  handshake is dropped (`Segmentation.HandshakePieces`).
* Neither server notices bytes lost on the link between them: the pump or loop that wrote them goes on as before, and
  nothing that comes after them arrives (`TunnelEnds.LossGoesUnnoticed`, `UdpSteps.LostRequest`, `UdpSteps.LostReply`).
* Either TCP handler returns a minute after its pumps began, whatever is still under way; from then on its own peer gets
  and is asked for nothing (`TunnelEnds.ExitsSeal`).
* After the relay or a goroutine of a UDP association has stopped, the others go on with requests whose replies nobody
  may return; `UdpStops.RunAfterStop` counts exactly the datagrams that can still be given back.
* The branch of the UDP handler that goes on without unlocking is safe only because of what the relay does
  (`UdpAssociation.RunLockSafe`); were it ever taken, the mutex would be lost for good
  (`UdpAssociation.NilBranchWouldLock`, `UdpHandler.Association.ReturnReplies`).
* A reply datagram is headed with the client's own address, not with that of the host that answered, as section 7 of RFC
  1928 has it: it carries the header of the request it answers exactly if the client asked for its own address
  (`UdpAssociation.RunHeads`), and for every other there is a run in which it does not (`UdpAssociation.ForeignHead`).
  The reserved bytes and the fragment number of a request are not looked at (`UdpHeader.ParseExactly`).
* A domain name spelled like a dotted quad leads to the same address text, and the relay to the same dial, as that IPv4
  address. Two accepted requests lead to one text exactly if they agree in type, address and port, or collide in this
  way, or differ only in the low byte of the port of a 250-byte name (`Parser.TextDetermines`, `Parser.KindsCollide`,
  `EndToEnd.CollidingRun`). UDP headers collide in the same way (`UdpHeader.DstInjective`, `UdpHeader.BuildUndoesDst`).

## Model

| member | source | states |
|---|---|---|
| `Frames.ToyAeadIsLawful` | `pkg/crypto/secure_conn.go:49-63` | the laws assumed of the cipher (Open undoes Seal and accepts nothing else, a tag is sixteen bytes) can all hold at once |
| `Frames.FrameShape` | `pkg/crypto/secure_conn.go:57-76` | in a frame followed by anything, the nonce, the length modulo 65536, the ciphertext and what follows are found where Read looks for them |
| `Frames.ReadUndoesWrite` | `pkg/crypto/secure_conn.go:32-76` | reading what one Write sent, in front of anything, yields its plaintext and stops right behind the frame if and only if the plaintext has at most 65519 bytes |
| `Frames.EofExactly` | `pkg/crypto/secure_conn.go:32-47` | on a cleanly closed connection Read reports io.EOF if and only if nothing is left, or exactly a nonce, or exactly a nonce and a nonzero length |
| `Frames.CutBehindNonceLooksClean` | `pkg/crypto/secure_conn.go:33-41` | a frame cut behind its nonce is a proper piece of a frame and is nevertheless reported as a clean end |
| `Frames.CutFrameFails` | `pkg/crypto/secure_conn.go:32-52` | no proper piece of a frame, however it ends, yields a payload |
| `Frames.DecodesToBodies` | `pkg/crypto/secure_conn.go:32-76` | successive Reads over the concatenation of any Writes, followed by anything that is no whole frame, return exactly the list of payloads and then the fault the rest earns |
| `Frames.EncodingIsInjective` | `pkg/crypto/secure_conn.go:57-76` | two lists of Writes that put the same bytes on the wire carry the same payloads |
| `Link.NextFrame` | `pkg/crypto/secure_conn.go:32-55` | whatever the pieces in which bytes were emitted and collected, a completely collected frame is the next one written and opens to its payload: no reordering, duplication or forgery |
| `Link.DecodeKeeps` | `pkg/crypto/secure_conn.go:44-54` | decoding a frame keeps the link's balance: bytes collected, in transit and unsent are the encoding of the frames not yet decoded |
| `Link.BeginKeeps` | `pkg/crypto/secure_conn.go:57-76` | so does starting to write one |
| `Link.CutKeeps` | `pkg/crypto/secure_conn.go:44-47` | so does losing everything in transit past any point |
| `Link.DrainedMeansAll` | `pkg/crypto/secure_conn.go:32-47` | a reader told io.EOF at any of the three places has every payload, if the writer left no write unfinished |
| `Link.NothingMissing` | `pkg/crypto/secure_conn.go:32-55` | with nothing in transit and nothing unsent, the next undecoded frame is completely collected, so no reader waits for bytes nobody will send |
| `SecureChannel.NetConn.Read` | `pkg/crypto/x25519.go:38-44` | a plain read takes some non-empty piece of what arrives, puts it at the front of the buffer and leaves the rest of the buffer alone |
| `SecureChannel.ReadFull` | `pkg/crypto/secure_conn.go:34-45` | the loop fills the buffer with the next bytes whatever the segmentation, or says which of the three ways of falling short it met |
| `SecureChannel.SecureConn.Read` | `pkg/crypto/secure_conn.go:32-55` | result, error, buffer and bytes consumed depend only on the bytes that arrive; the part of the payload that does not fit in the buffer is dropped |
| `SecureChannel.SecureConn.Write` | `pkg/crypto/secure_conn.go:57-76` | one whole frame goes out, or the front of it that the connection took and an error; nothing on a closed connection |
| `Pump.FillOnce` | `socks5-server/internal/tcp/handler.go:77-101` | one turn of the filling loop writes exactly the chunk it read, as one frame, and stops for exactly the stated reasons, also when the sibling pump has closed an end |
| `Pump.PumpToLink` | `socks5-server/internal/tcp/handler.go:69-103` | the whole loop, on open and closed ends: chunks of 1 to 1024 bytes whose concatenation is what was read; the link got their encoding up to where it stopped taking bytes; the total counts them; the link end is closed |
| `Pump.DrainOnce` | `relay-server/internal/tcp/relay.go:97-121` | one turn of the draining loop passes on the next payload as far as the 1024-byte buffer holds it and the sink takes it, also when an end has been closed |
| `Pump.PumpFromLink` | `relay-server/internal/tcp/relay.go:89-123` | the whole loop, on open and closed ends: the sink gets the payloads of the frames in order up to the first fault, cut where it stopped taking bytes; then it is closed |
| `Pump.DeliversContent` | `socks5-server/internal/tcp/handler.go:105-139` | chunks made by a filling pump pass the draining pump's buffer whole and in order, and a piece of a further frame adds nothing |
| `Pump.CutPoint` | `pkg/crypto/secure_conn.go:70-73` | a stream of frames cut anywhere is some number of whole frames and a proper piece of the next |
| `Pump.PumpsCompose` | `relay-server/internal/tcp/relay.go:89-159` | filling pump, link and draining pump compose to delivering the first j chunks of what was read, all of them if and only if every write went through |
| `Preamble.SendTarget` | `socks5-server/internal/tcp/handler.go:31-52` | the two writes put the frames of the length byte and of the address on the link, and succeed if and only if the link takes both |
| `Preamble.ReceiveTarget` | `relay-server/internal/tcp/relay.go:29-67` | the two reads into one buffer yield the address determined by the two payloads, or none when either is missing or empty |
| `Preamble.TargetIntact` | `relay-server/internal/tcp/relay.go:48-67` | the relay ends up with the text that was sent if and only if it is 1 to 255 bytes long; otherwise with its front of length modulo 256, never with bytes of the earlier frame |
| `Preamble.StaleBytesExactly` | `relay-server/internal/tcp/relay.go:48-67` | for arbitrary payloads, bytes other than the second frame's are exposed if and only if the announced length exceeds it |
| `Lane.StepKeeps` | `socks5-server/internal/tcp/handler.go:77-102` | every read, write, piece of a write, loss, decode, delivery and stop in one direction keeps its invariant |
| `Lane.DecodeStepKeeps` | `relay-server/internal/tcp/relay.go:98-104` | the draining pump decodes exactly the next chunk, whole; nothing forged, nothing cut to the buffer |
| `Lane.SkipKeeps` | `relay-server/internal/tcp/relay.go:33-67` | the dialling phase consumes address frames in front of the chunks and gets the payloads that were written |
| `Lane.Conservation` | `socks5-server/internal/tcp/handler.go:77-102` | the bytes read from the source are, in order, those the sink took, those the draining pump holds, those in frames on the way and those the filling pump holds; so the sink has a prefix of the source's stream |
| `Lane.EofComplete` | `relay-server/internal/tcp/relay.go:111-121` | when the draining pump saw io.EOF and the filling pump is done, the sink has all that was read if and only if the filling pump did not stop on a failed write, and all there ever was if it stopped on end of file |
| `Lane.GoesOn` | `relay-server/internal/tcp/relay.go:97-122` | while the sink lacks something the source will ever send, an undisturbed direction has a step to take, and stays undisturbed |
| `Lane.LastWordsOnly` | `socks5-server/internal/tcp/handler.go:70-72` | after this side has closed the link end, no step raises what the sink can still get: what it has and, while its end is open, the one payload the draining pump holds or has collected whole |
| `Lane.LastWordsWithin` | `relay-server/internal/tcp/relay.go:90-92` | that is a prefix of what the source sends, and all of it exactly if the sink has everything or lacks just that payload |
| `Lane.StepShrinks` | `relay-server/internal/tcp/relay.go:97-122` | every step of a direction makes a weighted count of bytes and pump states smaller |
| `PumpSteps.FillAlong` | `socks5-server/internal/tcp/handler.go:77-101` | one turn of the filling loop as code, started where a direction of the tunnel stands, moves that direction by a path of its steps to where the code then stands: same bytes read, same bytes on the wire, same reason to stop |
| `PumpSteps.DrainAlong` | `relay-server/internal/tcp/relay.go:97-121` | likewise one turn of the draining loop: same bytes left on the wire, same bytes in the sink, same reason to stop |
| `TcpTunnel.StepKeeps` | `relay-server/internal/tcp/relay.go:29-159` | every step of the composed tunnel (both directions, dialling, closes, handler exits) keeps the composed invariant |
| `TcpTunnel.RunInv` | `socks5-server/internal/tcp/handler.go:30-155` | the invariant holds in every state of every run |
| `TcpTunnel.RunConserves` | `socks5-server/internal/tcp/handler.go:70-139` | byte conservation and prefix delivery, in both directions, in every state of every run |
| `TcpTunnel.RunDials` | `relay-server/internal/tcp/relay.go:33-82` | whatever the relay has dialled is the address cut to its length modulo 256, the very address if and only if that is at most 255; before it has dialled, no byte reaches the target or the client |
| `TcpTunnel.RunEofComplete` | `relay-server/internal/tcp/relay.go:97-158` | end-of-file completeness, in both directions, in every state of every run |
| `TcpTunnel.EofWithoutAll` | `relay-server/internal/tcp/relay.go:132-156` | from every initial state with an address of 1 to 255 bytes and a target that sends anything, a run in which the draining pump is told io.EOF right behind a nonce, the filling pump has stopped on a failed write, and the byte it read never reaches the client |
| `TcpTunnel.RunWritesFit` | `relay-server/internal/tcp/relay.go:136-140` | in every run a chunk a pump holds has 1 to 1024 bytes, fits the two length bytes and can be begun at once |
| `TcpTunnel.RunsEnd` | `socks5-server/internal/tcp/handler.go:141-154` | no run is longer than the measure of its first state |
| `TcpTunnel.TunnelGoesOn` | `socks5-server/internal/tcp/handler.go:67-139` | a tunnel in which nothing has failed or ended can go on so until it has dialled and delivered both streams whole; with the measure, undisturbed runs that go on end there |
| `TcpTunnel.CanDeliver` | `relay-server/internal/tcp/relay.go:29-159` | from every such state some path, no longer than the measure, delivers all that either peer will ever send |
| `TcpTunnel.Works` | `socks5-server/internal/tcp/handler.go:30-139` | from every initial state with an address of 1 to 255 bytes some run dials that address and carries both streams whole |
| `TcpTunnel.NoStuckPump` | `relay-server/internal/tcp/relay.go:90-92` | while one of the four pumps has stopped and another has not, some step that waits for no peer is possible |
| `TcpTunnel.Cascade` | `socks5-server/internal/tcp/handler.go:106-108` | once one pump has stopped, a sequence of steps none of which waits for a peer, no longer than the measure, stops all four |
| `TcpTunnel.RunSettles` | `relay-server/internal/tcp/relay.go:126-128` | a run that cannot go on without a peer has all four pumps stopped if and only if any has |
| `TcpTunnel.RunAfterEnd` | `socks5-server/internal/tcp/handler.go:70-107` | in every run, once the pump reading one peer has stopped, some way on delivers all the other peer sends if and only if the receiving peer has it already or, its end being open, lacks just the one payload in hand; no way on delivers more than that payload, and some way does deliver it; for both directions |
| `TcpTunnel.EndLoses` | `relay-server/internal/tcp/relay.go:90-128` | from every initial state with an address of 1 to 255 bytes some run dials it, delivers one peer's stream whole up to its end of file, reads the other peer's stream whole, and ends with all pumps stopped and not a byte of the latter delivered; for both directions |
| `TunnelEnds.ExitsSeal` | `socks5-server/internal/tcp/handler.go:141-154` | either handler may return at any moment (a minute after its pumps began, for one), and from then on its own peer gets and is asked for not one byte more, and the link no byte from its side, on every continuation |
| `TunnelEnds.LossGoesUnnoticed` | `relay-server/internal/tcp/relay.go:132-146` | from every initial state with an address of 1 to 255 bytes and a target that sends anything, a run that loses the first bytes of a frame, after which the pump that wrote it is back at reading and the client gets nothing on any continuation |
| `KeyExchange.ToyDhIsLawful` | `pkg/crypto/x25519.go:56-64` | the laws assumed of the curve and the key derivation can all hold at once |
| `KeyExchange.GenerateSharedSecret` | `pkg/crypto/x25519.go:16-67` | one side's call, either role: which bytes are read and written; a key is returned exactly if a byte was read, the 32 bytes of the own key were taken and the curve has a result for what was read, padded with zeros; and it is the 32 bytes derived from that result |
| `KeyExchange.SecretAlong` | `pkg/crypto/x25519.go:30-54` | a call that gets to read, with room for the own key, is two steps of the exchange in the order of its role, from where its connection stands to where it then stands |
| `KeyExchange.StepKeeps` | `pkg/crypto/x25519.go:30-54` | each step of either party keeps what is written, in transit and read in balance |
| `KeyExchange.AlignedExactly` | `pkg/crypto/x25519.go:38-44` | in every run a party that has read its peer's key stands at the first byte of the peer's frames if and only if its single Read returned 32 bytes |
| `KeyExchange.FramesFollow` | `pkg/crypto/x25519.go:38-66` | in every run with two whole reads, if what a party wrote behind its key are frames, successive reads of the peer return exactly their payloads |
| `KeyExchange.FramesCanFollow` | `pkg/crypto/x25519.go:30-54` | for all private keys and payloads there is such a run |
| `KeyExchange.KeysAgree` | `pkg/crypto/x25519.go:56-66` | if both single Reads returned 32 bytes, both sides hold one key, of 32 bytes, derived from what the curve makes of a private key and the other side's public one, or both learn that there is none |
| `KeyExchange.AgreeExactly` | `pkg/crypto/x25519.go:30-66` | for read lengths of 1 to 32, every run over every lawful curve and all private keys ends in agreement if and only if both lengths are 32 |
| `KeyExchange.NoDeadlock` | `pkg/crypto/x25519.go:30-54` | in every run, until both parties are done one of them can write its key or read bytes that have arrived |
| `KeyExchange.ShortReadBreaksAgreement` | `pkg/crypto/x25519.go:38-44` | for every other pair of lengths, a run with reads of these lengths in which both parties finish without an error and their keys differ |
| `AddressText.DecIsCanonical` | `socks5-server/internal/parser/parser.go:114` | a number is printed as a canonical decimal numeral of the same value, in the characters 0 to 9 |
| `Spelling.DecSpelled` | `pkg/udp_associate/header.go:46` | the text printed for a number is its decimal numeral, read from left to right in the characters 0 to 9 and without zeros in front; no other text is |
| `Spelling.AtoiSpelled` | `pkg/udp_associate/header.go:57-60` | exactly what any text is read as: digits as their number, one sign in front respected, anything else as 0 |
| `Spelling.QuadSpelled` | `pkg/udp_associate/header.go:39` | a text is what is printed for four octets if and only if it is their four numerals with full stops between them |
| `Spelling.HostPortSpelled` | `socks5-server/internal/parser/parser.go:114-125` | a text is what is printed for a host and a port if and only if it is the host, a colon and the port's numeral |
| `Spelling.JoinSpelled` | `pkg/udp_associate/header.go:46` | likewise for a destination, whose host is put in square brackets if it has colons |
| `Spelling.SplitSpelled` | `pkg/udp_associate/header.go:52-55` | a text comes apart into this host and port text if and only if it is them with a colon between, the host in square brackets or without colons, and neither with brackets of its own |
| `AddressText.CanonicalIsDec` | `pkg/udp_associate/header.go:57` | every such numeral is what printing its value gives |
| `AddressText.QuadExactly` | `pkg/udp_associate/header.go:62-66` | a text is recognised as these four octets if and only if it is their dotted decimal form |
| `AddressText.PlainSplits` | `pkg/udp_associate/header.go:52-55` | host:port comes apart again if and only if the host has neither colons nor brackets |
| `AddressText.JoinSplits` | `pkg/udp_associate/header.go:46-55` | joining host and port and splitting them again is the identity if and only if the host has no brackets |
| `AddressText.AtoiDec` | `pkg/udp_associate/header.go:57` | reading a printed number gives the number |
| `UdpHeader.HeaderLength` | `pkg/udp_associate/header.go:16-32` | a header is 10 bytes long for IPv4 and 7 more than its name otherwise, at most 262 on the wire |
| `UdpHeader.ParseUndoesBytes` | `pkg/udp_associate/header.go:16-126` | parsing an encoded header and a payload gives both back if and only if the name has at most 255 bytes |
| `UdpHeader.ParseExactly` | `pkg/udp_associate/header.go:81-126` | a packet is accepted with this header and payload if and only if, reserved bytes and fragment number aside, it is their encoding |
| `UdpHeader.BuildUndoesDst` | `pkg/udp_associate/header.go:34-79` | building a header from a printed one gives it back for every IPv4 address, and for a name if and only if it has no brackets and is not itself an address's text |
| `UdpHeader.BuildExactly` | `pkg/udp_associate/header.go:49-79` | for any text, a header is built exactly if it comes apart and its port text reads as 0 to 65535; the port is that, and the host its octets if it is an address and itself if not |
| `UdpHeader.DstInjective` | `pkg/udp_associate/header.go:34-47` | headers of whatever type name the same destination if and only if address text and port are the same; headers of one type only if they are equal |
| `Parser.ParseHandshake` | `socks5-server/internal/parser/parser.go:22-56` | in terms of the request's bytes, for any order of the methods: 2 exactly if the request is well formed and offers 2; 0 exactly if it is, does not offer 2, offers 0 and 0 is allowed |
| `Parser.SelectedExactly` | `socks5-server/internal/parser/parser.go:22-56` | the specification the scan is proved against says just that, and which requests are invalid and which find no method |
| `Parser.ChoiceIgnoresOrder` | `socks5-server/internal/parser/parser.go:37-55` | permuting the offered methods does not change the choice |
| `Parser.AuthExactly` | `socks5-server/internal/parser/parser.go:58-84` | a request is accepted as this pair if and only if it is the pair's encoding and name and password have two characters between them |
| `Parser.AuthInjective` | `socks5-server/internal/parser/parser.go:58-84` | no two pairs share an encoding |
| `Parser.ConnectIpv4` | `socks5-server/internal/parser/parser.go:106-114` | every encoded IPv4 request is parsed to the text of its address and port |
| `Parser.ConnectDomainExactly` | `socks5-server/internal/parser/parser.go:116-125` | a name is parsed as encoded if and only if it has at most 249 bytes, or 250 and a port ending in 5; panics if and only if it has 251 or more |
| `Parser.EightBitIndices` | `socks5-server/internal/parser/parser.go:123-124` | the eight-bit positions behind the name are the intended ones if and only if the name has at most 249 bytes |
| `Parser.ConnectExactly` | `socks5-server/internal/parser/parser.go:86-132` | exactly which requests are accepted and exactly which panic |
| `Parser.AsksExactly` | `socks5-server/internal/parser/parser.go:86-132` | a request leads to this text if and only if it is a CONNECT for an address and the text is its dotted numerals, a colon and the port in network order, or for a name of up to 250 bytes likewise, with 5 for the low byte of the port at 250; UDP ASSOCIATE leads to the empty text |
| `Parser.TextFits` | `socks5-server/internal/tcp/handler.go:32-33` | the address text of an accepted request has 1 to 256 bytes, more than its length byte can say exactly for a 250-byte name with a five-digit port |
| `Parser.TextDecodes` | `socks5-server/internal/parser/parser.go:114-125` | host and port can be read off the address text at its last colon |
| `Parser.TextDetermines` | `socks5-server/internal/parser/parser.go:106-131` | any two accepted CONNECT requests lead to the same address text if and only if host and port are parsed the same; in bytes: the same but for the reserved byte (and the last one with a 250-byte name), or a name that is the other's address text with the same port |
| `Parser.KindsCollide` | `socks5-server/internal/parser/parser.go:106-125` | for every address and port, the request for it and the request for the domain spelled like it are accepted with one and the same text |
| `Session.DialledMeansVouched` | `socks5-server/internal/socks5/handler.go:36-103` | in every sequence of events the protocol allows, the relay is dialled only after no authentication was selected as configured, or after the user store accepted the client |
| `Session.OutputIsGrammar` | `socks5-server/internal/socks5/handler.go:36-124` | in every such sequence the client sees a method reply, a verdict only behind the password method, at most one ten-byte request reply and only when it passed, and tunnelled bytes only behind success |
| `Session.ConnectedMeansAnnounced` | `socks5-server/internal/tcp/handler.go:31-65` | in every such sequence the success reply of a CONNECT comes right behind address frames that the relay's link took whole |
| `Session.AllowedFollows` | `socks5-server/internal/socks5/handler.go:36-186` | in every allowed sequence: a dial stands right behind 05 00 or 01 00, 01 00 behind the store's yes, a question to the store behind 05 02, address frames behind a CONNECT's dial, success with a port behind a dial for UDP, tunnelled bytes behind success |
| `Session.ScriptAllowed` | `socks5-server/internal/socks5/handler.go:16-186` | whatever messages a session hears, what it then does is allowed by the protocol automaton |
| `Session.AnnouncedIsRequested` | `socks5-server/internal/socks5/handler.go:75-120` | the address in these frames is the one parsed from the request proper of a client that passed |
| `Session.Conversation.Hear` | `socks5-server/internal/socks5/handler.go:22-31` | one read into the shared buffer, recorded as one message; nothing is heard that did not arrive and nothing is skipped |
| `Session.Conversation.HandleAuthMethod` | `socks5-server/internal/socks5/handler.go:127-186` | it follows the script, succeeds only for a client that passed, and fails only when a write failed, the client did not pass or no message arrived |
| `Session.Conversation.HandleConnection` | `socks5-server/internal/socks5/handler.go:16-125` | the session follows the script of what it heard, to its end unless a write to the client failed; it stops listening only when it wants nothing more or nothing arrives; the connection ends closed |
| `Session.Conversation.Respond` | `socks5-server/internal/socks5/handler.go:75-98` | the request proper gets exactly the answer of the script, or panics if and only if its parser does |
| `Session.Conversation.Relay` | `socks5-server/internal/socks5/handler.go:103-124` | one dial, then a failure reply or the hand-over the command asks for, with the parsed address |
| `Session.Conversation.HandleTcpAssociate` | `socks5-server/internal/tcp/handler.go:30-65` | the link gets the two address frames as far as it takes them; the success reply goes out exactly if it took both, and tunnelled bytes only behind that |
| `Session.Conversation.HandleUdpAssociate` | `socks5-server/internal/udp/handler.go:30-59` | one write of ten bytes: the failure if there is no listener, else success, 127.0.0.1 and, in the last two, the listener's port in network order |
| `Session.RunSession` | `socks5-server/internal/socks5/handler.go:16-186` | a whole session on any client connection: messages in order without gaps, script, grammar, vouching, what stands behind what, success only behind address frames, the address asked for, the listener's own port after a dial for UDP, the store's and the dial's own outcome in every event, panic exactly when the parser panics, all bytes the client got |
| `SessionWire.AnswerSeen` | `socks5-server/internal/socks5/handler.go:75-124` | byte by byte what the request proper is answered with: nothing on a panic or if the relay's link does not take the address frames, the failure for a refused request, a relay that cannot be dialled and a missing listener, else success followed by the tunnel's bytes, or with the listener's port |
| `SessionWire.ScriptSeen` | `socks5-server/internal/socks5/handler.go:22-186` | byte by byte all a session writes to the client for any sequence of messages heard: nothing, 05 FF, 05 00 and the answer, or 05 02 and the verdict, which is 01 00 exactly for the encoding of a pair the store knows, and then the answer |
| `SessionWire.GoesOnExactly` | `socks5-server/internal/socks5/handler.go:22-83` | in terms of the bytes heard, exactly when a session reads another message, and exactly when one makes it panic |
| `Segmentation.AnnouncesExactly` | `socks5-server/internal/socks5/handler.go:22-120` | a session hands an address to the relay if and only if the message heard at the place of the request is accepted as a CONNECT request for it and the relay can be dialled |
| `Segmentation.InStepOpens` | `socks5-server/internal/socks5/handler.go:22-83` | a client that waits for each answer, and of each message sends the session any front in one piece, is connected if and only if each was heard whole, its pair (if asked for) is known and the relay can be dialled; and to no other address |
| `Segmentation.PieceOfRequest` | `socks5-server/internal/parser/parser.go:83-131` | of all contiguous pieces of a CONNECT request only the whole asks for what the whole asks for, even with one address spelled inside the other's text |
| `Segmentation.PipelinedOpens` | `socks5-server/internal/socks5/handler.go:22-83` | a client without authentication that sends handshake and request in one go, heard in any pieces, is connected to what it asked for if and only if the first two pieces heard are the two messages |
| `Segmentation.HandshakePieces` | `socks5-server/internal/socks5/handler.go:22-63` | a handshake cut short gets no byte and ends the session; one heard with bytes behind it gets only the method reply, those bytes are gone, and the session waits for a message |
| `UdpAssociation.StepKeeps` | `socks5-server/internal/udp/handler.go:73-179` | every step of either goroutine, the relay or the link keeps the invariant that spans both servers |
| `UdpAssociation.RunInv` | `relay-server/internal/udp/relay.go:29-88` | the invariant holds in every state of every run |
| `UdpAssociation.ReplyMeansClient` | `socks5-server/internal/udp/handler.go:101-107` | a reply frame on the link implies that the client's address is set, to the first sender's |
| `UdpAssociation.RunLockSafe` | `socks5-server/internal/udp/handler.go:101-107` | in every run the address is set whenever it is checked, so the branch that keeps the mutex is never taken, and the mutex is held exactly by a goroutine inside its critical section |
| `UdpAssociation.RunMutexReturns` | `socks5-server/internal/udp/handler.go:155-161` | in every run a held mutex is given back by its holder within two steps, none of them input or output |
| `UdpAssociation.NilBranchWouldLock` | `socks5-server/internal/udp/handler.go:102-105` | had the branch been taken, no later step would ever free the mutex or let a goroutine in |
| `UdpAssociation.RunWriteOnce` | `socks5-server/internal/udp/handler.go:106-122` | along every run the client's address never changes once set |
| `UdpAssociation.RunFirstSender` | `socks5-server/internal/udp/handler.go:155-160` | in every run it is the sender of the first datagram |
| `UdpAssociation.RunWritesFit` | `relay-server/internal/udp/relay.go:126-132` | in every run a request frame carries at most 1500 bytes and a reply frame at most 1762, so every write, send and dial about to be made can be made |
| `UdpAssociation.RunPairs` | `relay-server/internal/udp/relay.go:29-143` | in every run the relay is zero or one request ahead of its replies; the k-th payload sent out, reply frame and datagram given back belong to the k-th request; nothing is given back twice or early |
| `UdpAssociation.ReplySurvives` | `relay-server/internal/udp/relay.go:105-132` | a reply's header is never cut, and the response survives up to 1500 bytes minus the header, whole if and only if both fit |
| `UdpAssociation.RequestIntact` | `socks5-server/internal/udp/handler.go:139-169` | a datagram of at most 1500 bytes reaches the relay's parser as the client made it |
| `UdpAssociation.RunDelivers` | `socks5-server/internal/udp/handler.go:74-127` | in every run the k-th datagram given back goes to the first sender and carries that front of the k-th response, all of it if and only if it fits |
| `UdpAssociation.RunHeads` | `socks5-server/internal/udp/handler.go:109-118` | in every run a returned datagram is headed with the client's own octets and port, and so carries the header of the request it answers if and only if that request was for the client's own address |
| `UdpAssociation.ForeignHead` | `socks5-server/internal/udp/handler.go:109-122` | for every sender, every other well-formed header, payload within 1500 bytes and answer, a run that gives back the one datagram, headed with the sender's address and without the request's header |
| `UdpAssociation.GoesOn` | `socks5-server/internal/udp/handler.go:73-179` | while nothing has stopped or been cut, all datagrams parse and one is unanswered, a step other than a further datagram, a stop or a loss is possible and keeps it so, whatever the target answers |
| `UdpAssociation.QuietShrinks` | `relay-server/internal/udp/relay.go:29-88` | each such step makes a weighted count of requests, bytes and goroutine states smaller |
| `UdpAssociation.RunCanReturn` | `relay-server/internal/udp/relay.go:29-143` | in every run, from such a state and for all answers the targets may give, some path of such steps gives back the reply to every datagram |
| `UdpStops.StepMost` | `socks5-server/internal/udp/handler.go:73-179` | once a goroutine or the relay has stopped or a direction has been cut, no step raises the number of datagrams that can have been given back in the end |
| `UdpStops.MovesOn` | `relay-server/internal/udp/relay.go:29-88` | while fewer have been given back, a step that is no datagram, stop or loss is possible and leaves that number as it is, whatever the target answers |
| `UdpStops.RunAfterStop` | `socks5-server/internal/udp/handler.go:68-131` | in every run, from every state with something stopped or cut, some continuation gives back exactly that many datagrams and none more: those given back; with the returner alive also the reply in hand and those arrived whole; with relay and reply direction alive also the replies begun and those to the requests still to be parsed |
| `UdpAssociation.BuildOfAddr` | `socks5-server/internal/udp/handler.go:110-118` | the client's printed address comes apart into its dotted octets and its port's numeral; the header built from it is theirs, port in network order; building it cannot fail |
| `UdpWire.ParseOnWire` | `pkg/udp_associate/header.go:81-126` | which packets are accepted and where in them type, address, port and payload stand; the header is encoded as it stood there, reserved bytes and fragment number zeroed |
| `UdpWire.RequestOnWire` | `relay-server/internal/udp/relay.go:61-96` | what the relay sends out for a datagram: what was read of it behind its header, to the dotted address or the name (in brackets if it has colons) and the port that stand in it |
| `UdpWire.ReplyOnWire` | `relay-server/internal/udp/relay.go:105-132` | the reply frame carries the request's header, its first three bytes zeroed, and up to 1500 bytes of the response; what passes the client's side is the front that fits with the header in 1500 |
| `UdpWire.RunOnWire` | `socks5-server/internal/udp/handler.go:73-179` | in every run, byte by byte and for every k: the k-th request frame, payload sent out and its destination, reply frame and returned datagram in terms of the k-th datagram, the k-th response and the first sender's octets and port |
| `UdpWire.AnsweredOnWire` | `relay-server/internal/udp/relay.go:37-128` | what UdpHandler.ThereAndBack says of each datagram, in those terms: it is readable, the target in it answered, and the part is the front of that answer; or it is not readable or not answered |
| `UdpWire.ExchangeOnWire` | `relay-server/internal/udp/relay.go:37-128` | for any payload of a frame, the relay's reply is this one if and only if the payload is readable, its destination answers, and the reply is the header in it, its first three bytes zeroed, and what is read of the answer |
| `UdpSteps.ForwardAlong` | `socks5-server/internal/udp/handler.go:139-175` | one turn of the forwarding loop as code, started where an association stands, moves it by a path of its steps to where the code then stands: datagram, mutex, client's address, bytes on the link, going on, stopping or waiting |
| `UdpSteps.ReturnAlong` | `socks5-server/internal/udp/handler.go:74-129` | likewise one turn of the returning loop, the mutex it keeps for an unknown client included |
| `UdpSteps.ServeAlong` | `relay-server/internal/udp/relay.go:29-143` | likewise one turn of the relay's loop, with the look at the context, the target asked and its answer |
| `UdpSteps.LostRequest` | `socks5-server/internal/udp/handler.go:164-175` | for every sender and datagram a run in which the link loses the request, all three are back at reading, and nothing is given back on any continuation |
| `UdpSteps.LostReply` | `relay-server/internal/udp/relay.go:126-143` | for every sender, readable datagram and answer a run in which the target answers, the link loses the reply, all three are back at reading, and nothing is given back on any continuation |
| `UdpRelay.NextReply` | `relay-server/internal/udp/relay.go:37-128` | one exchange: the reply is the request's own header and the front of the response, or none if reading, parsing, dialling or the exchange fails |
| `UdpRelay.HandleUdpRelay` | `relay-server/internal/udp/relay.go:16-89` | the loop writes the reply frames of all requests up to the first that fails or that finds the context cancelled, in order, as far as the link takes them, and closes the link |
| `UdpRelay.ServesPayloads` | `relay-server/internal/udp/relay.go:29-88` | on a stream of whole frames the replies are the answers to their payloads in turn |
| `UdpRelay.AnswersInTurn` | `relay-server/internal/udp/relay.go:29-88` | the i-th reply answers the i-th payload, and replies are missing only behind one that could not be answered or with the context cancelled |
| `UdpHandler.Association.ForwardOnce` | `socks5-server/internal/udp/handler.go:139-175` | one turn: the datagram's first 1500 bytes become one frame, the first sender becomes the client, the mutex is free again; or the goroutine waits with the datagram because the mutex is held |
| `UdpHandler.Association.ForwardDatagrams` | `socks5-server/internal/udp/handler.go:133-179` | the whole loop: one frame per datagram in order as far as the link takes them, and the client is the first sender; nothing at all if the mutex is held |
| `UdpHandler.Association.ReturnOnce` | `socks5-server/internal/udp/handler.go:74-129` | one turn, with every way it ends; for an unknown client it goes on with the mutex held |
| `UdpHandler.Association.ReturnReplies` | `socks5-server/internal/udp/handler.go:68-131` | the whole loop outright: with a known client all payloads go to it in order and the mutex ends up free; with an unknown one nothing is sent, the first reply costs the mutex and the second blocks the goroutine; with the mutex held the first does |
| `UdpHandler.ReturnsUnrolls` | `socks5-server/internal/udp/handler.go:101-127` | that outright account of all turns is the account of one turn followed by that of the rest |
| `UdpHandler.RequestsAre` | `socks5-server/internal/udp/handler.go:138-169` | the frames of the forwarding loop are those the protocol invariant speaks of, and all fit the length bytes |
| `UdpHandler.ThereAndBack` | `relay-server/internal/udp/relay.go:29-143` | the three loops composed: the i-th payload given back is what survives of the target's response to the i-th datagram, asked for with the context not cancelled, and they end only behind a datagram that could not be answered or with the context cancelled |
| `EndToEnd.RelayDialsText` | `socks5-server/internal/parser/parser.go:106-131` | in every run of a tunnel for an accepted CONNECT, the relay dials the text the parser produced, spelled as Parser.AsksExactly says, unless the request has a 250-byte name and a five-digit port, and then dials the empty text |
| `EndToEnd.SessionRelayDials` | `socks5-server/internal/socks5/handler.go:75-120` | when a session has sent address frames, the client had asked for that address, and in every run of the tunnel the relay dials the text of that request, with the one exception above |
| `EndToEnd.RelayDialsOctets` | `relay-server/internal/tcp/relay.go:67-74` | for an IPv4 request, what the relay dials is the request's own octets in dotted form, a colon and its port, and decodes to them |
| `EndToEnd.DistinctTargets` | `socks5-server/internal/tcp/handler.go:32-52` | in any two runs for accepted requests the relay dials the same target if and only if the requests ask for the same one in the sense of Parser.TextDetermines, or both texts are too long to get through |
| `EndToEnd.CollidingRun` | `relay-server/internal/tcp/relay.go:67-74` | for every address and port, a run that serves the request for it and the request for the domain spelled like it alike |

## Left out

- Cipher, curve, HKDF and SHA-256 internals: foreign code, present only through their laws; no secrecy is claimed.
- Failures of the random source in Write and GenerateSharedSecret: nonces and private keys are parameters.
- Sockets, DNS, dialling and timers: a connection is a stream that delivers any pieces, breaks or closes; every deadline is a step that may fail at any time.
- TcpTunnel.Cascade: assumes nothing of the peers, but a pump's last step and its deferred Close are one step; both peers send finitely much, which only the results about termination and complete delivery need.
- TcpTunnel.RunDials: the SOCKS5 handler's success reply between the address frames and the pumps is part of the session model, not of the tunnel; its failure is a handler exit.
- Pump.PumpToLink: a sibling's close is seen when the loop starts; one in the middle of the loop is the subject of the tunnel model, and so it is for Pump.PumpFromLink.
- Session.Conversation.HandleTcpAssociate: the bytes tunnelled back are one write of a parameter; how they come about is the subject of the tunnel model.
- Session.Conversation.HandleConnection: CheckUser, the configuration and the outcome of dialling are parameters; the default branches for methods and commands the parsers never return are absent.
- UdpHandler.Association.ForwardDatagrams: on the level of code one goroutine goes on while the other rests; their interleaving, with the address becoming known and the mutex changing hands in between, is the subject of UdpAssociation, where both are step systems whose paths the turns of the code are (UdpSteps).
- UdpHandler.Association.ReturnReplies: likewise, the client's address does not become known during the loop.
- Segmentation.PipelinedOpens: for clients without authentication; bytes of a user name or password can themselves spell a known pair or a request, so with authentication only Segmentation.AnnouncesExactly says which pieces connect.
- PumpSteps.FillAlong: one turn at a time with the ends as the turn finds them; a close in the middle of a turn is a step of the tunnel model only, and so it is for PumpSteps.DrainAlong.
- UdpSteps.ForwardAlong: likewise one turn at a time, with nobody else moving in between; and so it is for UdpSteps.ReturnAlong and UdpSteps.ServeAlong.
- KeyExchange.SecretAlong: a call that fails before it has read is not a step of the exchange, which is about sides that both finish.
- UdpAssociation.RunPairs: closing a connection under a reader is modelled as that reader's call failing; the 1500-byte buffers are fresh on every turn in the code and are values here.
- UdpHeader.BuildUndoesDst: net.ParseIP is modelled on texts without colons; what it makes of texts with colons (IPv4-mapped IPv6 and the rest of IPv6) is an arbitrary function.
- AddressText.JoinSplits: SplitHostPort is modelled with one error for all its error texts.
- GenerateSharedSecret's context argument and the logger everywhere: neither changes what is read, written or returned.
- SecureConn.CloseWrite: no caller.
- Substitution of docker addresses in remote_conn.go, configuration loading, address validation: input and output, or easy.
- Storage, migrations, the web interface, accept loops and shutdown counting: plumbing around the tunnel.
