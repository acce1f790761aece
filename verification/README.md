# A verified model of the SSH stack in `paramiko/`

Wetland carries its own copy of Paramiko and relays attackers' sessions through it. This project models the parts of
that stack whose correctness rests on state and arithmetic, in Dafny 4.11, and proves what they promise:

* **Byte codecs** (`Bytes`, `LongCodec`, `Messages`, `Ber`): Python longs as byte strings, the typed SSH message, BER trees.
* **Arithmetic** (`ModArith`, `Drawing`, `Moduli`): modular inverse, Diffie-Hellman, bit lengths, random numbers below a
  limit drawn as masked bytes, and the choice of a group for a range of sizes.
* **The packet layer** (`Framing`, `Packets`, `Streams`, `Rekey`): framing over block ciphers with chaining state, a
  packetizer over a socket that cuts the stream anywhere, messages from one packetizer to another, and the rekey
  accounting that bounds the use of one key.
* **Channels** (`Pipes`, `Windows`, `Channels`, `Links`, `ChannelIds`): buffers with a readiness pipe, the window protocol
  as a step system, the channel object, two of them as a run of that protocol, and the numbers channels get.
* **Files** (`Lines`, `Sftp`): buffered lines with universal newlines, and reading a remote file through a prefetch cache
  fed by replies in any order.
* **Key exchange** (`Negotiation`, `Kex`, `Gex`, `Gate`): both ends of the fixed-group and of the group exchange, key
  derivation and rekeying, and the lock and event that hold user messages back meanwhile.
* **The SCP log parser** (`PlayLog`): the recursive parser that rebuilds a directory tree from recorded messages.

Code that updates fields is a class whose methods are proved against functions of the old state. Where threads or ends
interleave (`Windows`, `Gate`, `Rekey`, `ChannelIds`), the protocol is a step system and its theorems hold for every run;
a key exchange (`Kex`, `Gex`) is the two ends' methods called in the one order the messages impose. Ciphers, hashes, MACs
and signatures are parameters with only the laws that are used: a decryptor inverts its encryptor block by block, digests
are not empty, a key verifies its own signatures. What comes from outside (how much a socket takes or gives, timeouts,
server replies, random bytes, what other threads do during a wait) is a finite script; a method reports that it is still
waiting only when its script has run out, and nothing is claimed about runs that wait forever.

Places where the code does less than its comments or its design say, each with the exact condition or an input:

* User data can enter a key exchange when our KEXINIT is sent before the peer's NEWKEYS of the previous exchange
  (`Gate.PrematureAnnouncementExposes`).
* A group-exchange request that is inconsistent, or whose preferred size the server does not accept, leaves both ends
  hashing different bytes (`Gex.HashedBytesAgreeIffConsistent`, `Gex.InconsistentRequestSplitsHashes`).
* The fallback choice of a modulus is not always the closest size (`Moduli.ClosestUnlessStraddled`).
* A number reserved for a channel the peer asked for can be handed out again; live channels keep distinct numbers exactly
  when no put finds its number taken (`ChannelIds.History`, `ChannelIds.Lap`).
* The fallback of `bit_length` is wrong for negative integers but -2^(8k-1) (`Drawing.NegativeBits`).
* Feeding empty data makes a channel look readable; apart from that the pipe is always accurate
  (`Pipes.EmptyFeedMisleads`, `Pipes.AccurateUnlessMisled`).
* A chunk of file content that is a single NUL ends the file early (`PlayLog.ContentsOfSent`).
* Booleans and strings are encoded by the BER class but cannot be decoded by it (`Ber.RoundTrip`).
* A list of names survives the message only if it is not empty (`Messages.SplitJoin`).
* The padding field is too small for block sizes above 252 (`Framing.PaddingRange`).
* `sendall` after our own end of file goes round without sending anything until somebody closes the channel
  (`Channels.Channel.SendAll`).
* A line-buffered file returns before the buffer size is looked at, although the comment there says the size forces a
  flush (`Lines.WriteFile.Write`).
* `deflate_long(0)` is one zero byte, where section 5 of RFC 4251 asks for the empty string; both read back as 0.

The command `dafny verify dfyconfig.toml` checks the whole project.

## Model

| member | source | states |
|---|---|---|
| LongCodec.InflateLong | paramiko/util.py:37-55 | the word-at-a-time loop, filler included, gives the byte-by-byte value of the string: two's complement, or unsigned when asked for |
| LongCodec.DeflateLong | paramiko/util.py:62-90 | the two loops together give the normalised form, with or without sign padding, for every integer |
| LongCodec.ShiftOut | paramiko/util.py:66-70 | the shifted-out words and the remaining sign stand for the number, and the words are not all sign bits |
| LongCodec.DropLeading | paramiko/util.py:71-84 | dropping leading zeros or FFs leaves the one string without leading sign bytes, the degenerate 0 and -1 included |
| LongCodec.StripUnique | paramiko/util.py:71-84 | no other string without leading sign bytes has the same value |
| LongCodec.InflateDeflate | paramiko/util.py:37-90 | inflating a deflated integer gives it back: signed for every integer, unsigned for every natural number |
| LongCodec.DeflateShortest | paramiko/util.py:71-90 | no leading byte of the padded form could be dropped |
| LongCodec.ShortestIsLeast | paramiko/util.py:62-90 | a string none of whose leading bytes can be dropped is as short as any of the same two's-complement value, and the only one so short |
| LongCodec.DeflateIsLeast | paramiko/util.py:62-90 | the padded form is the unique shortest non-empty two's-complement form (section 5 of RFC 4251) |
| ModArith.ModInverse | paramiko/util.py:207-219 | terminates, and for m >= 2, x >= 1 and coprime returns r with 1 <= r < m and r*x mod m = 1 |
| ModArith.EuclidStep | paramiko/util.py:212-216 | one pass keeps both Bezout rows, alternating signs, and abs(u2)*v3 + abs(v2)*u3 = m, on which the range of the result rests |
| ModArith.GcdIsGreatest | paramiko/util.py:207-219 | what "coprime" means above: the remainders end in a common divisor that every common divisor divides |
| ModArith.SharedSecret | paramiko/kex_group1.py:95-121 | (g^x)^y = (g^y)^x mod p for every positive modulus and every pair of exponents |
| ModArith.ModPowIsRemainder | paramiko/kex_group1.py:95-121 | the three-argument pow is the remainder of the product of that many factors |
| Messages.Message.Rewind | paramiko/message.py:74-79 | reading starts over |
| Messages.Message.GetRemainder | paramiko/message.py:81-89 | the unread bytes, with the position where it was |
| Messages.Message.GetSoFar | paramiko/message.py:91-99 | the read bytes: together with the remainder they are the whole content, at every point |
| Messages.Message.GetBytes | paramiko/message.py:101-112 | the next n bytes, zero-padded when the buffer runs out and n is below the padding limit; the rest stays unread |
| Messages.Message.GetBoolean | paramiko/message.py:125-130 | anything but a zero byte is true |
| Messages.Message.GetAdaptiveInt | paramiko/message.py:132-142 | an FF marker selects the mpint form, anything else is the first byte of a plain integer |
| Messages.Message.GetInt | paramiko/message.py:144-148 | four bytes, big-endian |
| Messages.Message.GetInt64 | paramiko/message.py:150-156 | eight bytes, big-endian |
| Messages.Message.GetMpint | paramiko/message.py:158-164 | a string read as two's complement |
| Messages.Message.GetString | paramiko/message.py:166-172 | as many bytes as its length field says |
| Messages.Message.GetList | paramiko/message.py:188-194 | a string split at commas |
| Messages.Message.AddBytes | paramiko/message.py:196-203 | overwrites at the position and extends the buffer at its end |
| Messages.Message.AddBoolean | paramiko/message.py:214-224 | one byte, 1 or 0 |
| Messages.Message.AddInt | paramiko/message.py:226-233 | four bytes, or a packing error that leaves the buffer alone |
| Messages.Message.AddAdaptiveInt | paramiko/message.py:235-246 | the mpint form from FF000000 up; a failed big integer has already left its marker |
| Messages.Message.AddInt64 | paramiko/message.py:248-255 | eight bytes, or a packing error |
| Messages.Message.AddMpint | paramiko/message.py:257-265 | length and shortest two's-complement form |
| Messages.Message.AddString | paramiko/message.py:267-276 | length and bytes, or a packing error |
| Messages.Message.AddList | paramiko/message.py:278-287 | the names joined by commas, as a string |
| Messages.ReadFieldOfWire | paramiko/message.py:101-287 | each getter reads back what the matching adder wrote and leaves what follows |
| Messages.RoundTrip | paramiko/message.py:101-287 | any sequence of typed fields, read with the matching getters, gives the same values and leaves exactly what followed |
| Messages.ReadAllAs | paramiko/message.py:101-287 | the same for getters that differ from the adders, as long as each one reads its field as some value whatever follows |
| Messages.SplitJoin | paramiko/message.py:188-194 | a list survives joining and splitting exactly when it is not empty and no name holds a comma |
| Messages.Exchange | paramiko/message.py:30-72 | a message built field by field and reopened from its bytes gives the same fields in order |
| Messages.WireForms | paramiko/message.py:196-287 | every form byte by byte: fixed width big-endian, length and content, and for big integers the shortest two's-complement string |
| Messages.OverwrittenOnlyThere | paramiko/message.py:196-203 | a write changes its own bytes and no others |
| Ber.BER.DecodeNext | paramiko/ber.py:49-92 | one item, the position behind it, or nothing when the content runs out; unknown types raise; the loop over long identifiers ends |
| Ber.BER.DecodeSequence | paramiko/ber.py:94-103 | all items up to the first that cannot be read; every decode moves on, so the loop ends |
| Ber.BER.EncodeTlv | paramiko/ber.py:105-113 | type, short or long length, and the bytes are appended |
| Ber.BER.Encode | paramiko/ber.py:115-128 | appends the encoding of any tree of integers, booleans, strings and lists |
| Ber.BER.EncodeSequence | paramiko/ber.py:130-135 | the encodings of the items one after another |
| Ber.DecodeTlv | paramiko/ber.py:49-92 | an encoded item is cut out again wherever it stands, long-form lengths included |
| Ber.RoundTrip | paramiko/ber.py:49-135 | decoding an encoded tree of any depth gives it back with the cursor at the end of its content exactly when it holds only integers and lists; everything else the encoder accepts raises |
| Ber.RoundTripAll | paramiko/ber.py:94-103 | the same for a run of items up to the end of the content |
| Ber.TlvLayout | paramiko/ber.py:105-113 | identifier, then the length in one byte up to 127 and as a counted big-endian number above, then the content |
| Ber.Identifiers | paramiko/ber.py:115-128 | the identifiers of the four types and the two booleans |
| Ber.LongIdentRaises | paramiko/ber.py:54-63 | a long identifier is the number its seven-bit digits stand for, up to the first without its top bit |
| Ber.TruncatedIsNothing | paramiko/ber.py:49-82 | an item that is cut off anywhere, even within its length, is no item |
| Framing.UpdateTwice | paramiko/packet.py:423-438 | a stateful cipher gives the same bytes and state in two calls as in one, at any block boundary |
| Framing.UpdateInverts | paramiko/packet.py:383-384 | decrypting what a mirrored engine encrypted gives the plain bytes and keeps both chaining states equal |
| Framing.PaddingRange | paramiko/packet.py:549-553 | packets are whole blocks for every payload and block size, and the padding is 4 to 255 for all payloads exactly up to block size 252 (section 6 of RFC 4253) |
| Framing.ParseFrame | paramiko/packet.py:361-466 | a framed payload parses back to itself whatever follows it, and both ends stay in step: cipher state, MAC and sequence number |
| Framing.Transmission | paramiko/packet.py:361-466 | any list of payloads and key switches is received unchanged and in order, over every sequence-number wrap, and what follows the stream is left |
| Framing.FrameLayout | paramiko/packet.py:377-396 | a frame is length, padding length, payload and padding in whole blocks, encrypted as one string, and behind it the MAC of sequence number and plain packet, cut to its size |
| Framing.ParseWhole | paramiko/packet.py:423-466 | a packet that is all there is handed over, with the state moved on, if the bytes behind it are the MAC of sequence number and decrypted packet, and is refused otherwise |
| Framing.OnlyWholePacketsCome | paramiko/packet.py:423-466 | nothing else is handed over, and nothing else is refused for its MAC |
| Framing.BlockingIsExact | paramiko/packet.py:432-433 | the length is refused exactly when the packet would not end at a block |
| Packets.Packetizer.ReadAll | paramiko/packet.py:252-301 | exactly n bytes over any cutting of the stream; a rekey request gives up only while nothing was taken; end of file means too short, closed or timed out; it still waits only if fewer than n calls went through |
| Packets.Packetizer.WriteAll | paramiko/packet.py:303-344 | everything over any number of partial sends, or an end of file after some prefix was sent; it still waits only if fewer calls took something than there are bytes |
| Packets.Packetizer.ReadLine | paramiko/packet.py:346-359 | a line up to its LF with one CR dropped; what was read beyond it is kept |
| Packets.Packetizer.BuildPacket | paramiko/packet.py:549-562 | length, padding length, payload and padding in one plain packet |
| Packets.Packetizer.SealPacket | paramiko/packet.py:383-396 | cipher and MAC over the current sequence number, which moves on by one modulo 2^32 |
| Packets.Packetizer.SendMessage | paramiko/packet.py:361-413 | the framed message and nothing else is sent, or a prefix of it if the write fails; a full write counts one packet and its bytes and raises the rekey flag exactly when a limit is reached |
| Packets.Packetizer.ReadPacket | paramiko/packet.py:423-466 | one packet is parsed off the pending bytes, or nothing is lost when a rekey interrupts |
| Packets.Packetizer.ReadMessage | paramiko/packet.py:415-501 | the parsed payload with its sequence number, or the fault that ends the connection; a message counts as one packet of the bytes it took and raises the rekey flag exactly when a limit is reached |
| Packets.Packetizer.SetOutboundCipher | paramiko/packet.py:131-149 | new sending state with the sequence number kept, sent counters cleared, and the rekey flag cleared when both directions have switched |
| Packets.Packetizer.SetInboundCipher | paramiko/packet.py:151-170 | the same for the receiving direction |
| Streams.SendItems | paramiko/packet.py:131-413 | any run of sends and outbound key switches leaves exactly the framed stream of the messages carried out on the socket, and behind it at most a piece of the one message that failed; that one is empty, does not fit its frame, or the packetizer was closed, or the socket breaks, takes nothing or lets fewer calls through than the stream has bytes |
| Streams.ReceivePayload | paramiko/packet.py:415-501 | the next payload of a sent stream comes out of read_message and both ends stay in step |
| Streams.ReceiveItems | paramiko/packet.py:361-501 | a receiver over an arbitrarily cut socket gets the payloads a sender framed, in order and unchanged, across key switches; it stops short only for what was so before: closed or late, a broken socket or one that lets fewer calls through than there are bytes, or counters that the stream brings to the rekey limits |
| Streams.SizesAgree | paramiko/packet.py:361-490 | the bytes of the stream and the moment a rekey is due follow from the sizes of the messages and the keys alone |
| Streams.ShortOfLimits | paramiko/packet.py:466-490 | with room below both limits no rekey is due |
| Streams.Deliver | paramiko/packet.py:361-501 | from send_message on one packetizer to read_message on another: the messages of the calls carried out come out in order and unchanged and nothing else does; with both ends open, sockets that let enough calls through, messages that fit and counters short of the limits every message is delivered; both ends can go on in step |
| Rekey.EveryRunIsSafe | paramiko/packet.py:66-73 | over every interleaving of sends, reads and key switches fewer than REKEY_PACKETS + 2*OVERFLOW packets come under one inbound key, and no sequence number is used twice under one |
| Rekey.OutboundFirstIsSafe | paramiko/packet.py:131-170 | one overflow round fewer when the outbound direction always switches first, as the key exchange does |
| Rekey.EveryRunIsByteLimited | paramiko/packet.py:466-490 | with packets of at least eight bytes the byte limits bound the count further |
| Rekey.NextKeeps | paramiko/packet.py:399-490 | what every send, read and switch keeps of the counters, the flag and the log |
| Rekey.SameEpochRun | paramiko/packet.py:465-466 | packets between two of the same key are of that key, so their number bounds the distance of sequence numbers |
| Rekey.RekeyIsAskedFor | paramiko/packet.py:399-490 | at every moment of every run the flag is up exactly if some packet, sent or received, brought its direction to a limit of 2^29 packets or bytes under the present key and both directions have not been switched since; the counters count what went under the present keys |
| Rekey.LimitRaisesTheFlag | paramiko/packet.py:399-411 | so the packet that reaches a limit raises it |
| Rekey.RequestIsEnforced | paramiko/packet.py:468-490 | after a request the peer is cut off exactly when it has sent 2^29 packets or bytes more without switching, whatever came before the request |
| Pipes.PosixPipe.Clear | paramiko/pipe.py:57-61 | takes the byte out only when there is one, so it never blocks; nothing when set forever |
| Pipes.PosixPipe.Set | paramiko/pipe.py:63-67 | puts one byte in, once |
| Pipes.PosixPipe.SetForever | paramiko/pipe.py:69-71 | set, and never cleared again |
| Pipes.OrPipe.Set | paramiko/pipe.py:126-129 | sets its own flag and the wrapped pipe |
| Pipes.OrPipe.Clear | paramiko/pipe.py:131-134 | clears its own flag, and the wrapped pipe when the partner is clear too |
| Pipes.MakeOrPipe | paramiko/pipe.py:137-147 | two pipes that are each other's partner over one wrapped pipe |
| Pipes.BufferedPipe.SetEvent | paramiko/buffered_pipe.py:65-86 | the event starts out set exactly when data is there or the pipe is closed |
| Pipes.BufferedPipe.Feed | paramiko/buffered_pipe.py:88-102 | the data is appended and the event set |
| Pipes.BufferedPipe.Read | paramiko/buffered_pipe.py:122-174 | at most n bytes from the front; the event is cleared when that empties an open pipe |
| Pipes.BufferedPipe.Empty | paramiko/buffered_pipe.py:176-192 | everything that was buffered |
| Pipes.BufferedPipe.Close | paramiko/buffered_pipe.py:194-206 | closed, the event set, the data kept |
| Pipes.Inbox.Fileno | paramiko/channel.py:883-911 | both buffers feed one OS pipe that starts out telling the truth |
| Pipes.Inbox.Feed | paramiko/channel.py:1006-1012 | readiness stays accurate exactly when the data is not empty or something was ready already |
| Pipes.Inbox.Recv | paramiko/channel.py:669-696 | reading keeps the pipe accurate |
| Pipes.Inbox.CloseBoth | paramiko/channel.py:1136-1144 | after end of file the pipe stays readable |
| Pipes.CallAccuracy | paramiko/pipe.py:120-134 | one feed, read, combination or close spoils the pipe exactly when it feeds nothing to an empty open buffer |
| Pipes.AccurateUnlessMisled | paramiko/channel.py:883-1147 | over any run of calls the pipe says what select should see at every moment exactly when no such feed occurs |
| Pipes.DataNeverMisleads | paramiko/channel.py:1006-1026 | in particular when every message brings data |
| Pipes.Live | paramiko/channel.py:883-1147 | the objects take exactly the steps of such a run from their creation on |
| Pipes.PipeIsReadiness | paramiko/pipe.py:120-134 | the OS pipe holds exactly one byte when either buffer is ready or it is set forever, and none otherwise |
| Pipes.EmptyFeedMisleads | paramiko/buffered_pipe.py:88-102 | the exception: feeding empty data makes an empty open buffer look readable |
| Windows.NextKeeps | paramiko/channel.py:669-1302 | every step of either endpoint keeps the total, the message sizes and the bounds on unacknowledged bytes |
| Windows.WindowIsConserved | paramiko/channel.py:1247-1302 | sender window, allocated and in-flight data, both receive buffers, unacknowledged bytes and adjusts on their way add up to the advertised window, on every run; so the sender window never exceeds it |
| Windows.DrainedWindow | paramiko/channel.py:1247-1263 | a drained receiver with nothing on its way leaves the sender at least W - W//10 |
| Windows.AllocateTakesWhatFits | paramiko/channel.py:1292-1300 | a grant is the least of data, window and packet size, and its message that much of the data |
| Windows.AdjustmentsAreLate | paramiko/channel.py:1247-1263 | no adjustment is sent for W//10 bytes or less, on any run |
| Windows.BlockedSenderIsNotStuck | paramiko/channel.py:1247-1263 | whenever the sender's window is empty some step other than sending is possible that moves bytes or acknowledgements on |
| Windows.BlockedSenderResumes | paramiko/channel.py:1247-1263 | a blocked sender does not stay blocked: however the steps that move bytes and acknowledgements on are scheduled there are at most six for each byte of the window, and when none is left the sender has at least W - W//10 |
| Windows.StreamsAreInOrder | paramiko/channel.py:1006-1026 | on each of the two streams what was read is a beginning of what was sent, and all of it once nothing is under way, as long as the streams are not combined |
| Windows.BytesArriveOnce | paramiko/channel.py:535-568 | on every run, streams combined or not, the bytes read, buffered, being moved and on the wire are those that were sent, each once; all of them have been read once nothing is under way |
| Windows.CombiningMayReorder | paramiko/channel.py:558-568 | the exception to the order: bytes taken out of the stderr buffer are fed to the main one after the lock is given up, and later bytes of the same stream overtake them |
| Channels.Channel.SetWindow | paramiko/channel.py:972-979 | the receiving window and packet size, and the threshold of a tenth |
| Channels.Channel.SetRemoteChannel | paramiko/channel.py:981-988 | the sending window, and the packet size kept within its limits |
| Channels.Channel.WaitForSendWindow | paramiko/channel.py:1265-1302 | the window moves only by what other threads do while it waits and by the size granted, which is the least of the size asked for, the window and the packet size less 64; zero after close or end of file; nothing is taken on a timeout, which can come although the window has opened; the wait goes on over every wake-up that leaves no reason to stop, and over no other |
| Channels.Channel.Send | paramiko/channel.py:1162-1180 | one message with exactly the granted beginning of the data |
| Channels.Channel.SendAll | paramiko/channel.py:812-833 | all of the data goes out in order in pieces, or some beginning of it; with nobody else about as much as the window has room for; once our own end of file has gone out, before or during the call, the loop goes round without sending until the channel is closed |
| Channels.Channel.CheckAddWindow | paramiko/channel.py:1247-1263 | bytes add up until they pass the threshold and are then acknowledged all at once; none after close or end of file |
| Channels.Channel.Recv | paramiko/channel.py:669-696 | the bytes read and, when due, an adjust for exactly what has been consumed |
| Channels.Channel.RecvStderr | paramiko/channel.py:713-744 | the same for the other stream, out of the same window |
| Channels.Channel.Feed | paramiko/channel.py:1006-1012 | data goes to the end of the buffer |
| Channels.Channel.FeedExtended | paramiko/channel.py:1014-1026 | code 1 goes to stderr, or to the main buffer when combined; other codes are discarded |
| Channels.Channel.AdjustWindow | paramiko/channel.py:1028-1037 | the sending window grows |
| Channels.Channel.SetCombineStderr | paramiko/channel.py:535-568 | what stderr held moves behind the main data, once |
| Channels.Channel.HandleEof | paramiko/channel.py:1136-1147 | both buffers are closed, once |
| Channels.Channel.SendEof | paramiko/channel.py:1211-1220 | one end-of-file message at most |
| Channels.Channel.CloseInternal | paramiko/channel.py:1222-1233 | closed, with the messages for the peer |
| Links.SendOn | paramiko/channel.py:1162-1180 | on a channel that nobody waits on: a send that has window takes all that fits and hands over one message, any other one changes nothing |
| Links.Hear | paramiko/channel.py:1006-1037 | a packet from the peer does what the handler of its kind does and nothing else, on either end |
| Links.ActFollows | paramiko/channel.py:669-1302 | every call of a user and every packet taken off the wire is a few steps of the window protocol in each direction: a send is Allocate and Transmit, a read is Recv, Count and SendAck, an arrival is Deliver, Adjust or Shut |
| Links.PlayIsRun | paramiko/channel.py:669-1302 | so any order of calls and arrivals on two ends is a run of the protocol in both directions |
| Links.ChannelsKeepTheirWindows | paramiko/channel.py:669-1302 | two channels that have agreed on windows keep them in both directions whatever they do: sender window, bytes on the wire, both buffers, uncredited bytes and adjusts on their way add up to what was advertised; no byte is lost, made or changed; each stream that is not combined is read in the order it was sent |
| Links.Perform | paramiko/channel.py:669-1302 | the methods of a channel do what the acts say, on this end, on the other one and on the line |
| Links.Converse | paramiko/channel.py:669-1302 | and so do any number of them, in the order given |
| Links.Conversation | paramiko/channel.py:972-988 | from the opening of a channel on: both windows are conserved, no byte is lost, made or changed, and streams that are not combined are in order, after any calls and arrivals |
| Lines.LineFile.ReadLine | paramiko/file.py:224-331 | for every cutting of the stream: the next line of the whole text, and the text left is what follows it; with a size, a cut or whole line with exactly one exception |
| Lines.LineFile.ReadLines | paramiko/file.py:333-353 | in universal-newline mode the lines are those of the whole stream with CR, LF and CRLF turned into LF, however it was cut |
| Lines.LineFile.FillLine | paramiko/file.py:251-296 | reading stops at a newline, at the size or at the end, and a LF left over from a cut CRLF is dropped |
| Lines.LineFile.CutLine | paramiko/file.py:297-331 | the line, and what stays in the buffer, when a newline is in it |
| Lines.SplitLinesIsPartition | paramiko/file.py:224-331 | the lines joined are the text |
| Lines.SplitLinesAreLines | paramiko/file.py:224-231 | each line has one newline, at its end; only the last may have none |
| Lines.CutIsCorrect | paramiko/file.py:298-324 | the newline found in a part of the text is the first of the whole text |
| Lines.NewlinesBecomeLf | paramiko/file.py:298-324 | the text read is the stream with each CRLF, and each CR before anything else, as one LF |
| Lines.WriteFile.Write | paramiko/file.py:385-419 | what was written plus what is buffered is the data given so far, for unbuffered, line-buffered and sized modes |
| Lines.WriteFile.Flush | paramiko/file.py:83-90 | everything buffered is written |
| Lines.WriteFile.WriteAll | paramiko/file.py:515-527 | all of the data over any partial writes, with the positions moved by as much |
| Sftp.FoundIsCovered | paramiko/sftp_file.py:104-121 | a true answer means every byte of the range is covered by outstanding extents |
| Sftp.CoveredIsFound | paramiko/sftp_file.py:104-121 | with disjoint non-empty extents a covered range always gets true |
| Sftp.PrefetchRequestsAreExact | paramiko/sftp_file.py:104-121 | so for such extents the answer is exact, and the recursion ends |
| Sftp.RemainingLosesNothingElse | paramiko/sftp_file.py:158-168 | every byte of a buffer but those taken stays cached, and so do buffers that start elsewhere |
| Sftp.TakenIsGone | paramiko/sftp_file.py:158-168 | what was taken is gone, and what is left of the buffer stands before and behind it |
| Sftp.DataInPrefetchBuffers | paramiko/sftp_file.py:123-138 | a buffer is found exactly if the last one that starts at or before the offset reaches beyond it, and it is that one |
| Sftp.SftpFile.AsyncRequest | paramiko/sftp_client.py:769-792 | the next number is taken, expected and sent with the request |
| Sftp.SftpFile.ThreadStep | paramiko/sftp_file.py:516-527 | a prefetch thread sends its next request, or registers the extent of the one it has sent |
| Sftp.SftpFile.ReadPacket | paramiko/sftp_client.py:795-801 | some outstanding request is answered, possibly short, or the script of the server ends |
| Sftp.SftpFile.AsyncResponse | paramiko/sftp_file.py:529-549 | the data is stored under the offset asked for under its number, after the race with the thread, and the extent goes; a status is kept for the next operation |
| Sftp.SftpFile.Store | paramiko/sftp_file.py:545-548 | the buffer is a true slice of the file, its extent is gone, and the prefetch is done when none is left |
| Sftp.SftpFile.Retire | paramiko/sftp_client.py:812-813 | an answered request is no longer expected, and a prefetched one has its extent recorded or about to be |
| Sftp.SftpFile.ReadResponse | paramiko/sftp_client.py:794-829 | the reply waited for is true of what was asked under its number; a single check stores at most one reply, under the offset its own request asked for, and no reply is lost: what was waited for still is, or its data is cached, or an error is kept; it waits on only if the reply it waits for does not come |
| Sftp.SftpFile.ReadPrefetch | paramiko/sftp_file.py:140-168 | if the byte at the position is cached, as much of its buffer as was asked for, at once and without a request; else the file's bytes once they have come; none, with the prefetch given up, only if the byte is not cached and the prefetch is done or the file closed; still waiting only when all replies there were have been heard |
| Sftp.SftpFile.TakeBuffer | paramiko/sftp_file.py:158-168 | a buffer is split, the parts before and behind are kept, and all stay true slices |
| Sftp.SftpFile.ReadOnce | paramiko/sftp_file.py:170-184 | at most the maximum size, from the cache without any request if the byte is there, by a request of its own otherwise, always the file's bytes at the position |
| Sftp.SftpFile.Read | paramiko/file.py:182-222 | the file's bytes at the user position, as many as asked for unless the file ends, or everything; it fails only when the file is closed, the line drops, a request is refused or the position was negative; with nothing prefetched it succeeds whenever the server answers the requests as they come, and what is buffered is read without one |
| Sftp.SftpFile.Fill | paramiko/file.py:207-218 | the read buffer grows by file data only, until it is long enough or the file ends |
| Sftp.SftpFile.ReadToEnd | paramiko/file.py:186-201 | the rest of the file |
| Sftp.SftpFile.Seek | paramiko/sftp_file.py:253-267 | both positions move and the read buffer is dropped |
| Sftp.SftpFile.Prefetch | paramiko/sftp_file.py:422-460 | the extents from the position on cover the rest of the file in pieces of the maximum size |
| Sftp.SftpFile.Missing | paramiko/sftp_file.py:478-492 | the pieces of the blocks to be requested, in order: never one whose first byte is cached, every one that no outstanding extents cover, and none that they do cover if they do not overlap; a buffer at offset 0 does not count as cached |
| Sftp.SftpFile.ReadV | paramiko/sftp_file.py:462-498 | every block is the file's bytes at its offset, in the order asked for; the first block that fails ends the list, for one of the reasons a read can fail, a packing error only for a negative offset |
| Negotiation.ReadInit | paramiko/transport.py:2019-2051 | the offer that was announced is the offer that is read, and all of the announcement is consumed |
| Negotiation.FilterFirst | paramiko/transport.py:2071-2080 | the agreed algorithm is the first of one list that is in the other, and there is one exactly when the lists meet |
| Negotiation.FilterKeeps | paramiko/transport.py:2071-2080 | filtering keeps exactly the names that are on both lists |
| Negotiation.FilterInOrder | paramiko/transport.py:2071-2080 | and keeps them in their order |
| Negotiation.NegotiatePicksFirst | paramiko/transport.py:2067-2188 | each agreed name is the first of the client's list that the server has, local and remote from the lists of their directions; a refusal names the first kind without a common name |
| Negotiation.InitLayout | paramiko/transport.py:2019-2033 | what stands in an announcement, field by field |
| Negotiation.SamePick | paramiko/transport.py:2067-2188 | a client and a server each reading the other's offer agree on everything or refuse for the same reason |
| Kex.Transport.SendKexInit | paramiko/transport.py:1985-2036 | the announcement is sent and a copy of exactly that packet kept |
| Kex.Transport.ParseKexInit | paramiko/transport.py:2038-2195 | of each kind the client's first name that the server has, or a refusal; the bytes read, and not those behind them, are kept with the type byte |
| Kex.Transport.SetKH | paramiko/transport.py:1680-1687 | the first exchange hash becomes the session id and stays it |
| Kex.Transport.ComputeKey | paramiko/transport.py:1703-1731 | the loop yields the key of section 7.2 of RFC 4253: each block hashes everything before it |
| Kex.Transport.ActivateOutbound | paramiko/transport.py:2236-2277 | NEWKEYS is sent and the sending keys are those derived for our direction |
| Kex.Transport.ActivateInbound | paramiko/transport.py:2197-2234 | the receiving keys are those derived for the other direction |
| Kex.Transport.ParseNewKeys | paramiko/transport.py:2291-2315 | the inbound direction is switched and both saved announcements dropped |
| Kex.KexGroup1.StartKex | paramiko/kex_group1.py:56-69 | the client sends its public value, the server keeps its own |
| Kex.KexGroup1.ParseKexdhInit | paramiko/kex_group1.py:116-143 | the server refuses a value out of range, else secret, transcript hash, reply and NEWKEYS, in that order |
| Kex.KexGroup1.ParseKexdhReply | paramiko/kex_group1.py:95-114 | the client refuses a value out of range or a bad signature, else the same secret and hash and NEWKEYS |
| Kex.DerivedKeyIsPrefix | paramiko/transport.py:1722-1731 | asking for more key bytes only extends the key |
| Kex.SameTranscript | paramiko/kex_group1.py:103-111 | what both ends hash is the same, and so are their secrets |
| Kex.Announce | paramiko/transport.py:1985-2195 | both ends hear what the other announced: same algorithms, each one's saved copy of the peer is the peer's own |
| Kex.Trade | paramiko/kex_group1.py:56-143 | from the first public value to new keys: both ends hold the hash of the same eight-field transcript, the packets sent are the ones of the exchange; a signature never fails, and a value is out of range only when it is 0 |
| Kex.Exchange | paramiko/kex_group1.py:56-143 | an exchange completes unless the offers do not meet, a public value is 0 or something is too long for its length field; it leaves both ends with the secret (g^x)^y and the hash of bytes that read as both versions, the two announcements sent, host key, g^x, g^y and the secret, which is the session id if it is the first, and the keys of section 7.2 of RFC 4253, letters A to F, each one's sending keys being the other's receiving keys |
| Kex.Exchanges | paramiko/transport.py:1680-1687 | over the first exchange and every rekey each hash is that of its own transcript, the session id is the first of them and stays it even if a later exchange breaks off, the ends agree after the last one, and what breaks the run off has its cause |
| Kex.HashedBytesFixAll | paramiko/kex_group1.py:103-111 | exchanges that differ in any of the eight values hash different bytes |
| Kex.DerivedKeyIsKey | paramiko/transport.py:1703-1731 | a key is the first bytes of blocks of which the first hashes K, H, letter and session id, and every other one K, H and all blocks before it |
| Kex.PacketsRead | paramiko/kex_group1.py:56-143 | the packets of an exchange as a reader sees them: announcements, both public values, host key and signature, NEWKEYS |
| Drawing.BitLengthByBytes | paramiko/util.py:121-133 | for every integer the count ends and is the bit length of the shortest byte string, or 1 when that begins with a zero byte; for a positive integer it is the built-in one |
| Drawing.NaturalBits | paramiko/util.py:121-133 | the fallback agrees with the built-in for positive integers and counts one bit for 0 |
| Drawing.NegativeBits | paramiko/util.py:121-133 | for a negative integer it agrees exactly when the integer is -2^(8k-1), the least one of k bytes |
| Drawing.BitLengthOfBytes | paramiko/util.py:125-133 | the bit length of a byte string is that of its leading byte plus eight for every other |
| Drawing.MaskFor | paramiko/kex_gex.py:103-108 | the loop over the leading byte ends and leaves a mask of as many ones as the byte has bits |
| Drawing.GenerateX | paramiko/kex_gex.py:99-115 | the first draw strictly between 1 and (p-1)/2; the mask loop spins exactly when the leading byte is zero |
| Drawing.LeadingByteOfPositive | paramiko/kex_gex.py:101-104 | for positive (p-1)/2 the leading byte is never zero |
| Drawing.CandidateBound | paramiko/kex_gex.py:110-112 | a masked draw is below two to the bit length of q |
| Drawing.CandidateOnto | paramiko/kex_gex.py:110-112 | every number of at most that many bits can be drawn |
| Drawing.ExponentsAreExactlyThoseBetween | paramiko/kex_gex.py:109-115 | exactly the numbers strictly between 1 and q are ever returned |
| Drawing.BetweenIsFirst | paramiko/kex_gex.py:109-115 | the draw taken is the first of them, and those behind it are left; without one all are used up |
| Drawing.SpinsIffNothingToDraw | paramiko/kex_gex.py:99-108 | for a positive modulus the mask loop spins exactly if (p-1)/2 is 0 |
| Drawing.GenerateFixedX | paramiko/kex_group1.py:80-93 | the first draw of 128 bytes whose leading eight are neither all zeros nor all ones below the top bit |
| Drawing.InsideIsFirst | paramiko/kex_group1.py:88-93 | the draw taken is the first that is not rejected |
| Drawing.FixedCandidateClearsTopBit | paramiko/kex_group1.py:88-89 | masking changes the top bit only |
| Drawing.FixedExponentInRange | paramiko/kex_group1.py:80-93 | such a draw is above 1 and below (p-1)/2 for every modulus of 128 bytes whose first 64 bits are ones |
| Drawing.RollRandom | paramiko/primes.py:30-49 | the first draw below n |
| Drawing.RollBound | paramiko/primes.py:32-46 | a draw has no more bits than n - 1 |
| Drawing.RollOnto | paramiko/primes.py:32-46 | every number of at most as many bits can be drawn |
| Drawing.RollsAreExactlyThoseBelow | paramiko/primes.py:30-49 | exactly the numbers from 0 to n - 1 are ever returned |
| Drawing.BelowIsFirst | paramiko/primes.py:41-49 | the roll taken is the first of them |
| Moduli.PickSize | paramiko/primes.py:115-136 | the least size from the preferred one up, else the greatest in the range, else the greatest or the least of all |
| Moduli.ClosestUnlessStraddled | paramiko/primes.py:129-136 | outside the range the pick is a closest size exactly when nothing is below, nothing is above, or a single size is above and none below is closer; the source's comment promises it always |
| Moduli.StraddledPickIsFarther | paramiko/primes.py:129-136 | an input where a farther size is picked |
| Moduli.ModulusPack.ParseModulus | paramiko/primes.py:63-98 | a line is kept under its own bit length or discarded with the reason |
| Moduli.ModulusPack.GetModulus | paramiko/primes.py:115-139 | the group returned is the one the rolls pick among those of the chosen size |
| Gex.KexGex.StartKex | paramiko/kex_gex.py:61-81 | the client asks for its range |
| Gex.KexGex.ParseRequest | paramiko/kex_gex.py:117-152 | the preferred size is pulled to the nearest within the server's limits, the range is made to include it, and a group of a size chosen for it is sent |
| Gex.KexGex.ParseRequestOld | paramiko/kex_gex.py:154-178 | the old request changes the preferred size only, to the nearest within the limits |
| Gex.KexGex.ParseGroup | paramiko/kex_gex.py:180-197 | a group outside 1024 to 8192 bits is refused, else the client's public value for a private one in range |
| Gex.KexGex.ParseInit | paramiko/kex_gex.py:199-223 | the server refuses a value out of range, else public value, secret and transcript |
| Gex.KexGex.ParseReply | paramiko/kex_gex.py:236-259 | the client refuses a value out of range, else secret and transcript |
| Gex.NormalisedIsConsistent | paramiko/kex_gex.py:121-136 | whatever was asked for, the server works with a consistent range, and normalising it again changes nothing |
| Gex.UnchangedIffConsistent | paramiko/kex_gex.py:121-136 | a request survives normalisation exactly when it was consistent and its preferred size within the limits |
| Gex.HashedBytesAgreeIffConsistent | paramiko/kex_gex.py:205-258 | the bytes both ends hash are equal exactly for such requests: the server hashes its normalised range |
| Gex.InconsistentRequestSplitsHashes | paramiko/kex_gex.py:121-136 | a request for which they differ: at least 3000 bits, 2048 preferred |
| Gex.Exchange | paramiko/kex_gex.py:61-259 | a completed exchange leaves both ends with the same group, of the size chosen for the normalised request, and the same secret; each hashes its own limits with the same numbers, so the hashed fields are equal exactly for such requests, of which the default client's is one; each way of not completing has its cause in the groups, the rolls and the draws given: no group, one that is too small, too large or cannot be packed, a public value that is 0, or draws that never end |
| Gex.NormalisedIsServed | paramiko/kex_gex.py:121-132 | the preferred size becomes the nearest the server serves, and a limit that excludes it gives way to it; any other limit stays |
| Gex.ServedIsUnique | paramiko/kex_gex.py:121-132 | there is only one such range |
| Gex.TranscriptCovers | paramiko/kex_gex.py:205-222 | the hashed fields in the order of section 3 of RFC 4419, and those of the old request |
| Gate.UserMessagesWait | paramiko/transport.py:1658-1678 | with any number of user threads and any interleaving, a user message written after our KEXINIT comes after a NEWKEYS processed since that KEXINIT |
| Gate.NextKeeps | paramiko/transport.py:1929-2036 | what every step of every thread keeps: the lock excludes, and the event is set only when no announcement is pending |
| Gate.OrderlyRunsAreGatedByOwnKeys | paramiko/transport.py:2291-2315 | it is the NEWKEYS of the same exchange as long as no KEXINIT is sent before the peer's NEWKEYS of the previous exchange |
| Gate.PrematureAnnouncementExposes | paramiko/transport.py:2274-2277 | without that condition it is not: from every such state some schedule lets user data into the new exchange |
| Gate.PrematureAnnouncementHappens | paramiko/transport.py:2274-2277 | such a state is reached in the first exchange already |
| ChannelIds.Transport.NextChannel | paramiko/transport.py:1642-1649 | the first number from the counter on, going round, without a live channel; the loop ends unless all are taken |
| ChannelIds.Transport.Allocate | paramiko/transport.py:1642-1649 | the number is below 2^24 and free; the first allocation to complete a round since a reservation, and no earlier one, hands the reserved number out again |
| ChannelIds.Transport.OpenChannel | paramiko/transport.py:825-841 | the new channel takes a free number and nothing else in the map changes |
| ChannelIds.Transport.ReserveForPeer | paramiko/transport.py:2424-2470 | a number is set aside before its channel is in the map |
| ChannelIds.Transport.PutReserved | paramiko/transport.py:2501-2510 | after the put live channels have distinct numbers exactly if the reserved number was not in the map, which it cannot be short of a full round |
| ChannelIds.Transport.RefusePeer | paramiko/transport.py:2461-2497 | a refused request drops its number and changes nothing else |
| ChannelIds.Transport.UnlinkChannel | paramiko/transport.py:1651-1653 | only the entry under that channel's number goes |
| ChannelIds.Transport.Collected | paramiko/transport.py:2654-2696 | a channel nothing refers to takes its own entry out of the map and no other |
| ChannelIds.NextKeepsDistinct | paramiko/transport.py:1642-1653 | one operation breaks distinctness exactly when it puts a channel under a number that is in the map |
| ChannelIds.AlwaysDistinctUnlessClobbered | paramiko/transport.py:2654-2696 | over any history of opens, requests put or refused, closes and collections, from any sound state, live channels have distinct numbers at every moment exactly when no put finds its number in the map |
| ChannelIds.History | paramiko/transport.py:2654-2696 | the same from the start of a connection; without channels asked for by the peer they always have |
| ChannelIds.Replay | paramiko/transport.py:825-2510 | the objects take exactly the steps of such a history |
| ChannelIds.Lap | paramiko/transport.py:2424-2510 | the condition is needed: a history of 2^24 channels in which two live channels share a number |
| PlayLog.ExtractFiles | util/playlog.py:144-180 | the loops over the shared queue compute the tree, consuming exactly the messages up to the end of the folder, and every way of failing |
| PlayLog.ReadContents | util/playlog.py:163-175 | the content up to either form of terminator |
| PlayLog.ParseSentHeader | util/playlog.py:148-162 | a well-formed header line is recognised, with its name and length |
| PlayLog.ContentsOfSent | util/playlog.py:163-175 | the messages of a file give its content exactly when no chunk is a single NUL |
| PlayLog.EntriesOfSent | util/playlog.py:144-180 | entries sent one after another are put into the tree one after another, and nothing more is consumed |
| PlayLog.TreeHolds | util/playlog.py:144-180 | with names distinct per folder the tree holds every entry under its name and nothing else |
| PlayLog.MatchesIffParts | util/playlog.py:152-162 | a header is accepted exactly if it is the letter, four digits, blanks, digits, blanks, a name and a line end or two |
| PlayLog.IntOfSigned | util/playlog.py:150 | the length field as Python reads it: blanks around, a sign, digits |
| PlayLog.ContentsUpToFirstEnd | util/playlog.py:163-175 | for any messages: the content ends at the first that is a single NUL or completes the length with a NUL behind it |
| PlayLog.ContentsWithoutEnd | util/playlog.py:163-175 | without such a message the parser fails |
| PlayLog.StopsAtBadHeader | util/playlog.py:148-178 | the first message that is no header ends the parse, as a refusal or, if a field is missing or odd, as an exception |
| PlayLog.OpenFolderRaises | util/playlog.py:153-160 | a folder that is not closed raises |
| PlayLog.RoundTrip | util/playlog.py:144-180 | flattening any tree and extracting it gives the same tree and consumes all of its messages |

## Left out

- Compression, keepalives, logging, packet dumps and the Windows pipe.
- Real ciphers, hashes, MACs and signatures, and the zlib and GSS-API engines: parameters with laws.
- Authentication, host key files and agents: callbacks and library calls.
- The elliptic-curve and GSS key exchanges; in the group exchange, signing, key activation and NEWKEYS, which are those of
  the fixed group.
- `renegotiate_keys` called by a user thread during an exchange.
- Removing group exchange from the offer of a server without moduli; the preferences are a parameter.
- The OS scheduler: threads take turns at the steps named in the step systems, or at sections under a lock.
- Liveness: a `readv` of blocks that are all cached or asked for already still clears the done flag, and a later read can
  then wait for a reply that never comes; the model reports such a read as waiting.
- Writing through SFTP, and more than one open file per client.
- Mixing `readline` in universal-newline mode with `read` on one file, the record of newline kinds, and text decoding.
- Closing the OS pipe when the user closes a channel.
- Garbage collection between two looks at the channel map within one allocation.
- Reading the moduli file, saving extracted files, and the other log players.
- Sftp.SftpFile.Read: when a prefetched extent reaches beyond the end of the file (`overrun`), only a beginning of the
  file's bytes is promised, because the end-of-file reply to it is kept as an error and ends a read early.
- Sftp.SftpFile.AsyncRequest: does not model the packing error of request numbers from 2^32 on.
- Lines.LineFile.ReadLine: a size limit that cuts a buffered CRLF yields an extra empty line in universal-newline mode; the
  contract says exactly when, and the line-split theorem is about reads without a size.
- Windows.StreamsAreInOrder: excludes runs that combine the streams: Windows.CombiningMayReorder is such a run on which the
  order is lost, and what does hold of all of them is Windows.BytesArriveOnce.
- Kex.KexGroup1.StartKex: the modulus and the private exponent are fields set beforehand; drawing the exponent is
  Drawing.GenerateFixedX.
- Channels.Channel.WaitForSendWindow: what other threads do to the window and the flags during the wait is modelled, what
  they hand over to the transport meanwhile is not.
- Channels.Channel.SendAll: the outbox holds this thread's messages only, for the same reason.
- Links.Conversation: a sender that has to wait for window has not acted yet and is called again once an adjustment has
  arrived; no OS pipe is asked for in the course of it.
- Kex.Transport.ParseNewKeys: does not drop the secret and the exchange object, so that the agreed secret can be stated.
- Gex.KexGex.ParseInit: hashing, signing, the reply and the switch of keys are those of the fixed group and left out.
- Gex.KexGex.ParseReply: the peer's value is a parameter; reading the reply, the signature and the switch of keys are left
  out, as in the fixed group.
- Gex.Exchange: signing and the switch of keys are left out; the fields that are hashed are part of the result.
- Moduli.ModulusPack.ParseModulus: splitting a line into its fields and reading their numbers is left out.
