# Model of the transfer protocols and codecs

A Dafny 4.11 model of the parts of this repository that move data: the Hydra bidirectional
file-transfer protocol of HydraCom, the JModem stop-and-wait protocol with its run-length code,
the NetWare password cipher, the RLE file compressor, qodem's UTF-8 codec, the MSB-first CRC-32
program and HydraCom's search for an unused file name. `dafny verify dfyconfig.toml` checks it.

Each component has a specification on values (functions) and, where the C code updates variables
or buffers, a class or methods that work step by step and are proved equal to it. The theorems are
about the specifications.

## Hydra

- `HydraTypes`, `HydraFlags`: option words, packets, state numbers; flag strings and the
  negotiation of link options.
- `HydraEndpoint`: one endpoint as a state machine: 16 transmitter states, 4 receiver states,
  3 device states, all packet types, timeouts, retries, resynchronisation, windows.
  `HydraSession` is the same as the C code has it, variables updated in one loop; the static
  variables are grouped into three records. `HydraPlay` runs two such objects against each other
  and draws the conclusions for them.
- `HydraSystem`: two endpoints joined by two lines that keep packets in order and unaltered and
  may lose any of them. A run is any sequence of steps: a pass of either loop, an arrival, a loss,
  an expiring timer, an abort, a device message handed in. What the surroundings decide (full
  output buffers, failing reads, seeks and writes, whether an offered file is accepted, chat) is
  chosen anew in every step.
- `HydraOptions`, `HydraWindows`, `HydraFile`, `HydraDevice`, `HydraShutdown`, `HydraSizes`,
  `HydraBatch`: one invariant each, and what follows from it for all runs.
- `HydraHandshake`, `HydraComplete`, `HydraOneWay`, `HydraRepeat`, `HydraTrouble`, `HydraMessages`:
  explicit runs that get somewhere, for all operators and files: the handshake; whole sessions without
  losses, in one-way mode, with packets and answers lost, with files that are refused or cannot be read
  or written; device messages. `HydraRetry`: how often a side tries before it gives up.
- `HydraText`, `HydraInit`, `HydraPackets`: numbers and strings in buffers, the INIT packet, and the
  bytes of all packet bodies; what the session takes from every packet of a run.
- `HydraCrc`, `HydraResidue`: the two reflected CRCs.
- `HydraWire`: the four packet formats, transparency, and the receiver byte by byte. `HydraBodies`,
  `HydraStream`, `HydraLine`: round trips, noise, and what is never sent. `HydraRefuse`: which bodies
  the receiver accepts, and that it accepts no others. `HydraKnown`: CRCs and packets byte by byte.
  `HydraPort`: encoding and decoding in place in the fixed buffers; `HydraTransfer`: one end to the
  other.

Some results differ from what one would expect of the protocol.

- If the very first file of a session cannot be opened, hydra() returns at once and its next call
  starts at HTX_FINFO (HYDRACOM/HYDRA.C:1119-1134), so the option handshake is never begun on that
  side: option agreement holds in all runs exactly when this does not happen
  (`HydraOptions.OptionAgreement`).
- The test for incompatible options compares the words as numbers (HYDRACOM/HYDRA.C:1399), so it
  accepts exactly when every missing vital option lies below a granted one that was not required
  (`HydraFlags.AcceptedExactlyIf`).
- The flag strings of an INIT packet are read with strtok(), which cuts the string of wanted options
  before its length is taken (HYDRACOM/HYDRA.C:275, 1396, 1405). With more than one wanted option the
  windows are then looked for in the second name and the prefix behind it (`HydraInit.InitRead`), so
  windows agree only under a condition (`HydraWindows.WindowAgreement`, with two sessions in which
  they do not: `HydraHandshake.CtlIsTwelve`, `HydraHandshake.TlnIsNothing`), and packets go out
  behind letters and digits that nobody asked for, which does no harm (`HydraWindows.PrefixRun`,
  `HydraStream.StreamRoundTrip`).
- Answers to offers carry no name. After a file that ended with EOFACK none can be left over
  (`HydraBatch.NothingLeftAfterEof`); after a refused one it can be taken for the answer to the next
  file (`HydraBatch.StaleRefusal`).
- A side that limits what it sends ahead can wait for acknowledgements that its peer never sends
  (`HydraHandshake.TlnIsNothing`). Without losses and time-outs its file then gets across exactly if it
  is shorter than the limit (`HydraRepeat.FileGoesExactlyIf`); sessions complete when this is so for
  both sides (`HydraComplete.SessionCompletes`, `HydraOneWay.EverySessionCompletes`).
- Lost DATAACKs add up: nothing but an acknowledgement in time or an RPOS sets the retry count back
  (HYDRACOM/HYDRA.C:1343, 1700-1704, 1716), so `HydraRepeat.LossySessionCompletes` allows for eight of
  them in a row.
- A write that falls short is taken for a whole one (HYDRACOM/HYDRA.C:1663): files agree exactly if
  none does (`HydraFile.FileAgreement`).

## The other components

- JModem: `JModemCodec` and `JModemBlock` (run-length code, rotating checksum, block), `JModemLink`
  (the link after synchronisation: lockstep although acknowledgements carry no number and block
  numbers are modulo 256), `JModemMain` (the loops of both programs, exactly characterised by what
  comes back, and as runs of the link), `JModemSession` (both programs at work on the two lines),
  `JModemRetry` (damaged blocks: up to nine copies in a row do no harm, the tenth ends the transfer; one
  lost acknowledgement does, too), `JModemKnown` (code and blocks byte by byte).
  A sender whose last read is exactly full sends no end-of-file block; the receiver then waits in
  vain and deletes the file: `JModemLossless` says for which lengths (`JModemLink.SentMeansReceived`,
  `JModemLossless.LosslessTransfer`). After a compressed last block the sender reads once more
  (the comparison at JModem/jmodem_a.c:298 is with the uncompressed type only), finds nothing and
  stops; the model stops at once. A length field out of line makes recv_blk abort, although its
  comment says that the block is refused (JModem/jmodem_a.c:406-407); the model follows the code.
- `NwCrypt`, `NwCryptCode`: the cipher on nibbles and on byte arrays. `NwKnown`: the way of a nibble
  through the rounds, and two passwords worked out.
- `Rle`, `RleCode`: EOF stored into a byte gives 255, which makes the round trip inexact for files
  that end in 255; the exact law is `Rle.RoundTrip`.
- `Utf8`: encoder, table and automaton, sections 3 and 4 of RFC 3629.
- `MsbCrc`: the CRC that shifts towards the high end, and its mirror image.
- `UniqueName`: the odometer over file name extensions.
- `Seqs`: facts about byte sequences. `Bits`: exclusive or, shifts and powers of two on
  natural numbers, used by the CRCs and the cipher.

Bytes and words are natural numbers within their range; word sizes are those of the DOS programs
(16-bit words, 32-bit longs) and of the 32-bit `unsigned int` in CRC32.c. `a | b` on disjoint bits is
written as a sum. Option words are sets of flags; `HydraTypes.Word` gives their number.

## Model

| member | source | states |
|---|---|---|
| HydraFlags.PutFlags | HYDRACOM/HYDRA.C:250-264 | writes exactly the comma-separated names of the set bits, in table order |
| HydraFlags.GetFlags | HYDRACOM/HYDRA.C:268-285 | computes the union of the values of the names between commas, unknown and empty names adding nothing, and leaves the string in the buffer cut: a NUL for every comma that ends a name |
| HydraFlags.NamesRoundTrip | HYDRACOM/HYDRA.C:250-285 | for every table of distinct names without commas, get_flags gives back every option word that put_flags wrote, as far as the table names its bits |
| HydraFlags.FlagsRoundTrip | HYDRACOM/HYDRA.C:250-285 | the same for Hydra's own table and every option word |
| HydraFlags.NegotiationAgrees | HYDRACOM/HYDRA.C:1390-1399 | both sides compute the same link options from each other's CAN and WANT strings, whatever the two operators asked for |
| HydraFlags.GrantedIsCompatible | HYDRACOM/HYDRA.C:1399-1404 | a peer that grants every vital option that was asked for is never turned away |
| HydraFlags.AcceptedExactlyIf | HYDRACOM/HYDRA.C:1399-1404 | the numeric comparison accepts exactly when every missing vital option lies below a granted option that was not vital or not asked for |
| HydraFlags.AcceptanceIsNot | HYDRACOM/HYDRA.C:1399-1404 | so acceptance does not mean that the vital options are granted: XON/XOFF escaping asked for, only CRC-32 possible, accepted |
| HydraSystem.RunFlips | HYDRACOM/HYDRA.C:1088-1989 | the two sides of a session are symmetric: mirrored steps from a mirrored start give the mirrored system |
| HydraOptions.AgreedRun | HYDRACOM/HYDRA.C:1088-1117 | when both first files open, every state of every run keeps the handshake invariant: option words, states and packets in transit of both sides fit together |
| HydraOptions.SkippedHandshake | HYDRACOM/HYDRA.C:1119-1134 | when the first file cannot be opened, the next call of hydra() starts at HTX_FINFO and sends a BIN packet that the peer decodes under its initial options |
| HydraOptions.OptionAgreement | HYDRACOM/HYDRA.C:1097-1134 | in all states of all runs, every packet in transit that is not HEX was encoded with exactly the options its receiver decodes with, if and only if neither side's first file fails to open |
| HydraFile.FileRun | HYDRACOM/HYDRA.C:1249-1298 | every state of every run keeps the file invariant for the file that side A sends |
| HydraFile.FileAgreement | HYDRACOM/HYDRA.C:1615-1690 | in every state of every run and in both directions: the receiver's file is exactly the first rxpos bytes of the sender's if and only if no write has fallen short; at most one file is closed, and it equals the whole source under the same condition; and a transfer that ended with EOFACK was closed |
| HydraFile.ReceiverOnEof | HYDRACOM/HYDRA.C:1773-1842 | the file is closed only at the end of the source |
| HydraFile.HoldsMore | HYDRACOM/HYDRA.C:1659-1679 | a block at the right position is appended as far as the disk takes it, and the position advances by all of it |
| HydraDevice.DevRun | HYDRACOM/HYDRA.C:1158-1177 | every state of every run keeps the invariant of the device channel |
| HydraDevice.DeviceDelivery | HYDRACOM/HYDRA.C:1890-1905 | messages handed in on one side are taken from the line on the other exactly once and in order, at most the last one missing, and none when devtxstate is HTD_DONE; and the device functions get exactly those of them whose devices are registered; packet numbers may wrap |
| HydraDevice.HandedRun | HYDRACOM/HYDRA.C:226-246 | in every run what the device functions got is what was taken from the line, restricted to registered devices |
| HydraDevice.RestrictAll | HYDRACOM/HYDRA.C:235-245 | nothing is left out of messages for registered devices |
| HydraShutdown.EndRun | HYDRACOM/HYDRA.C:1301-1306 | every state of every run keeps the invariant of the END handshake |
| HydraShutdown.CleanShutdown | HYDRACOM/HYDRA.C:1872-1887 | on either side HTX_END and HTX_ENDACK imply that the receiver is done and no device packet is outstanding, and a session completed on either side means that both sides are done, all device messages of both arrived, and those for registered devices were handed out |
| HydraShutdown.AnswerWasTaken | HYDRACOM/HYDRA.C:1564-1572 | either side, once past HTX_REND, took a FINFOACK for its own end of batch at some earlier step of the run |
| HydraWindows.InitSets | HYDRACOM/HYDRA.C:1395-1418 | an INIT packet sets both windows and the prefix from what is read from the buffer after the flag strings have been cut, or the session ends, or nothing happens |
| HydraWindows.SameLimitIs | HYDRACOM/HYDRA.C:1405-1415 | the two windows of one direction are equal if and only if the limits and options of the two operators meet a condition that is a comparison of numbers |
| HydraWindows.WindowAgreement | HYDRACOM/HYDRA.C:1395-1415 | in every run, once both sides have taken the other's INIT packet, each window is the smaller of a side's own limit and what it has read; each side sends with exactly the window the other acknowledges by if and only if limits and options meet that condition, as they always do when neither side wants more than one option |
| HydraWindows.PrefixRun | HYDRACOM/HYDRA.C:1416-1418 | in every run the prefix is empty until the INIT packet has been taken and then what was read from it, letters and digits of which the first is a digit or a capital |
| HydraInit.InitRead | HYDRACOM/HYDRA.C:1392-1418 | from an INIT packet with at most one wanted option everything is read as it was written; with more, the flag strings are, but the windows are scanned from the second name: 12 and nothing if it is CTL, nothing otherwise; and the prefix is the text of the windows or the third name |
| HydraInit.WantShape | HYDRACOM/HYDRA.C:250-264 | the string of wanted options has four characters for each but the first, and its second name is CTL exactly if CTLCHRS and one of XONXOFF and TELENET are wanted |
| HydraInit.OneName | HYDRACOM/HYDRA.C:1405-1418 | a string without commas is not cut, and windows and prefix are found behind it |
| HydraInit.SeveralNames | HYDRACOM/HYDRA.C:1405-1418 | a string with commas ends behind its first name once it is cut, and windows and prefix are looked for there |
| HydraInit.PrefixIsHarmless | HYDRACOM/HYDRA.C:1416-1418 | every prefix that can be read consists of letters and digits and does not begin with a small letter |
| HydraInit.ReadFlags | HYDRACOM/HYDRA.C:1392-1397 | both flag strings are read in the receive buffer and cut as specified |
| HydraInit.ReadWindows | HYDRACOM/HYDRA.C:1405-1418 | windows and prefix are read from the cut buffer as specified |
| HydraInit.ScanNumber | HYDRACOM/HYDRA.C:1407 | up to eight hexadecimal digits, and how many |
| HydraHandshake.HandshakeRun | HYDRACOM/HYDRA.C:1183-1211 | whatever options and windows the two operators ask for, there is a run that completes the handshake |
| HydraHandshake.CtlIsTwelve | HYDRACOM/HYDRA.C:1405-1407 | an operator without limits who wants XONXOFF and CTLCHRS makes the peer acknowledge by a window of 12 that this side does not wait for |
| HydraHandshake.TlnIsNothing | HYDRACOM/HYDRA.C:1405-1407 | an operator with a limit of 4096 who wants XONXOFF and TELENET waits for acknowledgements that the peer never sends, in any run |
| HydraHandshake.NoAcks | HYDRACOM/HYDRA.C:1680-1683 | a side that comes to no window for receiving never sends a DATAACK in any run |
| HydraBatch.LeftOverRun | HYDRACOM/HYDRA.C:1839-1857 | in every run no answer to an offer is behind an EOFACK, and no offer is left when one is on its way |
| HydraBatch.NothingLeftAfterEof | HYDRACOM/HYDRA.C:1844-1857 | when a file ends with EOFACK, nothing that concerns its offer is on the lines, so the next answer is one to the next offer |
| HydraBatch.StaleRefusal | HYDRACOM/HYDRA.C:1564-1608 | when an offer was repeated and refused twice, the second refusal is taken for the answer to the next file: it is reported as there although the peer has never heard of it |
| HydraComplete.BlockLengths | HYDRACOM/HYDRA.C:1252-1277 | while nothing is lost the blocks of a file are of these lengths, as numbers: with a limit of 1024 or more two of 512, one of 1024, then the limit; with a smaller one four of 256, two of 512 if the limit is above 512, then the limit; both sides are at the sum of the lengths after every block, and the receiver has exactly that much of the file |
| HydraComplete.AllBlocks | HYDRACOM/HYDRA.C:1249-1298 | a file is across after exactly so many blocks as these lengths need |
| HydraComplete.EofExchange | HYDRACOM/HYDRA.C:1293-1298 | at the end of the file EOF goes out, the receiver closes the file with exactly the source in it, EOFACK comes back and the call returns XFER_OK |
| HydraComplete.SessionCompletes | HYDRACOM/HYDRA.C:1153-1986 | for every two files or none, whatever part of them the other side has already: an explicit list of steps takes the session from START through both files and both ends of batches to END, with the calls returning success and each file closed once and complete at the other side |
| HydraOneWay.WaitingSide | HYDRACOM/HYDRA.C:1936-1945 | a side in one-way mode holds its accepted file back and gets its notice across on the device channel if that was agreed on |
| HydraOneWay.Yields | HYDRACOM/HYDRA.C:1337-1341 | the idle timer of one waiting side lets the other go on in both directions |
| HydraOneWay.OneWayCompletes | HYDRACOM/HYDRA.C:1860-1869 | two operators who both asked for one-way transfer: the session completes all the same |
| HydraOneWay.EverySessionCompletes | HYDRACOM/HYDRA.C:1153-1986 | so for all operators, files and beginnings of files there is an explicit completing run, unless a side waits for acknowledgements that never come |
| HydraRepeat.BlockLost | HYDRACOM/HYDRA.C:1615-1657 | after a lost block the receiver asks for it with RPOS at the next block or EOF, and the sender is back at it with the same data, number and window |
| HydraRepeat.BlockUnheard | HYDRACOM/HYDRA.C:1354-1360 | after a lost DATAACK the sender goes on with the next block |
| HydraRepeat.OfferUnheard | HYDRACOM/HYDRA.C:1458-1561 | an offer whose answer is lost is repeated and answered again in the same way, and the file is not begun twice |
| HydraRepeat.EofUnheard | HYDRACOM/HYDRA.C:1839-1842 | an EOF whose answer is lost is repeated and answered again, and the file is not closed twice |
| HydraRepeat.LossySessionCompletes | HYDRACOM/HYDRA.C:1336-1363 | whichever offers, blocks, ends of files, ends of batches of either side are lost once, or the answers to them, with at most eight lost answers in a row, and whether or not END is lost: there is a completing run, with at most one block for every 64 bytes |
| HydraRepeat.NeverSent | HYDRACOM/HYDRA.C:1279-1283 | a side with a limit whose peer acknowledges nothing does not get to the end of a longer file without time-outs |
| HydraRepeat.FileGoesExactlyIf | HYDRACOM/HYDRA.C:1279-1283 | without losses and time-outs the first side's file gets across if and only if that side sets no limit, or the other acknowledges, or what is missing is shorter than the limit, as numbers of the two configurations |
| HydraTrouble.TroubleEnds | HYDRACOM/HYDRA.C:1564-1612 | a file that is refused in any of five ways, or cannot be positioned, read at any block or written at any block: nothing of it is closed, and the call returns that it is there already exactly when the receiver said so, and that it was skipped otherwise |
| HydraTrouble.TroubledSessionEnds | HYDRACOM/HYDRA.C:1153-1986 | and the session goes on: the other side's file gets across and both sides come to their end |
| HydraRetry.ElevenTimes | HYDRACOM/HYDRA.C:1336-1363 | without an answer START, INIT, FINFO, EOF and END packets are sent eleven times, the same each time, and the session is then given up |
| HydraRetry.MessageElevenTimes | HYDRACOM/HYDRA.C:1365-1377 | the same for a device message that is not acknowledged |
| HydraRetry.TenGaps | HYDRACOM/HYDRA.C:1617-1657 | a receiver asks for a missing block ten times under one number and gives up at the next gap |
| HydraRetry.FallsBack | HYDRACOM/HYDRA.C:1624-1633 | a receiver that may fall back to one-way transfer does so exactly at the sixth gap and begins to count again |
| HydraRetry.QuietGap | HYDRACOM/HYDRA.C:1619-1623 | while its timer runs a receiver only notes gaps; a gap that does not lie further on begins the count again |
| HydraRetry.GoesBackExactly | HYDRACOM/HYDRA.C:1724-1768 | what RPOS makes of the sender: position, the shorter of the length asked for and half its own, 1024 more good bytes needed up to 8192 |
| HydraRetry.TenSameRequests | HYDRACOM/HYDRA.C:1714-1722 | an RPOS with the same number is only counted, up to ten |
| HydraRetry.ChatHoldsEnd | HYDRACOM/HYDRA.C:1956-1963 | while the users chat a side with nothing more to send goes to no other state than HTX_DONE, whatever comes |
| HydraRetry.BreakEnds | HYDRACOM/HYDRA.C:1320-1334 | lost carrier, cancel and operator abort end the session in every state, with all files of the session closed |
| HydraRetry.ChannelFreeExactly | HYDRACOM/HYDRA.C:176-207 | hydra_devsend takes a message exactly if the channel is free, agreed on and not at its end, and the message is not empty |
| HydraRetry.AckMovesWindow | HYDRACOM/HYDRA.C:1693-1707 | a DATAACK lets a waiting sender go on exactly if less than the window is then unacknowledged, and one that is not beyond the last changes nothing |
| HydraMessages.MessagesGetAcross | HYDRACOM/HYDRA.C:1158-1171 | from every state of a run past the handshake and short of END, with a free channel and empty lines: a message handed in is taken by the peer exactly once, handed to its device function if one is registered, and leaves the channel free, when nothing is lost, when the message is lost, and when its acknowledgement is |
| HydraMessages.LostMessage | HYDRACOM/HYDRA.C:1365-1377 | a lost message goes out again when the device timer runs out |
| HydraMessages.LostAcknowledgement | HYDRACOM/HYDRA.C:1890-1905 | a message that comes again is acknowledged again and not taken again |
| HydraSizes.SizedRun | HYDRACOM/HYDRA.C:1269-1277 | in every run the block length stays within 64 and 2048 and every packet fits the buffers |
| HydraText.LongRoundTrip | HYDRACOM/HYDRA.C:1256 | a number put into a packet as a long is read back if and only if it fits 32 bits with sign |
| HydraPackets.InitBack | HYDRACOM/HYDRA.C:1391-1418 | an INIT packet is read in the same way whatever stands behind it in the buffer |
| HydraPackets.DevBack | HYDRACOM/HYDRA.C:226-246 | of a device message exactly what was sent is handed out if and only if a function is registered for its tag, and nothing otherwise, whatever was in the buffers before |
| HydraPackets.DevMessage | HYDRACOM/HYDRA.C:186-246 | the same for every name and data given to hydra_devsend, whose tag is the first three characters in capitals |
| HydraPackets.ParseBody | HYDRACOM/HYDRA.C:1158-1306 | for every packet type, what the session takes from a body is what the endpoint makes of the packet it was written for |
| HydraPackets.InTransit | HYDRACOM/HYDRA.C:1158-1306 | in every run every number in a packet on a line fits a long, and INIT packets carry the strings and windows of their sender |
| HydraPackets.InTransitIsDecoded | HYDRACOM/HYDRA.C:335-741 | in every run whose first files open, every packet on either line, INIT included, fits the buffers; its bytes, behind any prefix that can arise, make the endpoint it travels to return its type and body; and what the session takes from the body is what the endpoint makes of the packet |
| HydraCrc.TableStep | HYDRACOM/HYDRA.C:60-61 | the table-driven update of both CRCs equals a byte entering and eight bit-serial steps |
| HydraCrc.FromIsSteps | HYDRACOM/HYDRA.C:289-307 | processing a message byte by byte is the same as entering it whole and stepping once for every bit |
| HydraCrc.Residue | HYDRACOM/HYDRA.C:434-447 | for any register width, a message followed by its complemented CRC leaves a register that does not depend on the message |
| HydraCrc.DetectsBurst | HYDRACOM/HYDRA.C:657-672 | two messages of equal length that differ only within a window no wider than the register have different CRCs |
| HydraCrc.HydraDetectsBursts | HYDRACOM/HYDRA.C:657-672 | two adjacent bytes for CRC-16, four for CRC-32 |
| HydraCrc.Tables.constructor | HYDRACOM/HYDRA.C:900-911 | fills both tables with eight bit-serial steps of every byte |
| HydraCrc.Tables.Entry | HYDRACOM/HYDRA.C:903-908 | the inner loop: eight steps of both registers |
| HydraCrc.Tables.Block16 | HYDRACOM/HYDRA.C:289-296 | computes the bit-serial CRC-16 of the bytes at a place of a buffer |
| HydraCrc.Tables.Block32 | HYDRACOM/HYDRA.C:300-307 | computes the bit-serial CRC-32 of the bytes at a place of a buffer |
| HydraResidue.Steps16 | HYDRACOM/HYDRA.C:64 | the register that the CRC-16 test compares with is what sixteen steps make of all ones |
| HydraResidue.Steps32 | HYDRACOM/HYDRA.C:65 | the register that the CRC-32 test compares with is what thirty-two steps make of all ones |
| HydraResidue.Residue16 | HYDRACOM/HYDRA.C:434-447 | every message followed by its complemented CRC-16, low byte first, passes h_crc16test |
| HydraResidue.Residue32 | HYDRACOM/HYDRA.C:434-447 | every message followed by its complemented CRC-32, low byte first, passes h_crc32test |
| HydraWire.DecodeFits | HYDRACOM/HYDRA.C:579-638 | the decoders write no more than they read and stop at most two bytes past the end of the text |
| HydraWire.Store | HYDRACOM/HYDRA.C:764-789 | storing a byte keeps the pointer within the buffer |
| HydraWire.PacketEnd | HYDRACOM/HYDRA.C:574-672 | the end of a packet keeps the receiver within its buffer, whatever has been stored |
| HydraBodies.HexReadsText | HYDRACOM/HYDRA.C:456-474 | the HEX decoder gives back the bytes whose HEX text is in the buffer |
| HydraBodies.OctetsOfSeptets | HYDRACOM/HYDRA.C:481-493 | the ASC decoder gives back any bytes that the shifted 7-bit encoder has sent |
| HydraBodies.UueReadsText | HYDRACOM/HYDRA.C:495-508 | the UUE decoder gives back the bytes whose UUE text is in the buffer, also for one or two bytes left over |
| HydraBodies.TextFits | HYDRACOM/HYDRA.C:897-898 | no body of legal length is too long for the receive buffer in any format |
| HydraBodies.BodyRoundTrip | HYDRACOM/HYDRA.C:579-638 | decoding a stored body gives the bytes that were encoded, in all four formats |
| HydraStream.HarmlessPasses | HYDRACOM/HYDRA.C:519-533 | a prefix of letters and digits that does not begin with a small letter yields nothing in any state of the receiver |
| HydraStream.PrefixedArrives | HYDRACOM/HYDRA.C:519-741 | one packet behind such a prefix comes out as its type and payload from every receiver state with at most three DLEs pending |
| HydraStream.PacketArrives | HYDRACOM/HYDRA.C:540-741 | one packet, with the format the options choose, comes out as its type and payload from every receiver state with at most three DLEs pending; HEX packets under any receiver options |
| HydraStream.StreamRoundTrip | HYDRACOM/HYDRA.C:335-536 | for every list of packets, each behind a harmless prefix, rxpkt returns exactly those packets in order and never a cancel |
| HydraStream.AutoStartPasses | HYDRACOM/HYDRA.C:1184 | the autostart string between packets has no effect |
| HydraStream.CancelArrives | HYDRACOM/HYDRA.C:566-569 | five DLEs cancel in every receiver state and under all options |
| HydraStream.FeedClean | HYDRACOM/HYDRA.C:552-562 | bytes that the options tell the receiver to ignore make no difference anywhere in a stream |
| HydraStream.NoiseImmunity | HYDRACOM/HYDRA.C:552-562 | inserting or losing any number of ignored bytes anywhere in the stream, even between a DLE and its operand, does not change the packets that come out |
| HydraRefuse.Only16 | HYDRACOM/HYDRA.C:64-65 | the CRC-16 test accepts a body only if it is some bytes followed by their complemented CRC, low byte first |
| HydraRefuse.Only32 | HYDRACOM/HYDRA.C:64-65 | the same for the CRC-32 test |
| HydraRefuse.EndExactly | HYDRACOM/HYDRA.C:657-672 | the end of a packet yields exactly the packets whose decoded body is payload, type and complemented CRC of the width that options and format ask for, and nothing for all others |
| HydraRefuse.BodyDecides | HYDRACOM/HYDRA.C:657-732 | the same for a whole packet fed byte by byte |
| HydraRefuse.DamagedIsRefused | HYDRACOM/HYDRA.C:657-672 | a packet whose body was changed within two adjacent bytes, or four with CRC-32, yields nothing |
| HydraRefuse.RefuseDamaged | HYDRACOM/HYDRA.C:540-740 | and rxpkt returns no packet for it |
| HydraKnown.Check16 | HYDRACOM/HYDRA.C:64-65 | the CRC-16 register after "123456789" is 0x6f91 |
| HydraKnown.Check32 | HYDRACOM/HYDRA.C:64-65 | the CRC-32 register after "123456789" is 0x340bc6d9 |
| HydraKnown.StartPacket | HYDRACOM/HYDRACOM.C:619 | under all options the START packet is, byte for byte, the string that the called program looks for |
| HydraKnown.DataPacket | HYDRACOM/HYDRA.C:335-513 | a block with one byte at position 0 as BIN packet, byte for byte |
| HydraKnown.LongEofAck | HYDRACOM/HYDRA.C:432-439 | EOFACK with a 32-bit CRC, byte for byte |
| HydraKnown.HexEofAck | HYDRACOM/HYDRA.C:456-474 | EOFACK as HEX packet, byte for byte |
| HydraKnown.AscEofAck | HYDRACOM/HYDRA.C:481-496 | EOFACK as ASC packet, byte for byte |
| HydraKnown.UueEofAck | HYDRACOM/HYDRA.C:498-504 | EOFACK as UUE packet, byte for byte |
| HydraKnown.EscapedExactly | HYDRACOM/HYDRA.C:311-331 | which bytes are escaped, listed for every combination of options, and as what |
| HydraKnown.Longs | HYDRACOM/HYDRA.C:1256 | longs go with the low byte first, negative ones in two's complement |
| HydraKnown.CanString | HYDRACOM/HYDRA.C:1196 | what every INIT packet says that this side can do |
| HydraKnown.LinkOptionsExactly | HYDRACOM/HYDRA.C:1394-1398 | an option is used exactly if one of the operators asked for it or both programs have it for nothing |
| HydraKnown.Windows | HYDRACOM/HYDRA.C:1200-1201 | the two windows as text of eight hexadecimal digits each |
| HydraKnown.TagIs | HYDRACOM/HYDRA.C:191-193 | device tags: three characters at most, capitals for small letters, all else unchanged |
| HydraLine.EncoderIsQuiet | HYDRACOM/HYDRA.C:455-517 | no packet contains a byte that its options say the line may swallow, except DLE |
| HydraLine.NoFlowControl | HYDRACOM/HYDRA.C:311-331 | with XONXOFF negotiated no XON or XOFF is ever on the line, prefixes included |
| HydraLine.NoTelenetEscape | HYDRACOM/HYDRA.C:311-331 | with TELENET negotiated no carriage return ever directly follows an '@' on the line, within or between packets and prefixes |
| HydraPort.Port.constructor | HYDRACOM/HYDRA.C:888-898 | buffers and options as a session starts with them |
| HydraPort.Port.PutBinByte | HYDRACOM/HYDRA.C:311-331 | writes the escaped or plain byte at the output pointer and remembers it |
| HydraPort.Port.EncodeHex | HYDRACOM/HYDRA.C:456-474 | the in-place HEX encoder never overwrites input it has still to read (2 + 3k bytes written after k read), and its output is the specified one |
| HydraPort.Port.EncodeBin | HYDRACOM/HYDRA.C:476-479 | the same for BIN packets |
| HydraPort.Port.AscByte | HYDRACOM/HYDRA.C:482-490 | one turn of the ASC encoder |
| HydraPort.Port.EncodeAsc | HYDRACOM/HYDRA.C:481-493 | the same for ASC packets |
| HydraPort.Port.EncodeUue | HYDRACOM/HYDRA.C:495-508 | the same for UUE packets |
| HydraPort.Port.Seal | HYDRACOM/HYDRA.C:434-447 | appends the type byte and the complemented CRC that options and format ask for |
| HydraPort.Port.ChooseFormat | HYDRACOM/HYDRA.C:345-371 | chooses HEX, UUE, ASC or BIN as specified |
| HydraPort.Port.TxPkt | HYDRACOM/HYDRA.C:335-536 | after the call the first n bytes of the transmit buffer are the specified encoding of the body that lay at the input offset |
| HydraPort.Port.HexTurn | HYDRACOM/HYDRA.C:580-594 | one turn of the HEX decoder; a bad digit ends it |
| HydraPort.Port.DecodeHex | HYDRACOM/HYDRA.C:579-597 | the in-place HEX decoder: its output lies at the start of the buffer and the rest is as it was |
| HydraPort.Port.DecodeAsc | HYDRACOM/HYDRA.C:599-609 | the same for ASC packets |
| HydraPort.Port.DecodeUueGroups | HYDRACOM/HYDRA.C:612-623 | the loop over groups of four characters |
| HydraPort.Port.DecodeUue | HYDRACOM/HYDRA.C:611-638 | the same for UUE packets, with the characters left over |
| HydraPort.Port.CheckInPlace | HYDRACOM/HYDRA.C:657-672 | the length and CRC tests, on the buffer |
| HydraPort.Port.EndPacket | HYDRACOM/HYDRA.C:574-672 | the end of a packet as specified, buffer and store pointer included |
| HydraPort.Port.StoreByte | HYDRACOM/HYDRA.C:764-789 | appends a byte or gives the packet up |
| HydraPort.Port.RxByte | HYDRACOM/HYDRA.C:552-790 | every byte from the line changes buffer, pointer, DLE count and format exactly as specified |
| HydraPort.Port.RxPkt | HYDRACOM/HYDRA.C:540-741 | returns for operator and carrier before reading anything, for the first packet or cancel of the specified stream decoder, and for the timers in their order when the line has no more; a cancel leaves the static store pointer where the last start or end of a packet has put it |
| HydraPort.Port.RxBytes | HYDRACOM/HYDRA.C:552-790 | the loop over arrived bytes, up to the first packet or cancel |
| HydraPort.Port.AscEnd | HYDRACOM/HYDRA.C:491-492 | the septet with the bits left over |
| HydraPort.Port.EncodeGroup | HYDRACOM/HYDRA.C:496-501 | one group of three bytes as four characters |
| HydraPort.Port.AscTurn | HYDRACOM/HYDRA.C:601-608 | one turn of the ASC decoder |
| HydraPort.Port.Complement | HYDRACOM/HYDRA.C:434-447 | the complement of the CRC that options and format ask for |
| HydraTransfer.Transfer | HYDRACOM/HYDRA.C:335-741 | what txpkt puts on the line on one side, behind a harmless prefix, makes rxpkt on the other return the type and the payload that were in the transmit buffer, unless operator or carrier break off |
| HydraSession.Session.constructor | HYDRACOM/HYDRA.C:915-940 | hydra_init and the first call of hydra() leave the state in which a session starts, in one-way mode if that was asked for and this side did not call |
| HydraSession.Session.NextCall | HYDRACOM/HYDRA.C:1119-1153 | return to the caller and the call that ends the batch |
| HydraSession.Session.Finish | HYDRACOM/HYDRA.C:1972-1989 | leaving the loop closes what is open |
| HydraSession.Session.DevSend | HYDRACOM/HYDRA.C:176-207 | refuses an empty message or a busy channel; otherwise numbers and shortens it as specified |
| HydraSession.Session.TransmitDev | HYDRACOM/HYDRA.C:1158-1177 | the device part of a pass takes the specified step |
| HydraSession.Session.ReadBlock | HYDRACOM/HYDRA.C:1256-1262 | the next block of the file, at most as long as asked |
| HydraSession.Session.GrowBlock | HYDRACOM/HYDRA.C:1269-1277 | larger blocks after enough good bytes |
| HydraSession.Session.SendData | HYDRACOM/HYDRA.C:1249-1298 | a data packet, or the fall-through to EOF at the end of the file, after a skip and after a read error |
| HydraSession.Session.TransmitTx | HYDRACOM/HYDRA.C:1180-1313 | every transmitter state sends its packet and moves on as specified |
| HydraSession.Session.Transmit | HYDRACOM/HYDRA.C:1153-1313 | one pass of the loop up to the receive loop |
| HydraSession.Session.OnTxTimeout | HYDRACOM/HYDRA.C:1336-1363 | retries, or gives up after ten; a DATAACK timeout goes back to sending one more block |
| HydraSession.Session.OnDevTimeout | HYDRACOM/HYDRA.C:1365-1377 | the same for the device channel |
| HydraSession.Session.OnStart | HYDRACOM/HYDRA.C:1380-1387 | START packet |
| HydraSession.Session.SetWindows | HYDRACOM/HYDRA.C:1406-1415 | the smaller of the own limit and what was read, zero meaning none |
| HydraSession.Session.OnInit | HYDRACOM/HYDRA.C:1390-1445 | INIT packet: options, windows and prefix read from the receive buffer, incompatibility test, acknowledgement |
| HydraSession.Session.OnInitAck | HYDRACOM/HYDRA.C:1448-1455 | INITACK packet |
| HydraSession.Session.OnFInfo | HYDRACOM/HYDRA.C:1458-1561 | FINFO packet: end of batch, file there already, refusals for skipping, disk space, opening and seeking, acceptance at the length already there |
| HydraSession.Session.OnFInfoAck | HYDRACOM/HYDRA.C:1564-1612 | FINFOACK packet: start, resume, skip, end of batch |
| HydraSession.Session.NoteBadPos | HYDRACOM/HYDRA.C:1619-1623 | bookkeeping for a packet at the wrong position |
| HydraSession.Session.Resync | HYDRACOM/HYDRA.C:1634-1656 | counts a retry, halves the block length and asks for a reposition, or gives up |
| HydraSession.Session.OnBadData | HYDRACOM/HYDRA.C:1617-1657 | a data packet at the wrong position, with the fallback to one-way transfer |
| HydraSession.Session.OnData | HYDRACOM/HYDRA.C:1615-1690 | DATA packet |
| HydraSession.Session.OnDataAck | HYDRACOM/HYDRA.C:1693-1707 | DATAACK packet |
| HydraSession.Session.ShrinkBlock | HYDRACOM/HYDRA.C:1732-1740 | the block length after a reposition |
| HydraSession.Session.OnRPos | HYDRACOM/HYDRA.C:1710-1771 | RPOS packet: reposition, skip, repeated request |
| HydraSession.Session.OnEofInData | HYDRACOM/HYDRA.C:1774-1836 | EOF packet while receiving |
| HydraSession.Session.OnEof | HYDRACOM/HYDRA.C:1773-1841 | EOF packet |
| HydraSession.Session.OnEofAck | HYDRACOM/HYDRA.C:1844-1857 | EOFACK packet |
| HydraSession.Session.OnIdle | HYDRACOM/HYDRA.C:1860-1869 | IDLE packet |
| HydraSession.Session.OnEnd | HYDRACOM/HYDRA.C:1872-1887 | END packet |
| HydraSession.Session.DevRecv | HYDRACOM/HYDRA.C:226-246 | walks through the device table and hands the message out if a function is registered |
| HydraSession.Session.OnDevSend | HYDRACOM/HYDRA.C:1890-1897 | DEVDATA packet: taken once, always acknowledged |
| HydraSession.Session.OnDevAck | HYDRACOM/HYDRA.C:1900-1905 | DEVDACK packet |
| HydraSession.Session.OnPacket | HYDRACOM/HYDRA.C:1322-1913 | every packet type takes the specified step and returns from hydra() exactly when specified |
| HydraSession.Session.AfterEvent | HYDRACOM/HYDRA.C:1915-1969 | the second switch of the receive loop |
| HydraSession.Session.Receive | HYDRACOM/HYDRA.C:1317-1970 | one turn of the receive loop takes the specified step |
| HydraPlay.Act | HYDRACOM/HYDRA.C:1153-1970 | a pass, an arriving packet, an expired timer, an abort or a device message at one session object is the specified move |
| HydraPlay.TakeStep | HYDRACOM/HYDRA.C:1153-1970 | a step at either of two session objects joined by two lines is the specified step of the system |
| HydraPlay.Play | HYDRACOM/HYDRA.C:1088-1989 | driving two session objects through any sequence of steps leaves them in the state that the specified run ends in, and so file agreement, exactly-once delivery, clean shutdown, option agreement and the exact condition for equal windows hold of the objects |
| JModemCodec.DecodeEncoded | JModem/jmodem_d.c:89-122 | decoding an encoded block gives back its bytes, whatever lay behind the data in the sender's buffer |
| JModemCodec.BlockRoundTrip | JModem/jmodem_a.c:267-288 | for 1 to 8192 bytes the block that the sender builds has the right length field, passes the receiver's check, carries number and end-of-file bit, and opens to the data in raw and compressed form alike |
| JModemCodec.RotlInjective | JModem/jmodem_d.c:143-145 | rotation loses nothing |
| JModemCodec.CrcInjective | JModem/jmodem_d.c:139-146 | different running checksums stay different over any bytes |
| JModemCodec.OneByteDetected | JModem/jmodem_d.c:130-163 | of an intact block no version with one byte changed, in data, header or checksum, passes the check |
| JModemBlock.CountRun | JModem/jmodem_d.c:55-61 | the length of the run at the input pointer |
| JModemBlock.EncodeOne | JModem/jmodem_d.c:48-77 | one turn of the encoder: a run or a single byte |
| JModemBlock.Encode | JModem/jmodem_d.c:39-81 | writes the specified code, or gives up exactly when it is longer than 8192 bytes, and never touches anything beyond 8196 bytes |
| JModemBlock.DecodeOne | JModem/jmodem_d.c:102-120 | one turn of the decoder |
| JModemBlock.Decode | JModem/jmodem_d.c:89-122 | writes exactly the specified expansion |
| JModemBlock.Fill | JModem/jmodem_d.c:109-113 | the loop that expands a run |
| JModemBlock.Sum | JModem/jmodem_d.c:138-144 | the running checksum over all but the last two bytes; for a length below three the counter wraps around and the loop runs on |
| JModemBlock.GetCrc | JModem/jmodem_d.c:150-155 | the difference that is zero for an intact block, for every length |
| JModemBlock.SetCrc | JModem/jmodem_d.c:156-161 | closes the block with its checksum, for every length |
| JModemBlock.Build | JModem/jmodem_a.c:253-288 | encodes, chooses the shorter form and fills in header and checksum as specified |
| JModemBlock.Open | JModem/jmodem_a.c:169-186 | expands or copies the data of a good block |
| JModemLink.TakeKeeps | JModem/jmodem_a.c:161-203 | taking a block, acknowledging and writing it keeps the lockstep invariant, whether the write stores all of it, a part, nothing or fails |
| JModemLink.SendKeeps | JModem/jmodem_a.c:338-352 | reading and sending a block, flushing the back line and giving up keep the lockstep invariant |
| JModemLink.StepKeeps | JModem/jmodem_a.c:338-420 | every step of either side and every loss, damage or noise on the lines keeps the lockstep invariant |
| JModemLink.LockstepSafety | JModem/jmodem_a.c:149-217 | in every run the receiver has taken exactly blocks 1 to r with r equal to the sender's block or one less, and equal as soon as send_blk returns JM_NRM; its file holds them each once exactly if no write failed or fell short; every block has 1 to 8192 bytes |
| JModemLink.SentMeansReceived | JModem/jmodem_a.c:248-305 | a sender that finishes without error has delivered the whole file, and the receiver has closed it exactly if the last block was shorter than asked for |
| JModemLossless.LosslessTransfer | JModem/jmodem_a.c:149-305 | over lines that lose nothing the sender reports success and the receiver gets every byte of every file; it closes the file if and only if its length is not a sum of full blocks of 512, 1024, 1536, ... and at last 8192 bytes, and otherwise deletes it after ten time-outs |
| JModemLossless.FullBlockIsDeleted | JModem/jmodem_a.c:252-266 | in particular a file of exactly one block and the empty file are received in full and deleted |
| JModemLossless.BlockDone | JModem/jmodem_a.c:252-300 | one block without loss: read, sent, taken, acknowledged, and the next one 512 bytes longer |
| JModemLossless.WaitsInVain | JModem/jmodem_a.c:400-421 | ten time-outs delete the file |
| JModemMain.SendBlockExactly | JModem/jmodem_a.c:338-384 | send_blk returns with success if and only if one of its attempts is answered by an ACK as the first byte that means something and every earlier attempt by a NAK, a zero byte or nothing; the block length is then adapted to the number of that attempt |
| JModemMain.SendFileExactly | JModem/jmodem_a.c:248-300 | the send loop always ends; without error if and only if every block it reads is acknowledged in that way, and then the blocks are the whole file; otherwise the last block read is the first that is not acknowledged |
| JModemMain.SendBlockIsRun | JModem/jmodem_a.c:338-384 | send_blk on any system whose back line holds the replies is a run of the link given by an explicit list of steps, which puts only copies of the block, or the sign of giving up, on the forward line |
| JModemMain.TurnIsStep | JModem/jmodem_a.c:155-213 | one turn of the receive loop is one step of the link |
| JModemMain.TurnsIsRun | JModem/jmodem_a.c:149-217 | the receive loop on any system whose forward line holds the frames that arrive is a run of the link given by an explicit list of steps |
| JModemMain.Transmitter.Heed | JModem/jmodem_a.c:359-379 | what a response does to the sender |
| JModemMain.Transmitter.Read | JModem/jmodem_a.c:252-265 | reads the next block and marks a short one as the last |
| JModemMain.Transmitter.Response | JModem/jmodem_a.c:347-356 | the first byte that means something, or none |
| JModemMain.Transmitter.SendBlk | JModem/jmodem_a.c:338-384 | up to ten attempts, then the adapted block length, as specified |
| JModemMain.Transmitter.SendAll | JModem/jmodem_a.c:248-300 | the send loop |
| JModemMain.Station.ReceiveOne | JModem/jmodem_a.c:155-213 | one turn of the receive loop: what is taken, written and answered |
| JModemMain.Station.ReceiveAll | JModem/jmodem_a.c:149-217 | the receive loop |
| JModemRetry.StreakCounts | JModem/jmodem_a.c:148-153 | the tries that are left are nine less the number of frames refused in a row |
| JModemRetry.TenRefused | JModem/jmodem_a.c:208-213 | whatever has come before, a receiver that refuses a frame deletes its file if and only if it is the tenth in a row; otherwise it answers NAK and is as it was |
| JModemRetry.OversizeEnds | JModem/jmodem_a.c:406-407 | a length field out of line ends the reception at once, with six CANs |
| JModemRetry.TenTimeouts | JModem/jmodem_a.c:401-423 | silence is answered with a NAK every time, and the tenth time-out in a row deletes the file, with six CANs |
| JModemRetry.RetriedTransferSucceeds | JModem/jmodem_a.c:148-213 | for every file and every choice of at most nine damaged copies before each good one, an explicit run ends as without damage: the receiver has the whole file, and which block lengths occur follows from the attempts, as numbers |
| JModemRetry.LostAckIsFatal | JModem/jmodem_a.c:338-386 | after a lost acknowledgement no run lets the sender finish with success: the receiver refuses the repeated block |
| JModemKnown.RunCode | JModem/jmodem_d.c:48-77 | a run of any length is four bytes: sentinel, length, byte |
| JModemKnown.PlainCode | JModem/jmodem_d.c:48-77 | data without sentinels and equal neighbours stays as it is |
| JModemKnown.BlockOfA | JModem/jmodem_a.c:253-288 | the block of a file that is one byte, with its checksum, byte for byte |
| JModemKnown.BlockOfRun | JModem/jmodem_a.c:253-288 | a full block of one byte over and over goes over the line in ten bytes |
| JModemSession.Session.ReceiverTurn | JModem/jmodem_a.c:155-213 | a turn of the receiver between the lines is a step of the link |
| JModemSession.Session.Hear | JModem/jmodem_a.c:349-379 | one response, time-out or abort at the sender is a step of the link |
| JModemSession.Session.Attempt | JModem/jmodem_a.c:345-348 | sending the block and flushing, or giving up after ten attempts, is a step of the link |
| JModemSession.Session.ReadNext | JModem/jmodem_a.c:252-265 | reading the next block is a step of the link |
| JModemSession.Session.SendBlk | JModem/jmodem_a.c:338-386 | the loops of send_blk, with the receiver and the lines at work while it waits, end and stay a run of the link |
| JModemSession.Transfer | JModem/jmodem_a.c:149-305 | the send loop run against the receive loop over lossy lines always ends, and is a run of the link: the receiver's file is a prefix of the sender's if no write failed, and after success the whole file, closed exactly if the last block was short |
| NwCrypt.RoundInverts | mars_dosutils/netpc/nwcrypt.c:276-296 | a round of decryption takes back a round of encryption, key included |
| NwCrypt.KeyComesBack | mars_dosutils/netpc/nwcrypt.c:319-324 | after sixteen rotations the key is as it began |
| NwCrypt.InverseIsInverse | mars_dosutils/netpc/nwcrypt.c:269-271 | every row of the table has every nibble, and the inverse row finds it |
| NwCrypt.CipherInversion | mars_dosutils/netpc/nwcrypt.c:261-338 | decrypting an encrypted block under the same key gives the block, for every key and block |
| NwCrypt.CipherInjective | mars_dosutils/netpc/nwcrypt.c:301-338 | two blocks never encrypt to the same block under one key |
| NwCryptCode.Substitute | mars_dosutils/netpc/nwcrypt.c:312-317 | the substitution layer, in place |
| NwCryptCode.RotateUp | mars_dosutils/netpc/nwcrypt.c:319-324 | the key rotation of encryption, in place |
| NwCryptCode.MoveNibbles | mars_dosutils/netpc/nwcrypt.c:326-335 | the permutation layer |
| NwCryptCode.NewPassEncrypt | mars_dosutils/netpc/nwcrypt.c:301-338 | sixteen rounds on byte arrays give the specified block and leave the key array as it was |
| NwCryptCode.InvertTable | mars_dosutils/netpc/nwcrypt.c:269-271 | going through the table once fills in the inverse of every row |
| NwCryptCode.UnmoveNibbles | mars_dosutils/netpc/nwcrypt.c:275-282 | the inverse permutation |
| NwCryptCode.RotateDown | mars_dosutils/netpc/nwcrypt.c:284-287 | the key rotation of decryption, in place |
| NwCryptCode.Unsubstitute | mars_dosutils/netpc/nwcrypt.c:289-294 | the inverse substitution |
| NwCryptCode.NwDecryptNewPass | mars_dosutils/netpc/nwcrypt.c:261-298 | sixteen rounds on byte arrays give the specified block, also in the block array, and leave the key array as it was |
| NwKnown.OneCycle | mars_dosutils/netpc/nwcrypt.c:256-257 | the last row is one cycle: in the sixteen rounds a nibble passes through all sixteen substitution rows once, whichever place it starts from, and is back at its place |
| NwKnown.Zeros | mars_dosutils/netpc/nwcrypt.c:301-338 | key and block of eight zeros give b6 b2 c7 68 a9 ac 62 6e |
| NwKnown.Counting | mars_dosutils/netpc/nwcrypt.c:301-338 | the key 1 to 8 and a block of zeros give c9 b3 e0 42 37 e9 5e bf |
| Rle.LiteralLength | RLE/src/rle.c:26-41 | a literal has between 1 and 128 bytes of the input |
| Rle.RoundTrip | RLE/src/rle.c:22-51 | extracting the compressed file gives the input with its trailing run of 255 lengthened to the next multiple of 129, without error |
| Rle.ExactRoundTrip | RLE/src/rle.c:76-89 | so exactly the input if and only if that run is a multiple of 129 long, in particular whenever the last byte is another one |
| Rle.BlocksExtract | RLE/src/rle.c:76-84 | a sequence of complete blocks is extracted without error to what it means |
| Rle.SoundExactlyForBlocks | RLE/src/rle.c:86-89 | EBADMSG is set exactly for inputs that are not a sequence of complete blocks |
| Rle.SizeBound | RLE/src/rle.c:22-51 | input of length n that does not end in 255 compresses to at most (4n + 2) / 3 bytes |
| Rle.RunIsPairs | RLE/src/rle.c:43-50 | a run of m times 129 equal bytes is m pairs of 255 and the byte |
| Rle.OneLiteral | RLE/src/rle.c:26-41 | up to 128 bytes of which no two neighbours are equal are one literal |
| RleCode.FillLiteral | RLE/src/rle.c:28-32 | the literal loop stops where specified, with the window filled |
| RleCode.FillRun | RLE/src/rle.c:43-46 | the run loop counts as specified and leaves the next byte |
| RleCode.CompressLiteral | RLE/src/rle.c:26-41 | writes one literal block and hands two equal bytes on to the run |
| RleCode.CompressRun | RLE/src/rle.c:43-50 | writes one run block |
| RleCode.Compress | RLE/src/rle.c:22-51 | the whole loop writes exactly the specified file, or as much of it as the disk takes, and reports an error exactly then |
| RleCode.CopyLiteral | RLE/src/rle.c:79-83 | copies a literal, or as much of it as there is and the disk takes |
| RleCode.ExtractFile | RLE/src/rle.c:76-89 | the whole loop writes exactly what is specified, or as much of it as the disk takes, and reports success exactly if the file is sound, everything was written and errno was zero on entry |
| Utf8.Utf8Encode | qodem/source/codepage.c:144-171 | writes the specified bytes into the buffer and nothing else |
| Utf8.Decoder.Utf8Decode | qodem/source/codepage.c:229-237 | one byte moves the two decoder variables as the table says |
| Utf8.DecodeEncoded | qodem/source/codepage.c:229-237 | decoding the concatenated encodings of any scalar values gives those values |
| Utf8.AcceptedIsEncoded | qodem/source/codepage.c:201-237 | every byte string that leads from ACCEPT to ACCEPT is exactly the concatenated encodings of the code points it reports, all of them scalar values: no overlong forms, no surrogates |
| Utf8.KnownEncodings | qodem/source/codepage.c:144-171 | U+0024, U+00A2, U+20AC and U+10348, byte for byte |
| Utf8.RoundTripsExactly | qodem/source/codepage.c:144-171 | an argument of utf8_encode comes back from the decoder if and only if it is a scalar value |
| MsbCrc.TableStep | CRC32.c:78-89 | the table-driven update equals a byte entering at the high end and eight steps of division |
| MsbCrc.UpdateConcat | CRC32.c:78-89 | updating over a concatenation is updating over the parts, with the complement taken in between |
| MsbCrc.MirrorTwice | CRC32.c:56-73 | mirroring a register twice gives it back |
| MsbCrc.ShiftMirror | CRC32.c:64-70 | a step of division seen in the mirror is a step of the reflected CRC |
| MsbCrc.PolynomialMirror | CRC32.c:23 | the polynomial is the mirror image of Hydra's |
| MsbCrc.UpdateIsHydraCrc | CRC32.c:78-89 | on bytes with their bits reversed, update_crc(-1, ...) is the mirror image of Hydra's complemented CRC-32 |
| MsbCrc.Table.constructor | CRC32.c:56-73 | fills the table with eight steps of division of every high byte |
| MsbCrc.Table.Entry | CRC32.c:63-70 | the inner loop |
| MsbCrc.Table.UpdateCrc | CRC32.c:78-89 | computes the complemented remainder |
| UniqueName.AdvanceDecreases | HYDRACOM/FMISC.C:87-98 | each turn of the search brings the extension closer to being numeric, and then to a given free number |
| UniqueName.FreeIsReached | HYDRACOM/FMISC.C:87-98 | whenever one of the thousand numerals makes a free name the search ends, whatever it begins with |
| UniqueName.EndsExactlyIfFree | HYDRACOM/FMISC.C:87-98 | from a numeral the search ends only if one of the thousand is free |
| UniqueName.FirstFreeIsOne | HYDRACOM/FMISC.C:87-98 | the first free name is unique |
| UniqueName.KnownNames | HYDRACOM/FMISC.C:78-98 | which extensions follow abc, ab7, ab9, a99 and 999, and how a missing or short one is filled up |
| UniqueName.FindDot | HYDRACOM/FMISC.C:76-77 | the first dot, or the end, of any path |
| UniqueName.Pad | HYDRACOM/FMISC.C:78-85 | pads whatever follows the first dot to at least three characters |
| UniqueName.SearchFree | HYDRACOM/FMISC.C:87-98 | the search loop ends with the first free name among those it counts through |
| UniqueName.Count | HYDRACOM/FMISC.C:88-97 | one turn of the search, on the characters in place |
| UniqueName.MakeUnique | HYDRACOM/FMISC.C:69-100 | leaves a free name alone; otherwise ends with the first free name that counting in the last three characters of the padded path comes to, under no other condition than that there is one and that the buffer has room |

## Left out

- Hydra with more than one file in a session: agreement is stated for the first file of each side. What can go wrong with the next one, and that it cannot after EOFACK, is stated (`HydraBatch.StaleRefusal`, `HydraBatch.NothingLeftAfterEof`); a whole batch as one run is not modelled.
- Hydra liveness in all runs: completing runs are given for all operators and files, with and without losses; that every run in which enough packets arrive completes is not stated. HTX_RINIT waits for exactly HRX_FINFO and can wait forever.
- HydraRepeat.LossySessionCompletes: packets of the handshake are not lost in these runs, and it is the side that may send first that begins; a lost START or INIT is sent again (`HydraRetry.ElevenTimes`).
- HydraRepeat.FileGoesExactlyIf: with time-outs a side that waits in vain sends one more block for each of ten of them; how long a file can be then is not stated.
- Hydra timers: timeouts, the braindead timer, chat and operator aborts are steps that may happen at any time while the timer runs; their lengths are not modelled.
- A packet prefix that a peer of another make asks for, with its codes for breaks and delays (HYDRACOM/HYDRA.C:520-528): prefixes are those that two of these programs come to.
- The choice of the file to resume (xfer_init, xfer_bad, xfer_del and the BAD-XFER log): a partial file on the receiver's disk is assumed to be a prefix of the sender's file.
- File positions beyond 32 bits: positions are unbounded integers, packet numbers and resync ids wrap; files are shorter than 2^31 bytes where packets are laid out in bytes.
- HydraPort.Port.EndPacket: a PKTEND while no packet is open in BIN or UUE format, or with the store pointer behind the end of the buffer, where the C code computes with a NULL pointer or reads beyond the buffer; the model ignores the byte.
- What the device functions do with a message, a change of the registered devices during a session, and the screen, chat and logging code of Hydra.
- HydraSession.Session.OnFInfo: which of the outcomes an offer has (file there, skipped, no disk space, not opened, not positioned, accepted) is decided by the surroundings.
- HydraPackets.InTransitIsDecoded: name, size and times in a FINFO body are any text that is not empty; scanf's leading blanks, signs and "0x", which no INIT packet of this program has in these places, are not modelled. DATA bodies shorter than their position field are read as empty.
- JModem before synchronisation, its screen, interrupt and UART code; flushing is modelled as dropping bytes that have come in, timeouts as steps.
- JModemLink.LockstepSafety: damage to a block is assumed to show in its checksum, and responses may be lost, delayed or joined by noise other than the ACK byte.
- JModemBlock.Decode: room for the expansion in the output buffer is required; the C code does not check and writes beyond it.
- JModemBlock.DecodeOne: the same for one turn of the loop.
- JModemBlock.Open: the same for the block as a whole.
- JModemBlock.Sum: the buffer must have the bytes that the loop reads, nearly 65536 for a length below three; the C code reads beyond its buffer then.
- JModemBlock.GetCrc: the same, with the checksum behind those bytes.
- JModemBlock.SetCrc: the same.
- The block length that a JModem receiver keeps between blocks, which nothing depends on.
- RleCode.Compress: no read errors; a write error is a disk that takes no more bytes.
- RleCode.ExtractFile: the same.
- UniqueName.MakeUnique: a path with no room for the padding, where the C code writes beyond the buffer, and one for which no counted name is free, where it loops forever.
- One-way mixing in nwcrypt.c (shuffle, nw_encrypt), which has no inverse to prove.
- qodem's codepage tables and menus, its terminal emulators, PLINK, MCOMM551, the network calls of mars_dosutils, and the small example programs.
