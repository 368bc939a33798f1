/** The vocabulary of the Hydra session: option words, state numbers, packets and
    the static variables of one endpoint, grouped by the part of the protocol that
    owns them. */
module HydraTypes {
  import opened Bits

  // ----- option words ------------------------------------------------------

  /** One bit of an option word, in the order of the bits. */
  datatype Flag =
    | XonXoff | Telenet | CtlChrs | HighCtl | HighBit | CanBrk | CanAsc | CanUue | Crc32 | Device | Fpt

  /** An option word is the set of its bits. */
  type Options = set<Flag>

  /** What this implementation can do. */
  const CAN_OPTIONS: Options := {XonXoff, Telenet, CtlChrs, HighCtl, HighBit, CanAsc, CanUue, Crc32, Device}
  /** Options that must be honoured once asked for. */
  const NEC_OPTIONS: Options := {XonXoff, Telenet, CtlChrs, HighCtl, HighBit, CanBrk}
  /** Options that are nice to have. */
  const UNN_OPTIONS: Options := {CanAsc, CanUue, Crc32, Device}
  /** The receiver's options until the peer's INIT packet arrives. */
  const RXI_OPTIONS: Options := {XonXoff, Telenet, CtlChrs, HighCtl, HighBit}
  /** The transmitter's options at the start, and while an INIT packet is encoded. */
  const TXI_OPTIONS: Options := {}

  function Bit(o: Options, flag: Flag, weight: nat): nat {
    if flag in o then weight else 0
  }

  /** The option word as a number. */
  function Word(o: Options): nat {
    Bit(o, XonXoff, 0x1) + Bit(o, Telenet, 0x2) + Bit(o, CtlChrs, 0x4) + Bit(o, HighCtl, 0x8) +
    Bit(o, HighBit, 0x10) + Bit(o, CanBrk, 0x20) + Bit(o, CanAsc, 0x40) + Bit(o, CanUue, 0x80) +
    Bit(o, Crc32, 0x100) + Bit(o, Device, 0x200) + Bit(o, Fpt, 0x400)
  }

  // ----- transmitter, receiver and device states ---------------------------

  const HTX_DONE := 0
  const HTX_START := 1
  const HTX_SWAIT := 2
  const HTX_INIT := 3
  const HTX_INITACK := 4
  const HTX_RINIT := 5
  const HTX_FINFO := 6
  const HTX_FINFOACK := 7
  const HTX_XDATA := 8
  const HTX_DATAACK := 9
  const HTX_XWAIT := 10
  const HTX_EOF := 11
  const HTX_EOFACK := 12
  const HTX_REND := 13
  const HTX_END := 14
  const HTX_ENDACK := 15

  datatype RxState = RxDone | RxInit | RxFInfo | RxData
  datatype DevState = DevDone | DevData | DevDAck

  const RETRIES := 10
  const MAX_BLOCK := 2048

  // ----- packets -----------------------------------------------------------

  datatype DevMsg = DevMsg(device: string, data: Bytes)

  /** Packets by type. FInfo records whether the name field is empty (end of batch). */
  datatype Packet =
    | Start
    | Init(can: string, want: string, txwindow: int, rxwindow: int)
    | InitAck
    | FInfo(endOfBatch: bool)
    | FInfoAck(pos: int)
    | Data(pos: int, bytes: Bytes)
    | DataAck(pos: int)
    | RPos(pos: int, blklen: int, syncid: int)
    | Eof(pos: int)
    | EofAck
    | End
    | Idle
    | DevSend(id: int, msg: DevMsg)
    | DevAck(id: int)
  {
    /** Packet types that txpkt always sends as HEX packets. */
    predicate AlwaysHex() {
      Start? || Init? || InitAck? || End? || Idle?
    }
  }

  /** A packet on the line, with the option word that chose its encoding. */
  datatype Frame = Frame(p: Packet, opts: Options) {
    /** The format switch of txpkt: HEX for control packets, and for everything else on
        a 7-bit link where neither UUE nor ASC packets may be used. */
    predicate IsHex() {
      p.AlwaysHex() ||
      (HighBit in opts && !(CtlChrs in opts && CanUue in opts) && CanAsc !in opts)
    }
  }

  // ----- one endpoint ------------------------------------------------------

  /** What the operator configured; constant during a session. */
  datatype Config = Config(
    originator: bool,
    hdxsession: bool,     // one-way transfers asked for
    options: Options,
    txwindow: int,
    rxwindow: int,
    maxblk: int,
    devices: set<string>) // devices that a function is registered for

  /** The sending side: state, the open source file and its read position, block sizing, window. */
  datatype Tx = Tx(
    state: int,
    options: Options,
    named: bool,      // txfname is not empty
    open: bool,       // txfd >= 0
    fp: int,          // read position of txfd
    pos: int,
    blklen: int,
    goodneeded: int,
    goodbytes: int,
    lastack: int,
    window: int,
    retries: int,
    timer: bool,      // txtimer is running
    syncid: int,
    prefix: string)   // what is sent before every packet

  /** The receiving side: state, the file being written, resync bookkeeping, window. */
  datatype Rx = Rx(
    state: RxState,
    options: Options,
    pos: int,
    open: bool,       // rxfd >= 0
    file: Bytes,      // contents of the file being received
    lost: nat,        // bytes that were not written although the disk was not said to be full
    blklen: int,
    lastsync: int,
    retries: int,
    timer: bool,
    syncid: int,
    window: int)

  /** The names of the device table. */
  const DEVICES: set<string> := {"MSG", "CON", "PRN", "ERR"}

  /** The device channel, with the messages handed in by the user, taken from the line, and handed
      to a device function so far. */
  datatype Dev = Dev(
    state: DevState,
    txid: int,
    rxid: int,
    retries: int,
    timer: bool,
    msg: DevMsg,
    sent: seq<DevMsg>,
    taken: seq<DevMsg>,
    handed: seq<DevMsg>)

  /** How calls of hydra() came back. FileSent is XFER_OK on EOFACK, FileThere is XFER_OK
      because the peer has the file, SessionDone is XFER_OK after the END handshake. */
  datatype Result = FileSent | FileThere | FileSkipped | SessionDone | Aborted

  datatype Endpoint = Endpoint(
    cfg: Config,
    source: Bytes,        // contents of the file being sent
    tx: Tx,
    rx: Rx,
    dev: Dev,
    hdxlink: bool,
    batches: nat,
    closed: seq<Bytes>,   // files received, closed and passed to xfer_okay
    results: seq<Result>)

  /** What dos_write() returns: the count of the bytes that went to the disk, which is less than
      asked for on a full disk, or an error. */
  datatype Write = Wrote(count: nat) | WriteError

  /** How much of the data is in the file after the call. */
  function Stored(write: Write, data: Bytes): Bytes {
    if write.WriteError? then [] else if write.count < |data| then data[..write.count] else data
  }

  /** What the surroundings decide during one step. */
  datatype Env = Env(
    outfull: bool,        // the output buffer is too full for another data packet
    readOk: bool,
    seekOk: bool,
    write: Write,
    rxExpired: bool,      // a running rxtimer has expired
    chatting: bool,       // chattimer > 0
    accept: Accept)

  /** The receiver's decision on an offered file. */
  datatype Accept =
    | AlreadyHave
    | SingleDone
    | NoSpace
    | CannotOpen
    | SeekFails             // after the file has been opened
    | Open(existing: Bytes)

  /** What rxpkt() returns. */
  datatype Event =
    | Received(p: Packet)
    | TxTimeout
    | DevTimeout
    | Fatal               // carrier lost, cancelled, operator abort, braindead

  /** Result of handling an event: the endpoint, the packets sent, and whether hydra()
      returned to its caller (which then calls hydra(NULL, NULL)). */
  datatype Move = Move(e: Endpoint, out: seq<Frame>, returned: bool)

  /** Increment of a 32-bit signed long. */
  function Succ32(x: int): int {
    if x == 0x7fff_ffff then -0x8000_0000 else x + 1
  }
}
