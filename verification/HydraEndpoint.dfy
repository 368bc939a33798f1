/** One endpoint of a Hydra session as a state machine on values: what each pass of the
    loop in hydra() sends, and what each packet, timeout or abort does. */
module HydraEndpoint {
  import opened Bits
  import opened HydraTypes
  import opened HydraFlags
  import opened HydraInit

  // ----- entering hydra() --------------------------------------------------

  /** The first call of hydra() in a session: with a file that opens, with a file that does
      not open, or without a file. */
  datatype FirstCall = SendFile(source: Bytes) | OpenFails | NoFile

  predicate GoodConfig(cfg: Config) {
    Wanted(cfg.options) && 256 <= cfg.maxblk <= MAX_BLOCK
  }

  /** State on entry to the loop of hydra() for the first call of a session. When the file
      cannot be opened the call returns at once and the caller goes on with hydra(NULL, NULL). */
  function StartSession(cfg: Config, first: FirstCall, msg: DevMsg): Endpoint {
    var tx := Tx(HTX_START, TXI_OPTIONS, first.SendFile?, first.SendFile?, 0, 0,
                 if cfg.maxblk < 1024 then 256 else 512, 1024, 0, 0, 0, 0, false, 0, "");
    var rx := Rx(RxInit, RXI_OPTIONS, 0, false, [], 0, if cfg.maxblk < 1024 then 256 else 512, 0, 0, false, 0, 0);
    var dev := Dev(DevDone, 0, 0, 0, false, msg, [], [], []);
    var e := Endpoint(cfg, if first.SendFile? then first.source else [], tx, rx, dev,
                      !cfg.originator && cfg.hdxsession, 0, [], []);
    if first.OpenFails? then NextCall(e, FileSkipped) else e
  }

  /** hydra() returns with res and the caller calls hydra(NULL, NULL): no file, and the
      transmitter goes straight to HTX_FINFO. */
  function NextCall(e: Endpoint, res: Result): Endpoint {
    e.(tx := e.tx.(state := HTX_FINFO, timer := false, retries := 0, open := false, named := false),
       results := e.results + [res])
  }

  /** The session ends: txstate becomes HTX_DONE, and on the way out of hydra() the files
      still open are closed. */
  function Finish(e: Endpoint, res: Result): Endpoint {
    e.(tx := e.tx.(state := HTX_DONE, open := false), rx := e.rx.(open := false), results := e.results + [res])
  }

  function Stay(e: Endpoint): Move {
    Move(e, [], false)
  }

  /** Send one packet under the current transmit options. */
  function Reply(e: Endpoint, p: Packet): Move {
    Move(e, [Frame(p, e.tx.options)], false)
  }

  // ----- the device channel ------------------------------------------------

  /** hydra_devfree() */
  predicate DevFree(e: Endpoint) {
    e.dev.state == DevDone && Device in e.tx.options && e.tx.state < HTX_END
  }

  function Upper(s: string): string {
    seq(|s|, i requires 0 <= i < |s| => if 'a' <= s[i] <= 'z' then s[i] - 32 as char else s[i])
  }

  /** Device names are three characters, in capitals. */
  function DeviceTag(name: string): string {
    Upper(if |name| > 3 then name[..3] else name)
  }

  /** hydra_devsend(): refuses an empty message or a busy channel, shortens a long one. */
  function DevQueue(e: Endpoint, m: DevMsg): Endpoint {
    if m.data == [] || !DevFree(e) then e
    else
      var msg := DevMsg(DeviceTag(m.device), if |m.data| > MAX_BLOCK then m.data[..MAX_BLOCK] else m.data);
      e.(dev := e.dev.(state := DevData, txid := Succ32(e.dev.txid), timer := false, retries := 0,
                       msg := msg, sent := e.dev.sent + [msg]))
  }

  /** The device part of a pass of the main loop. */
  function TransmitDev(e: Endpoint): Move {
    if e.dev.state == DevData && e.tx.state > HTX_RINIT then
      Move(e.(dev := e.dev.(timer := true, state := DevDAck)),
           [Frame(DevSend(e.dev.txid, e.dev.msg), e.tx.options)], false)
    else Stay(e)
  }

  // ----- the transmitter ---------------------------------------------------

  /** The part of the source file that a read of the current block length returns. */
  function Chunk(e: Endpoint): Bytes {
    if 0 <= e.tx.fp <= |e.source| && 0 <= e.tx.blklen then
      e.source[e.tx.fp..if e.tx.fp + e.tx.blklen <= |e.source| then e.tx.fp + e.tx.blklen else |e.source|]
    else []
  }

  /** Larger blocks after enough good bytes. */
  function Grow(tx: Tx, maxblk: int, i: int): Tx {
    if tx.blklen < maxblk then
      if tx.goodbytes + i >= tx.goodneeded then
        var twice := tx.blklen * 2;
        tx.(blklen := if twice >= maxblk then maxblk else twice,
            goodneeded := if twice >= maxblk then 0 else tx.goodneeded,
            goodbytes := 0)
      else tx.(goodbytes := tx.goodbytes + i)
    else tx
  }

  function SendEof(e: Endpoint): Move {
    Move(e.(tx := e.tx.(timer := true, state := HTX_EOFACK)), [Frame(Eof(e.tx.pos), e.tx.options)], false)
  }

  /** HTX_XDATA: send the next block, or fall through to the EOF packet at the end of the
      file, after a skip and after a read error. */
  function TransmitData(e: Endpoint, env: Env): Move {
    if env.outfull then Stay(e)
    else if e.tx.pos < 0 then SendEof(e)
    else if !env.readOk || !e.tx.open then SendEof(e.(tx := e.tx.(open := false, pos := -2)))
    else
      var block := Chunk(e);
      if block == [] then SendEof(e)
      else
        var sent := e.tx.(pos := e.tx.pos + |block|, fp := e.tx.fp + |block|);
        var grown := Grow(sent, e.cfg.maxblk, |block|);
        var tx := if grown.window != 0 && grown.pos >= grown.lastack + grown.window
                  then grown.(timer := true, state := HTX_DATAACK) else grown;
        Move(e.(tx := tx), [Frame(Data(e.tx.pos, block), e.tx.options)], false)
  }

  /** The transmitter part of a pass of the main loop. */
  function TransmitTx(e: Endpoint, env: Env): Move {
    var wait := e.tx.(timer := true);
    if e.tx.state == HTX_START then
      Move(e.(tx := wait.(state := HTX_SWAIT)), [Frame(Start, e.tx.options)], false)
    else if e.tx.state == HTX_INIT then
      var init := Init(Names(FLAGS, CAN_OPTIONS, |FLAGS|), Names(FLAGS, e.cfg.options, |FLAGS|),
                       e.cfg.txwindow, e.cfg.rxwindow);
      Move(e.(tx := wait.(state := HTX_INITACK, options := e.rx.options)), [Frame(init, TXI_OPTIONS)], false)
    else if e.tx.state == HTX_FINFO then
      Move(e.(tx := wait.(state := HTX_FINFOACK)), [Frame(FInfo(!e.tx.named), e.tx.options)], false)
    else if e.tx.state == HTX_XDATA then TransmitData(e, env)
    else if e.tx.state == HTX_EOF then SendEof(e)
    else if e.tx.state == HTX_END then
      Move(e.(tx := wait.(state := HTX_ENDACK)), [Frame(End, e.tx.options), Frame(End, e.tx.options)], false)
    else Stay(e)
  }

  /** One pass of the main loop up to the receive loop. */
  function Transmit(e: Endpoint, env: Env): Move {
    if e.tx.state == HTX_DONE then Stay(e)
    else
      var d := TransmitDev(e);
      var t := TransmitTx(d.e, env);
      Move(t.e, d.out + t.out, false)
  }

  // ----- timeouts ----------------------------------------------------------

  /** The state a transmitter timeout goes back to. */
  function Retry(state: int): int {
    if state == HTX_SWAIT then HTX_START
    else if state == HTX_INITACK then HTX_INIT
    else if state == HTX_FINFOACK then HTX_FINFO
    else if state == HTX_DATAACK then HTX_XDATA
    else if state == HTX_EOFACK then HTX_EOF
    else if state == HTX_ENDACK then HTX_END
    else state
  }

  function OnTxTimeout(e: Endpoint): Move {
    if e.tx.state == HTX_XWAIT || e.tx.state == HTX_REND then
      Reply(e.(tx := e.tx.(timer := true)), Idle)
    else if e.tx.retries + 1 > RETRIES then Stay(Finish(e, Aborted))
    else Stay(e.(tx := e.tx.(retries := e.tx.retries + 1, timer := false, state := Retry(e.tx.state))))
  }

  function OnDevTimeout(e: Endpoint): Move {
    if e.dev.retries + 1 > RETRIES then Stay(Finish(e, Aborted))
    else Stay(e.(dev := e.dev.(retries := e.dev.retries + 1, timer := false, state := DevData)))
  }

  // ----- session packets ---------------------------------------------------

  function OnStart(e: Endpoint): Move {
    if e.tx.state == HTX_START || e.tx.state == HTX_SWAIT then
      Stay(e.(tx := e.tx.(timer := false, retries := 0, state := HTX_INIT)))
    else Stay(e)
  }

  /** The window this side uses: its own limit, unless the peer's is smaller. */
  function Window(theirs: int, mine: int): int {
    var w := if theirs < 0 then 0 else theirs;
    if mine != 0 && (w == 0 || mine < w) then mine else w
  }

  /** What is read from the receive buffer when it holds the INIT packet. */
  function Said(p: Packet): Fields
    requires p.Init?
  {
    ReadInit(InitBody(p.can, p.want, p.txwindow, p.rxwindow))
  }

  function OnInit(e: Endpoint, p: Packet): Move
    requires p.Init?
  {
    if e.rx.state != RxInit then Reply(e, InitAck)
    else
      var f := Said(p);
      var options := Negotiated(e.cfg.options, f.can, f.want);
      var rx := e.rx.(options := options);
      if Incompatible(e.cfg.options, options) then Stay(Finish(e.(rx := rx), Aborted))
      else
        Reply(e.(rx := rx.(window := Window(f.txwindow, e.cfg.rxwindow), state := RxFInfo),
                 tx := e.tx.(window := Window(f.rxwindow, e.cfg.txwindow), options := options, prefix := f.prefix)),
              InitAck)
  }

  function OnInitAck(e: Endpoint): Move {
    if e.tx.state == HTX_INIT || e.tx.state == HTX_INITACK then
      Stay(e.(tx := e.tx.(timer := false, retries := 0, state := HTX_RINIT)))
    else Stay(e)
  }

  function OnIdle(e: Endpoint): Move {
    if e.tx.state == HTX_XWAIT then
      Stay(e.(hdxlink := false, tx := e.tx.(timer := false, retries := 0, state := HTX_XDATA)))
    else Stay(e)
  }

  function OnEnd(e: Endpoint, env: Env): Move {
    if env.chatting && e.tx.state == HTX_REND then Stay(e)
    else if e.tx.state == HTX_END || e.tx.state == HTX_ENDACK then
      var f := Frame(End, e.tx.options);
      Move(Finish(e, SessionDone), [f, f, f], false)
    else Stay(e)
  }

  // ----- receiving a file --------------------------------------------------

  /** FINFO: the end of the batch, or a file that is accepted at the length it already has. */
  function OnFInfo(e: Endpoint, endOfBatch: bool, env: Env): Move {
    var rx :=
      if e.rx.state == RxFInfo then
        if endOfBatch then e.rx.(pos := 0, state := RxDone)
        else match env.accept
          case AlreadyHave => e.rx.(pos := -1)
          case SingleDone => e.rx.(pos := -2)
          case NoSpace => e.rx.(pos := -2)
          case CannotOpen => e.rx.(pos := -2)
          case SeekFails => e.rx.(pos := -2, open := false)
          case Open(existing) =>
            e.rx.(open := true, file := existing, lost := 0, pos := |existing|, timer := false, retries := 0,
                  lastsync := 0, syncid := 0, state := RxData)
      else if e.rx.state == RxDone then e.rx.(pos := if endOfBatch then 0 else -2)
      else e.rx;
    var batches := if e.rx.state == RxFInfo && endOfBatch then e.batches + 1 else e.batches;
    Reply(e.(rx := rx, batches := batches), FInfoAck(rx.pos))
  }

  /** The block length asked for in an RPOS packet. */
  function AskedBlock(rxblklen: int): int {
    if rxblklen <= 64 then 64
    else if rxblklen <= 128 then 128
    else if rxblklen <= 256 then 256
    else if rxblklen <= 512 then 512
    else 1024
  }

  /** Bookkeeping for a packet at the wrong position. */
  function NoteBadPos(rx: Rx, pos: int): Rx {
    if pos <= rx.lastsync then rx.(timer := false, retries := 0, lastsync := pos) else rx.(lastsync := pos)
  }

  /** Ask the transmitter to go back to where this side is, or give up. */
  function Resync(e: Endpoint): Move {
    if e.rx.retries + 1 > RETRIES then Stay(Finish(e, Aborted))
    else
      var rx := e.rx.(retries := e.rx.retries + 1,
                      syncid := if e.rx.retries == 0 then Succ32(e.rx.syncid) else e.rx.syncid,
                      blklen := e.rx.blklen / 2, timer := true);
      Reply(e.(rx := rx), RPos(rx.pos, AskedBlock(rx.blklen), rx.syncid))
  }

  function OnBadData(e: Endpoint, pos: int, env: Env): Move {
    var noted := e.(rx := NoteBadPos(e.rx, pos));
    if noted.rx.timer && !env.rxExpired then Stay(noted)
    else if noted.rx.retries > 4 && e.tx.state < HTX_REND && !e.cfg.originator && !e.hdxlink then
      Resync(noted.(hdxlink := true, rx := noted.rx.(retries := 0)))
    else Resync(noted)
  }

  function OnData(e: Endpoint, pos: int, bytes: Bytes, env: Env): Move {
    if e.rx.state != RxData then Stay(e)
    else if pos != e.rx.pos || pos < 0 then OnBadData(e, pos, env)
    else if env.write.WriteError? then
      var rx := e.rx.(blklen := |bytes|, open := false, pos := -2, retries := 1,
                      syncid := Succ32(e.rx.syncid), timer := true);
      Reply(e.(rx := rx), RPos(-2, 0, rx.syncid))
    else
      var stored := Stored(env.write, bytes);
      var rx := e.rx.(blklen := |bytes|, file := e.rx.file + stored, lost := e.rx.lost + |bytes| - |stored|,
                      retries := 0, timer := false, lastsync := e.rx.pos, pos := e.rx.pos + |bytes|);
      if rx.window != 0 then Reply(e.(rx := rx), DataAck(rx.pos)) else Stay(e.(rx := rx))
  }

  /** EOF in HRX_DATA: a skip, a wrong position, or the end of a complete file. */
  function OnEofInData(e: Endpoint, pos: int, env: Env): Move {
    if pos < 0 then Stay(e.(rx := e.rx.(open := false, state := RxFInfo)))
    else if pos != e.rx.pos then
      var noted := e.(rx := NoteBadPos(e.rx, pos));
      if noted.rx.timer && !env.rxExpired then Stay(noted) else Resync(noted)
    else
      Stay(e.(rx := e.rx.(open := false, state := RxFInfo), closed := e.closed + [e.rx.file]))
  }

  function OnEof(e: Endpoint, pos: int, env: Env): Move {
    var m := if e.rx.state == RxData then OnEofInData(e, pos, env) else Stay(e);
    if m.e.rx.state == RxFInfo then Move(m.e, m.out + [Frame(EofAck, m.e.tx.options)], false) else m
  }

  // ----- sending a file ----------------------------------------------------

  function OnFInfoAck(e: Endpoint, pos: int, env: Env): Move {
    if e.tx.state != HTX_FINFO && e.tx.state != HTX_FINFOACK then Stay(e)
    else if !e.tx.named then Stay(e.(tx := e.tx.(retries := 0, timer := true, state := HTX_REND)))
    else if pos >= 0 then
      var tx := e.tx.(retries := 0, timer := false, pos := pos, lastack := pos);
      if pos > 0 && !(env.seekOk && tx.open) then
        Stay(e.(tx := tx.(open := false, pos := -2, state := HTX_EOF)))
      else
        Stay(e.(tx := tx.(fp := if pos > 0 then pos else tx.fp, state := HTX_XDATA)))
    else
      Move(NextCall(e.(tx := e.tx.(pos := pos)), if pos == -1 then FileThere else FileSkipped), [], true)
  }

  /** The states in which RPOS and DATAACK packets are looked at. */
  predicate Sending(state: int) {
    state == HTX_XDATA || state == HTX_DATAACK || state == HTX_XWAIT || state == HTX_EOF || state == HTX_EOFACK
  }

  function OnDataAck(e: Endpoint, pos: int): Move {
    if Sending(e.tx.state) && e.tx.window != 0 && pos > e.tx.lastack then
      var tx := e.tx.(lastack := pos);
      if tx.state == HTX_DATAACK && tx.pos < tx.lastack + tx.window then
        Stay(e.(tx := tx.(state := HTX_XDATA, retries := 0, timer := false)))
      else Stay(e.(tx := tx))
    else Stay(e)
  }

  /** The new block length after a reposition; the packet's long is cut to a word. */
  function Shrunk(blklen: int, asked: int): int {
    var b := if blklen > asked then asked % 0x1_0000 else blklen / 2;
    AskedBlock(b)
  }

  function OnRPos(e: Endpoint, pos: int, blklen: int, syncid: int, env: Env): Move {
    if !Sending(e.tx.state) then Stay(e)
    else if syncid == e.tx.syncid then
      if e.tx.retries + 1 > RETRIES then Stay(Finish(e, Aborted))
      else Stay(e.(tx := e.tx.(retries := e.tx.retries + 1)))
    else
      var tx := e.tx.(syncid := syncid, retries := 1, timer := false, pos := pos);
      if pos < 0 then
        Stay(e.(tx := if tx.open then tx.(open := false, state := HTX_EOF, pos := -2) else tx.(pos := -2)))
      else
        var shrunk := tx.(blklen := Shrunk(tx.blklen, blklen), goodbytes := 0,
                          goodneeded := if tx.goodneeded + 1024 > 8192 then 8192 else tx.goodneeded + 1024);
        if !env.seekOk || !tx.open then
          Stay(e.(tx := shrunk.(open := false, pos := -2, state := HTX_EOF)))
        else
          Stay(e.(tx := shrunk.(fp := pos, state := if tx.state == HTX_XWAIT then HTX_XWAIT else HTX_XDATA)))
  }

  function OnEofAck(e: Endpoint): Move {
    if e.tx.state == HTX_EOF || e.tx.state == HTX_EOFACK then
      Move(NextCall(e, if e.tx.open then FileSent else FileSkipped), [], true)
    else Stay(e)
  }

  // ----- device packets ----------------------------------------------------

  /** A function is registered for the device of this tag; three characters are compared. */
  predicate Registered(devices: set<string>, tag: string) {
    |tag| >= 3 && tag[..3] in DEVICES && tag[..3] in devices
  }

  /** What of a message reaches a device function. */
  function HandedOut(devices: set<string>, msg: DevMsg): seq<DevMsg> {
    if Registered(devices, msg.device) then [msg] else []
  }

  function OnDevSend(e: Endpoint, id: int, msg: DevMsg): Move {
    var dev := if e.dev.rxid == id then e.dev
               else e.dev.(taken := e.dev.taken + [msg], handed := e.dev.handed + HandedOut(e.cfg.devices, msg),
                           rxid := id);
    Reply(e.(dev := dev), DevAck(dev.rxid))
  }

  function OnDevAck(e: Endpoint, id: int): Move {
    if e.dev.state != DevDone && e.dev.txid == id then
      Stay(e.(dev := e.dev.(timer := false, state := DevDone)))
    else Stay(e)
  }

  // ----- the receive loop --------------------------------------------------

  function OnPacket(e: Endpoint, p: Packet, env: Env): Move {
    match p
    case Start => OnStart(e)
    case Init(_, _, _, _) => OnInit(e, p)
    case InitAck => OnInitAck(e)
    case FInfo(endOfBatch) => OnFInfo(e, endOfBatch, env)
    case FInfoAck(pos) => OnFInfoAck(e, pos, env)
    case Data(pos, bytes) => OnData(e, pos, bytes, env)
    case DataAck(pos) => OnDataAck(e, pos)
    case RPos(pos, blklen, syncid) => OnRPos(e, pos, blklen, syncid, env)
    case Eof(pos) => OnEof(e, pos, env)
    case EofAck => OnEofAck(e)
    case End => OnEnd(e, env)
    case Idle => OnIdle(e)
    case DevSend(id, msg) => OnDevSend(e, id, msg)
    case DevAck(id) => OnDevAck(e, id)
  }

  function OnEvent(e: Endpoint, ev: Event, env: Env): Move {
    match ev
    case Received(p) => OnPacket(e, p, env)
    case TxTimeout => OnTxTimeout(e)
    case DevTimeout => OnDevTimeout(e)
    case Fatal => Stay(Finish(e, Aborted))
  }

  /** "Fallback to one-way xfer" */
  const HDX_MESSAGE := DevMsg("MSG",
    [70, 97, 108, 108, 98, 97, 99, 107, 32, 116, 111, 32, 111, 110, 101, 45, 119, 97, 121, 32, 120, 102, 101, 114])

  /** The second switch of the receive loop, on the transmitter state after the event. */
  function AfterEvent(e: Endpoint, env: Env): Endpoint {
    var calm := e.tx.(timer := false, retries := 0);
    if (e.tx.state == HTX_START || e.tx.state == HTX_SWAIT) && e.rx.state == RxFInfo then
      e.(tx := calm.(state := HTX_INIT))
    else if e.tx.state == HTX_RINIT && e.rx.state == RxFInfo then
      e.(tx := calm.(state := HTX_FINFO))
    else if e.tx.state == HTX_XDATA && e.rx.state != RxDone && e.hdxlink then
      var q := DevQueue(e, HDX_MESSAGE);
      q.(tx := q.tx.(timer := true, state := HTX_XWAIT))
    else if e.tx.state == HTX_XWAIT && e.rx.state == RxDone then
      e.(tx := calm.(state := HTX_XDATA))
    else if e.tx.state == HTX_REND && e.rx.state == RxDone && e.dev.state == DevDone && !env.chatting then
      e.(tx := calm.(state := HTX_END))
    else e
  }

  /** One turn of the receive loop. */
  function Receive(e: Endpoint, ev: Event, env: Env): Move {
    if e.tx.state == HTX_DONE then Stay(e)
    else
      var m := OnEvent(e, ev, env);
      if m.returned then m else m.(e := AfterEvent(m.e, env))
  }
}
