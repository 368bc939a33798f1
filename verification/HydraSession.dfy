/** hydra() as it is written: static variables updated in one loop. Every piece of the loop is
    proved to take the step that HydraEndpoint describes. */
module HydraSession {
  import opened Bits
  import opened HydraTypes
  import opened HydraFlags
  import opened HydraInit
  import E = HydraEndpoint

  class Session {
    const cfg: Config
    const source: Bytes

    /** The variables of the transmitter (txstate, txpos, ...), the receiver and the device
        channel. */
    var tx: Tx
    var rx: Rx
    var dev: Dev
    var hdxlink: bool
    var batchesdone: nat
    var closed: seq<Bytes>
    var results: seq<Result>

    /** The packets put on the line, oldest first. */
    var line: seq<Frame>

    ghost function Snapshot(): Endpoint
      reads this
    {
      Endpoint(cfg, source, tx, rx, dev, hdxlink, batchesdone, closed, results)
    }

    /** The step from endpoint e with the given line was m. */
    ghost predicate Took(m: Move, before: seq<Frame>)
      reads this
    {
      Snapshot() == m.e && line == before + m.out
    }

    // ----- entering hydra() ------------------------------------------------

    /** hydra_init() and the first call of hydra(). */
    constructor (cfg: Config, first: E.FirstCall, msg: DevMsg)
      ensures Snapshot() == E.StartSession(cfg, first, msg) && line == []
    {
      this.cfg := cfg;
      source := if first.SendFile? then first.source else [];
      var small := if cfg.maxblk < 1024 then 256 else 512;
      hdxlink, batchesdone, closed, line := false, 0, [], [];
      if !cfg.originator {
        if cfg.hdxsession {
          hdxlink := true;
        }
      }
      rx := Rx(RxInit, RXI_OPTIONS, 0, false, [], 0, small, 0, 0, false, 0, 0);
      dev := Dev(DevDone, 0, 0, 0, false, msg, [], [], []);
      if first.OpenFails? {
        tx := Tx(HTX_FINFO, TXI_OPTIONS, false, false, 0, 0, small, 1024, 0, 0, 0, 0, false, 0, "");
        results := [FileSkipped];
      } else {
        tx := Tx(HTX_START, TXI_OPTIONS, first.SendFile?, first.SendFile?, 0, 0, small, 1024, 0, 0, 0, 0, false, 0, "");
        results := [];
      }
    }

    /** hydra() returns to its caller, which calls hydra(NULL, NULL). */
    method NextCall(res: Result)
      modifies this
      ensures Snapshot() == E.NextCall(old(Snapshot()), res) && line == old(line)
    {
      results := results + [res];
      tx := tx.(state := HTX_FINFO, timer := false, retries := 0, open := false, named := false);
    }

    /** The session is over; hydra() closes what is open. */
    method Finish(res: Result)
      modifies this
      ensures Snapshot() == E.Finish(old(Snapshot()), res) && line == old(line)
    {
      tx := tx.(state := HTX_DONE, open := false);
      rx := rx.(open := false);
      results := results + [res];
    }

    method TxPkt(p: Packet)
      modifies `line
      ensures line == old(line) + [Frame(p, tx.options)]
    {
      line := line + [Frame(p, tx.options)];
    }

    // ----- the device channel ----------------------------------------------

    /** hydra_devsend() */
    method DevSend(m: DevMsg) returns (ok: bool)
      modifies this
      ensures ok == (m.data != [] && E.DevFree(old(Snapshot())))
      ensures Snapshot() == E.DevQueue(old(Snapshot()), m) && line == old(line)
    {
      if m.data == [] || dev.state != DevDone || !(Device in tx.options) || tx.state >= HTX_END {
        return false;
      }
      var data := if |m.data| > MAX_BLOCK then m.data[..MAX_BLOCK] else m.data;
      dev := dev.(msg := DevMsg(E.DeviceTag(m.device), data), txid := Succ32(dev.txid), timer := false, retries := 0,
                  state := DevData);
      dev := dev.(sent := dev.sent + [dev.msg]);
      ok := true;
    }

    method TransmitDev()
      modifies this
      ensures Took(E.TransmitDev(old(Snapshot())), old(line))
    {
      if dev.state == DevData && tx.state > HTX_RINIT {
        TxPkt(HydraTypes.DevSend(dev.txid, dev.msg));
        dev := dev.(timer := true, state := DevDAck);
      }
    }

    // ----- the transmitter -------------------------------------------------

    /** dos_read(): the bytes at the file pointer, which moves past them. */
    method ReadBlock() returns (block: Bytes)
      modifies `tx
      ensures block == E.Chunk(old(Snapshot())) && tx == old(tx).(fp := old(tx.fp) + |block|)
    {
      block := [];
      if 0 <= tx.fp <= |source| && 0 <= tx.blklen {
        var end := if tx.fp + tx.blklen <= |source| then tx.fp + tx.blklen else |source|;
        block := source[tx.fp..end];
        tx := tx.(fp := end);
      }
    }

    method SendEof()
      modifies this
      ensures Took(E.SendEof(old(Snapshot())), old(line))
    {
      TxPkt(Eof(tx.pos));
      tx := tx.(timer := true, state := HTX_EOFACK);
    }

    /** The larger block length after a good block of i bytes. */
    method GrowBlock(i: int)
      modifies `tx
      ensures tx == E.Grow(old(tx), cfg.maxblk, i)
    {
      if tx.blklen < cfg.maxblk {
        tx := tx.(goodbytes := tx.goodbytes + i);
        if tx.goodbytes >= tx.goodneeded {
          tx := tx.(blklen := tx.blklen * 2);
          if tx.blklen >= cfg.maxblk {
            tx := tx.(blklen := cfg.maxblk, goodneeded := 0);
          }
          tx := tx.(goodbytes := 0);
        }
      }
    }

    /** HTX_XDATA */
    method SendData(env: Env)
      modifies this
      ensures Took(E.TransmitData(old(Snapshot()), env), old(line))
    {
      hide E.Grow, E.Chunk;
      if env.outfull {
        return;
      }
      var block: Bytes := [];
      if tx.pos >= 0 {
        if !env.readOk || !tx.open {
          tx := tx.(open := false, pos := -2);
        } else {
          block := ReadBlock();
        }
      }
      if block != [] {
        tx := tx.(pos := tx.pos + |block|);
        TxPkt(Data(tx.pos - |block|, block));
        GrowBlock(|block|);
        if tx.window != 0 && tx.pos >= tx.lastack + tx.window {
          tx := tx.(timer := true, state := HTX_DATAACK);
        }
        return;
      }
      SendEof();
    }

    /** The transmitter switch at the top of the loop. */
    method TransmitTx(env: Env)
      modifies this
      ensures Took(E.TransmitTx(old(Snapshot()), env), old(line))
    {
      hide E.TransmitData, Names;
      if tx.state == HTX_START {
        TxPkt(Start);
        tx := tx.(timer := true, state := HTX_SWAIT);
      } else if tx.state == HTX_INIT {
        var can := PutFlags(FLAGS, CAN_OPTIONS);
        var want := PutFlags(FLAGS, cfg.options);
        tx := tx.(options := TXI_OPTIONS);
        TxPkt(Init(can, want, cfg.txwindow, cfg.rxwindow));
        tx := tx.(options := rx.options, timer := true, state := HTX_INITACK);
      } else if tx.state == HTX_FINFO {
        TxPkt(FInfo(!tx.named));
        tx := tx.(timer := true, state := HTX_FINFOACK);
      } else if tx.state == HTX_XDATA {
        SendData(env);
      } else if tx.state == HTX_EOF {
        SendEof();
      } else if tx.state == HTX_END {
        TxPkt(End);
        TxPkt(End);
        tx := tx.(timer := true, state := HTX_ENDACK);
      }
    }

    /** One pass of the outer loop up to the receive loop. */
    method Transmit(env: Env)
      modifies this
      ensures Took(E.Transmit(old(Snapshot()), env), old(line))
    {
      hide E.TransmitDev, E.TransmitTx;
      if tx.state == HTX_DONE {
        return;
      }
      TransmitDev();
      TransmitTx(env);
    }

    // ----- timeouts --------------------------------------------------------

    method OnTxTimeout()
      modifies this
      ensures Took(E.OnTxTimeout(old(Snapshot())), old(line))
    {
      if tx.state == HTX_XWAIT || tx.state == HTX_REND {
        TxPkt(Idle);
        tx := tx.(timer := true);
      } else if tx.retries + 1 > RETRIES {
        Finish(Aborted);
      } else {
        tx := tx.(retries := tx.retries + 1, timer := false);
        match tx.state {
          case 2 => tx := tx.(state := HTX_START);
          case 4 => tx := tx.(state := HTX_INIT);
          case 7 => tx := tx.(state := HTX_FINFO);
          case 9 => tx := tx.(state := HTX_XDATA);
          case 12 => tx := tx.(state := HTX_EOF);
          case 15 => tx := tx.(state := HTX_END);
          case _ =>
        }
      }
    }

    method OnDevTimeout()
      modifies this
      ensures Took(E.OnDevTimeout(old(Snapshot())), old(line))
    {
      if dev.retries + 1 > RETRIES {
        Finish(Aborted);
      } else {
        dev := dev.(retries := dev.retries + 1, timer := false, state := DevData);
      }
    }

    // ----- session packets -------------------------------------------------

    method OnStart()
      modifies this
      ensures Took(E.OnStart(old(Snapshot())), old(line))
    {
      if tx.state == HTX_START || tx.state == HTX_SWAIT {
        tx := tx.(timer := false, retries := 0, state := HTX_INIT);
      }
    }

    /** The windows of the session from what the peer announced. */
    method SetWindows(theirTx: int, theirRx: int)
      modifies `tx, `rx
      ensures rx == old(rx).(window := E.Window(theirTx, cfg.rxwindow))
      ensures tx == old(tx).(window := E.Window(theirRx, cfg.txwindow))
    {
      rx := rx.(window := theirTx);
      tx := tx.(window := theirRx);
      if rx.window < 0 {
        rx := rx.(window := 0);
      }
      if cfg.rxwindow != 0 && (rx.window == 0 || cfg.rxwindow < rx.window) {
        rx := rx.(window := cfg.rxwindow);
      }
      if tx.window < 0 {
        tx := tx.(window := 0);
      }
      if cfg.txwindow != 0 && (tx.window == 0 || cfg.txwindow < tx.window) {
        tx := tx.(window := cfg.txwindow);
      }
    }

    /** INIT: the strings, the windows and the prefix are read from the receive buffer. */
    method OnInit(rxbuf: array<Byte>, ghost p: Packet)
      requires p.Init? && rxbuf[..] == InitBody(p.can, p.want, p.txwindow, p.rxwindow)
      modifies this, rxbuf
      ensures Took(E.OnInit(old(Snapshot()), p), old(line))
    {
      hide FlagsOf, Incompatible, E.Window, ReadInit, InitBody, FiveStrings, AfterFlags, WantAt;
      if rx.state == RxInit {
        BodyHasFive(p.can, p.want, p.txwindow, p.rxwindow);
        ghost var body := rxbuf[..];
        rx := rx.(options := cfg.options + UNN_OPTIONS);
        var wanted, possible, q := ReadFlags(rxbuf, p.can, p.want);
        rx := rx.(options := rx.options + wanted);
        rx := rx.(options := rx.options * possible);
        rx := rx.(options := rx.options * CAN_OPTIONS);
        assert rx.options == Negotiated(cfg.options, E.Said(p).can, E.Said(p).want);
        if Incompatible(cfg.options, rx.options) {
          Finish(Aborted);
          return;
        }
        var first, second, prefix := ReadWindows(rxbuf, q, body, p.can, p.want);
        SetWindows(first, second);
        tx := tx.(prefix := prefix, options := rx.options);
        rx := rx.(state := RxFInfo);
      }
      TxPkt(InitAck);
    }

    /** The receive buffer when rxpkt() has returned an INIT packet. */
    method Received(p: Packet) returns (rxbuf: array<Byte>)
      requires p.Init?
      ensures fresh(rxbuf) && rxbuf[..] == InitBody(p.can, p.want, p.txwindow, p.rxwindow)
    {
      var body := InitBody(p.can, p.want, p.txwindow, p.rxwindow);
      rxbuf := new Byte[|body|](i requires 0 <= i < |body| => body[i]);
    }

    method OnInitAck()
      modifies this
      ensures Took(E.OnInitAck(old(Snapshot())), old(line))
    {
      if tx.state == HTX_INIT || tx.state == HTX_INITACK {
        tx := tx.(timer := false, retries := 0, state := HTX_RINIT);
      }
    }

    method OnIdle()
      modifies this
      ensures Took(E.OnIdle(old(Snapshot())), old(line))
    {
      if tx.state == HTX_XWAIT {
        hdxlink := false;
        tx := tx.(timer := false, retries := 0, state := HTX_XDATA);
      }
    }

    method OnEnd(env: Env)
      modifies this
      ensures Took(E.OnEnd(old(Snapshot()), env), old(line))
    {
      if env.chatting && tx.state == HTX_REND {
        return;
      }
      if tx.state == HTX_END || tx.state == HTX_ENDACK {
        TxPkt(End);
        TxPkt(End);
        TxPkt(End);
        Finish(SessionDone);
      }
    }

    // ----- receiving a file ------------------------------------------------

    method OnFInfo(endOfBatch: bool, env: Env)
      modifies this
      ensures Took(E.OnFInfo(old(Snapshot()), endOfBatch, env), old(line))
    {
      if rx.state == RxFInfo {
        if endOfBatch {
          rx := rx.(pos := 0, state := RxDone);
          batchesdone := batchesdone + 1;
        } else {
          match env.accept
          case AlreadyHave => rx := rx.(pos := -1);
          case SingleDone => rx := rx.(pos := -2);
          case NoSpace => rx := rx.(pos := -2);
          case CannotOpen => rx := rx.(pos := -2);
          case SeekFails =>
            rx := rx.(open := true);
            rx := rx.(open := false);
            rx := rx.(pos := -2);
          case Open(existing) =>
            rx := rx.(open := true, file := existing, lost := 0, pos := |existing|, timer := false, retries := 0,
                        lastsync := 0, syncid := 0, state := RxData);
        }
      } else if rx.state == RxDone {
        rx := rx.(pos := if endOfBatch then 0 else -2);
      }
      TxPkt(FInfoAck(rx.pos));
    }

    method NoteBadPos(pos: int)
      modifies `rx
      ensures rx == E.NoteBadPos(old(rx), pos)
    {
      if pos <= rx.lastsync {
        rx := rx.(timer := false, retries := 0);
      }
      rx := rx.(lastsync := pos);
    }

    /** Count a retry and ask for a reposition, or give up. */
    method Resync()
      modifies this
      ensures Took(E.Resync(old(Snapshot())), old(line))
    {
      hide E.AskedBlock;
      if rx.retries + 1 > RETRIES {
        Finish(Aborted);
        return;
      }
      rx := rx.(retries := rx.retries + 1);
      if rx.retries == 1 {
        rx := rx.(syncid := Succ32(rx.syncid));
      }
      rx := rx.(blklen := rx.blklen / 2);
      TxPkt(RPos(rx.pos, E.AskedBlock(rx.blklen), rx.syncid));
      rx := rx.(timer := true);
    }

    method OnBadData(pos: int, env: Env)
      modifies this
      ensures Took(E.OnBadData(old(Snapshot()), pos, env), old(line))
    {
      hide E.NoteBadPos, E.Resync;
      NoteBadPos(pos);
      if !rx.timer || env.rxExpired {
        if rx.retries > 4 {
          if tx.state < HTX_REND && !cfg.originator && !hdxlink {
            hdxlink := true;
            rx := rx.(retries := 0);
          }
        }
        Resync();
      }
    }

    method OnData(pos: int, bytes: Bytes, env: Env)
      modifies this
      ensures Took(E.OnData(old(Snapshot()), pos, bytes, env), old(line))
    {
      hide E.OnBadData;
      if rx.state == RxData {
        if pos != rx.pos || pos < 0 {
          OnBadData(pos, env);
        } else {
          rx := rx.(blklen := |bytes|);
          if env.write.WriteError? {
            rx := rx.(open := false, pos := -2, retries := 1, syncid := Succ32(rx.syncid));
            TxPkt(RPos(rx.pos, 0, rx.syncid));
            rx := rx.(timer := true);
            return;
          }
          var stored := Stored(env.write, bytes);
          rx := rx.(file := rx.file + stored, lost := rx.lost + |bytes| - |stored|);
          rx := rx.(retries := 0, timer := false, lastsync := rx.pos, pos := rx.pos + |bytes|);
          if rx.window != 0 {
            TxPkt(DataAck(rx.pos));
          }
        }
      }
    }

    method OnEofInData(pos: int, env: Env)
      modifies this
      ensures Took(E.OnEofInData(old(Snapshot()), pos, env), old(line))
    {
      hide E.NoteBadPos, E.Resync;
      if pos < 0 {
        rx := rx.(open := false, state := RxFInfo);
      } else if pos != rx.pos {
        NoteBadPos(pos);
        if !rx.timer || env.rxExpired {
          Resync();
        }
      } else {
        rx := rx.(open := false);
        closed := closed + [rx.file];
        rx := rx.(state := RxFInfo);
      }
    }

    method OnEof(pos: int, env: Env)
      modifies this
      ensures Took(E.OnEof(old(Snapshot()), pos, env), old(line))
    {
      hide E.OnEofInData;
      if rx.state == RxData {
        OnEofInData(pos, env);
      }
      if rx.state == RxFInfo {
        TxPkt(EofAck);
      }
    }

    // ----- sending a file --------------------------------------------------

    /** Returns whether hydra() returns. */
    method OnFInfoAck(pos: int, env: Env) returns (returned: bool)
      modifies this
      ensures Took(E.OnFInfoAck(old(Snapshot()), pos, env), old(line))
      ensures returned == E.OnFInfoAck(old(Snapshot()), pos, env).returned
    {
      returned := false;
      if tx.state == HTX_FINFO || tx.state == HTX_FINFOACK {
        tx := tx.(retries := 0);
        if !tx.named {
          tx := tx.(timer := true, state := HTX_REND);
        } else {
          tx := tx.(timer := false, pos := pos);
          if tx.pos >= 0 {
            tx := tx.(lastack := tx.pos);
            if tx.pos > 0 {
              if !env.seekOk || !tx.open {
                tx := tx.(open := false, pos := -2, state := HTX_EOF);
                return;
              }
              tx := tx.(fp := tx.pos);
            }
            tx := tx.(state := HTX_XDATA);
          } else {
            NextCall(if tx.pos == -1 then FileThere else FileSkipped);
            returned := true;
          }
        }
      }
    }

    method OnDataAck(pos: int)
      modifies this
      ensures Took(E.OnDataAck(old(Snapshot()), pos), old(line))
    {
      if E.Sending(tx.state) {
        if tx.window != 0 && pos > tx.lastack {
          tx := tx.(lastack := pos);
          if tx.state == HTX_DATAACK && tx.pos < tx.lastack + tx.window {
            tx := tx.(state := HTX_XDATA, retries := 0, timer := false);
          }
        }
      }
    }

    method ShrinkBlock(asked: int)
      modifies `tx
      ensures tx == old(tx).(blklen := E.Shrunk(old(tx.blklen), asked))
    {
      if tx.blklen > asked {
        tx := tx.(blklen := asked % 0x1_0000);
      } else {
        tx := tx.(blklen := tx.blklen / 2);
      }
      if tx.blklen <= 64 {
        tx := tx.(blklen := 64);
      } else if tx.blklen <= 128 {
        tx := tx.(blklen := 128);
      } else if tx.blklen <= 256 {
        tx := tx.(blklen := 256);
      } else if tx.blklen <= 512 {
        tx := tx.(blklen := 512);
      } else {
        tx := tx.(blklen := 1024);
      }
    }

    method OnRPos(pos: int, blklen: int, syncid: int, env: Env)
      modifies this
      ensures Took(E.OnRPos(old(Snapshot()), pos, blklen, syncid, env), old(line))
    {
      hide E.Shrunk;
      if !E.Sending(tx.state) {
        return;
      }
      if syncid != tx.syncid {
        tx := tx.(syncid := syncid, retries := 1, timer := false, pos := pos);
        if tx.pos < 0 {
          if tx.open {
            tx := tx.(open := false, state := HTX_EOF);
          }
          tx := tx.(pos := -2);
          return;
        }
        ShrinkBlock(blklen);
        tx := tx.(goodbytes := 0, goodneeded := tx.goodneeded + 1024);
        if tx.goodneeded > 8192 {
          tx := tx.(goodneeded := 8192);
        }
        if !env.seekOk || !tx.open {
          tx := tx.(open := false, pos := -2, state := HTX_EOF);
          return;
        }
        tx := tx.(fp := tx.pos);
        if tx.state != HTX_XWAIT {
          tx := tx.(state := HTX_XDATA);
        }
      } else if tx.retries + 1 > RETRIES {
        Finish(Aborted);
      } else {
        tx := tx.(retries := tx.retries + 1);
      }
    }

    method OnEofAck() returns (returned: bool)
      modifies this
      ensures Took(E.OnEofAck(old(Snapshot())), old(line))
      ensures returned == E.OnEofAck(old(Snapshot())).returned
    {
      returned := false;
      if tx.state == HTX_EOF || tx.state == HTX_EOFACK {
        NextCall(if tx.open then FileSent else FileSkipped);
        returned := true;
      }
    }

    // ----- device packets --------------------------------------------------

    /** hydra_devrecv(): walk through the device table. */
    method DevRecv(msg: DevMsg)
      modifies `dev
      ensures dev == old(dev).(taken := old(dev).taken + [msg],
                               handed := old(dev).handed + E.HandedOut(cfg.devices, msg))
    {
      dev := dev.(taken := dev.taken + [msg]);
      var names := ["MSG", "CON", "PRN", "ERR"];
      var i := 0;
      while i < |names|
        invariant 0 <= i <= 4 && dev == old(dev).(taken := old(dev).taken + [msg])
        invariant forall j :: 0 <= j < i ==> !(names[j] <= msg.device)
      {
        assert |names[i]| == 3;
        if names[i] <= msg.device {
          assert msg.device[..3] == names[i];
          if names[i] in cfg.devices {
            dev := dev.(handed := dev.handed + [msg]);
          }
          return;
        }
        i := i + 1;
      }
      assert |msg.device| >= 3 ==> msg.device[..3] <= msg.device && msg.device[..3] !in names;
    }

    method OnDevSend(id: int, msg: DevMsg)
      modifies this
      ensures Took(E.OnDevSend(old(Snapshot()), id, msg), old(line))
    {
      if dev.rxid != id {
        DevRecv(msg);
        dev := dev.(rxid := id);
      }
      TxPkt(HydraTypes.DevAck(dev.rxid));
    }

    method OnDevAck(id: int)
      modifies this
      ensures Took(E.OnDevAck(old(Snapshot()), id), old(line))
    {
      if dev.state != DevDone && dev.txid == id {
        dev := dev.(timer := false, state := DevDone);
      }
    }

    // ----- the receive loop ------------------------------------------------

    method OnPacket(p: Packet, env: Env) returns (returned: bool)
      modifies this
      ensures Took(E.OnPacket(old(Snapshot()), p, env), old(line))
      ensures returned == E.OnPacket(old(Snapshot()), p, env).returned
    {
      hide E.OnStart, E.OnInit, E.OnInitAck, E.OnFInfo, E.OnData, E.OnDataAck, E.OnRPos, E.OnEof, E.OnEnd, E.OnIdle,
        E.OnDevSend, E.OnDevAck, E.OnFInfoAck, E.OnEofAck;
      returned := false;
      if !p.FInfoAck? && !p.EofAck? {
        OnlyTwoReturn(Snapshot(), p, env);
      }
      match p {
        case Start => OnStart();
        case Init(_, _, _, _) =>
          var rxbuf := Received(p);
          OnInit(rxbuf, p);
        case InitAck => OnInitAck();
        case FInfo(endOfBatch) => OnFInfo(endOfBatch, env);
        case FInfoAck(pos) => returned := OnFInfoAck(pos, env);
        case Data(pos, bytes) => OnData(pos, bytes, env);
        case DataAck(pos) => OnDataAck(pos);
        case RPos(pos, blklen, syncid) => OnRPos(pos, blklen, syncid, env);
        case Eof(pos) => OnEof(pos, env);
        case EofAck => returned := OnEofAck();
        case End => OnEnd(env);
        case Idle => OnIdle();
        case DevSend(id, msg) => OnDevSend(id, msg);
        case DevAck(id) => OnDevAck(id);
      }
    }

    /** The second switch of the receive loop. */
    method AfterEvent(env: Env)
      modifies this
      ensures Took(Move(E.AfterEvent(old(Snapshot()), env), [], false), old(line))
    {
      hide E.DevQueue, E.DevFree;
      if tx.state == HTX_START || tx.state == HTX_SWAIT {
        if rx.state == RxFInfo {
          tx := tx.(timer := false, retries := 0, state := HTX_INIT);
        }
      } else if tx.state == HTX_RINIT {
        if rx.state == RxFInfo {
          tx := tx.(timer := false, retries := 0, state := HTX_FINFO);
        }
      } else if tx.state == HTX_XDATA {
        if rx.state != RxDone && hdxlink {
          var _ := DevSend(E.HDX_MESSAGE);
          tx := tx.(timer := true, state := HTX_XWAIT);
        }
      } else if tx.state == HTX_XWAIT {
        if rx.state == RxDone {
          tx := tx.(timer := false, retries := 0, state := HTX_XDATA);
        }
      } else if tx.state == HTX_REND {
        if rx.state == RxDone && dev.state == DevDone && !env.chatting {
          tx := tx.(timer := false, retries := 0, state := HTX_END);
        }
      }
    }

    /** One turn of the receive loop. */
    method Receive(ev: Event, env: Env) returns (returned: bool)
      modifies this
      ensures Took(E.Receive(old(Snapshot()), ev, env), old(line))
      ensures returned == E.Receive(old(Snapshot()), ev, env).returned
    {
      hide E.OnPacket, E.OnTxTimeout, E.OnDevTimeout, E.AfterEvent, E.Finish;
      returned := false;
      if tx.state == HTX_DONE {
        return;
      }
      OnlyPacketsReturn(Snapshot());
      match ev {
        case Received(p) => returned := OnPacket(p, env);
        case TxTimeout => OnTxTimeout();
        case DevTimeout => OnDevTimeout();
        case Fatal => Finish(Aborted);
      }
      if !returned {
        AfterEvent(env);
      }
    }

    static lemma OnlyPacketsReturn(e: Endpoint)
      ensures !E.OnTxTimeout(e).returned && !E.OnDevTimeout(e).returned
    {
    }

    static lemma OnlyTwoReturn(e: Endpoint, p: Packet, env: Env)
      requires !p.FInfoAck? && !p.EofAck?
      ensures !E.OnPacket(e, p, env).returned
    {
    }
  }
}
