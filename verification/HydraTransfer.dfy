/** A packet from the transmit buffer of one port to the receive buffer of another. */
module HydraTransfer {
  import opened Bits
  import opened HydraTypes
  import opened HydraWire
  import opened HydraStream
  import opened HydraPort

  /** When a stretch of the line yields one packet, the receiver that stops at the first result
      has that packet. */
  lemma FirstResult(o: Options, w: Wire, line: Bytes, used: nat, got: Got, packet: Got)
    requires ValidWire(w) && used <= |line| && !packet.Nothing?
    requires Feed(o, w, line).got == [packet]
    requires Feed(o, w, line[..used]).got == if got.Nothing? then [] else [got]
    requires got.Nothing? ==> used == |line|
    ensures got == packet
  {
    hide Feed;
    assert line == line[..used] + line[used..];
    assert used == |line| ==> line[..used] == line;
    FeedConcat(o, w, line[..used], line[used..]);
    if !got.Nothing? {
      var rest := Feed(o, Feed(o, w, line[..used]).w, line[used..]).got;
      assert ([got] + rest)[0] == got;
    }
  }

  /** txpkt() on one side and rxpkt() on the other: the packet arrives, whatever is left in the
      receiver's buffer from before, as long as no more than three DLEs are pending and neither the
      operator nor the carrier breaks off. */
  method Transfer(a: Port, b: Port, prefix: Bytes, len: nat, kind: Byte, around: Around) returns (result: PktType)
    requires a.Valid() && b.Valid() && a != b && len <= MAXPAYLOAD
    requires a.txbuf != b.rxbuf
    requires var tables: set<object> := {b.tables.crc16tab, b.tables.crc32tab}; a.txbuf !in tables
    requires Harmless(prefix)
    requires !around.keyabort && around.carrier
    requires b.rxdle <= 3 && Understands(b.rxoptions, a.txoptions, Format(a.txoptions, kind))
    modifies a.txbuf, a`txlastc, b.rxbuf, b`rxbufptr, b`rxdle, b`rxpktformat
    ensures result == Packet(kind, old(a.txbuf[TXBUFIN..TXBUFIN + len]))
  {
    hide Feed, Encode;
    ghost var payload, w := a.txbuf[TXBUFIN..TXBUFIN + len], b.State();
    PrefixedArrives(b.rxoptions, a.txoptions, w, prefix, kind, payload);
    var n := a.TxPkt(len, kind);
    var line := prefix + a.txbuf[..n];
    var used: nat;
    result, used := b.RxPkt(line, around);
    ghost var some := Feed(b.rxoptions, w, line[..used]).got;
    FirstResult(b.rxoptions, w, line, used, if some == [] then Nothing else some[0], Good(kind, payload));
  }
}
