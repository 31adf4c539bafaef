// Whole commands and sessions: every command gets its data and its status, except a read of no
// sectors.
module BotRuns {
  import opened Bytes
  import opened BotSpec

  // ---- What is still to be sent

  function Remaining(disk: Disk, d: Device): seq<Byte>
    requires Ok(d)
  {
    if d.phase == Status then d.ram[d.ramPos..d.ramLen]
    else if d.phase == DataIn && !d.streaming then d.ram[d.ramPos..d.ramLen] + Csw(d.tag, 0)
    else if d.phase == DataIn && d.left > 0 then
      DiskBytes(disk, d.rx, d.lba * SECTOR + d.off, d.left * SECTOR - d.off) + Csw(d.tag, 0)
    else []
  }

  // Streaming with nothing left to stream.
  predicate Stuck(d: Device) { d.phase == DataIn && d.streaming && d.left == 0 }

  predicate Sending(d: Device) { (d.phase == DataIn || d.phase == Status) && !Stuck(d) }

  lemma BytesSplit(disk: Disk, rx: seq<Byte>, addr: nat, a: nat, b: nat)
    ensures DiskBytes(disk, rx, addr, a + b) == DiskBytes(disk, rx, addr, a) + DiskBytes(disk, rx, addr + a, b)
  {}

  // Each packet is the next piece of what remains, and the serial bytes shown do not change.
  lemma PacketIsNext(disk: Disk, d: Device)
    requires DiskOk(disk) && Ok(d) && Sending(d)
    ensures var (d', packet) := Polled(disk, d);
            && Ok(d') && 0 < |packet| <= PACKET && d'.rx == d.rx
            && Remaining(disk, d) == packet + Remaining(disk, d')
            && (Sending(d') || (Idle(d') && Remaining(disk, d') == []))
  {
    hide DiskBytes;
    if d.phase == DataIn && d.streaming {
      var addr, n := d.lba * SECTOR + d.off, d.left * SECTOR - d.off;
      BytesSplit(disk, d.rx, addr, PACKET, n - PACKET);
      if n == PACKET { assert DiskBytes(disk, d.rx, addr + PACKET, 0) == []; }
    }
  }

  function PacketsOf(bytes: nat): nat { (bytes + PACKET - 1) / PACKET }

  // Packets the device has still to send: a status block takes two.
  function PacketsLeft(d: Device): nat
    requires Ok(d)
  {
    if d.phase == Status then PacketsOf(d.ramLen - d.ramPos)
    else if d.phase == DataIn && !d.streaming then PacketsOf(d.ramLen - d.ramPos) + 2
    else if d.phase == DataIn && d.left > 0 then d.left * (SECTOR / PACKET) - d.off / PACKET + 2
    else 0
  }

  // ---- Runs of events

  // A packet from the host, a packet taken by the host, or a serial byte.
  datatype Event = Packet(data: seq<Byte>) | Poll | Serial(b: Byte)

  function Step(disk: Disk, d: Device, e: Event): (r: (Device, seq<Byte>))
    requires DiskOk(disk) && Ok(d)
    ensures Ok(r.0)
  {
    match e
    case Packet(data) => ReceivedOk(disk, d, data); (Received(disk, d, data), [])
    case Poll => PolledOk(disk, d); Polled(disk, d)
    case Serial(b) => HeardOk(d, b); (Heard(d, b), [])
  }

  // The device and all bytes sent after the first k events.
  function After(disk: Disk, d: Device, events: seq<Event>, k: nat): (r: (Device, seq<Byte>))
    requires DiskOk(disk) && Ok(d) && k <= |events|
    ensures Ok(r.0)
  {
    if k == 0 then (d, [])
    else
      var (before, sent) := After(disk, d, events, k - 1);
      var (after, packet) := Step(disk, before, events[k - 1]);
      (after, sent + packet)
  }

  // An event after which still nothing has been sent.
  lemma Silent(disk: Disk, d: Device, events: seq<Event>, k: nat, before: Device, after: Device)
    requires DiskOk(disk) && Ok(d) && Ok(before) && 0 < k <= |events|
    requires After(disk, d, events, k - 1) == (before, []) && Step(disk, before, events[k - 1]) == (after, [])
    ensures After(disk, d, events, k) == (after, [])
  {
    hide Step;
    var (before', sent) := After(disk, d, events, k - 1);
    var (after', packet) := Step(disk, before', events[k - 1]);
    assert sent + packet == [];
  }

  function FromHost(e: Event): seq<Byte> { if e.Packet? then e.data else [] }

  function FromLine(e: Event): seq<Byte> { if e.Serial? then [e.b] else [] }

  // The first k events' bytes from the host, and from the serial line.
  function HostBytes(events: seq<Event>, k: nat): seq<Byte>
    requires k <= |events|
  {
    if k == 0 then [] else HostBytes(events, k - 1) + FromHost(events[k - 1])
  }

  function SerialBytes(events: seq<Event>, k: nat): seq<Byte>
    requires k <= |events|
  {
    if k == 0 then [] else SerialBytes(events, k - 1) + FromLine(events[k - 1])
  }

  function PushAll(rx: seq<Byte>, bs: seq<Byte>): (r: seq<Byte>)
    requires |rx| <= RX_MAX
    ensures |r| <= RX_MAX
  {
    if |bs| == 0 then rx else Pushed(PushAll(rx, bs[..|bs| - 1]), bs[|bs| - 1])
  }

  // The bytes shown are the last of all bytes heard, at most 48.
  lemma {:induction false} ShowsTheLast(rx: seq<Byte>, bs: seq<Byte>)
    requires |rx| <= RX_MAX
    ensures var all := rx + bs;
            PushAll(rx, bs) == all[if |all| > RX_MAX then |all| - RX_MAX else 0..]
  {
    if |bs| == 0 {
      assert rx + bs == rx;
    } else {
      ShowsTheLast(rx, bs[..|bs| - 1]);
      assert rx + bs == rx + bs[..|bs| - 1] + [bs[|bs| - 1]];
    }
  }

  // ---- A command block arrives

  // The block comes in packets cut anywhere; serial bytes and idle polls may come between.
  ghost predicate Arrives(events: seq<Event>, cbw: seq<Byte>)
  {
    var n := |events|;
    && |cbw| == CBW_SIZE && n > 0 && events[n - 1].Packet? && |events[n - 1].data| > 0
    && HostBytes(events, n) == cbw
  }

  // One event while the block is incomplete.
  lemma Collect(disk: Disk, d: Device, e: Event)
    requires DiskOk(disk) && Ok(d) && d.phase == Command && |d.cbw| + |FromHost(e)| < CBW_SIZE
    ensures Step(disk, d, e) == (d.(cbw := d.cbw + FromHost(e), rx := PushAll(d.rx, FromLine(e))), [])
  {
    hide Handled;
    match e {
      case Packet(data) => assert data[..|data|] == data;
      case Poll => assert d.cbw + [] == d.cbw;
      case Serial(b) =>
        assert d.cbw + [] == d.cbw;
        assert [b][..0] == [];
    }
  }

  lemma PushMore(rx: seq<Byte>, bs: seq<Byte>, e: Event)
    requires |rx| <= RX_MAX
    ensures PushAll(PushAll(rx, bs), FromLine(e)) == PushAll(rx, bs + FromLine(e))
  {
    if e.Serial? {
      assert (bs + [e.b])[..|bs|] == bs && [e.b][..0] == [];
    } else {
      assert bs + [] == bs;
    }
  }

  function Collected(d: Device, events: seq<Event>, k: nat): Device
    requires |d.rx| <= RX_MAX && k <= |events|
  {
    d.(cbw := HostBytes(events, k), rx := PushAll(d.rx, SerialBytes(events, k)))
  }

  lemma {:induction false} Collecting(disk: Disk, d: Device, events: seq<Event>, k: nat)
    requires DiskOk(disk) && Idle(d) && k <= |events| && |HostBytes(events, k)| < CBW_SIZE
    ensures After(disk, d, events, k) == (Collected(d, events, k), [])
  {
    hide After, Step, PushAll;
    if k == 0 {
      NothingYet(disk, d, events);
    } else {
      Collecting(disk, d, events, k - 1);
      Collect(disk, Collected(d, events, k - 1), events[k - 1]);
      PushMore(d.rx, SerialBytes(events, k - 1), events[k - 1]);
      Silent(disk, d, events, k, Collected(d, events, k - 1), Collected(d, events, k));
    }
  }

  lemma NothingYet(disk: Disk, d: Device, events: seq<Event>)
    requires DiskOk(disk) && Idle(d)
    ensures After(disk, d, events, 0) == (Collected(d, events, 0), [])
  {}

  lemma CommandArrives(disk: Disk, d: Device, events: seq<Event>, cbw: seq<Byte>)
    requires DiskOk(disk) && Idle(d) && Arrives(events, cbw)
    ensures After(disk, d, events, |events|)
            == (Handled(disk, d.(rx := PushAll(d.rx, SerialBytes(events, |events|))), cbw), [])
  {
    hide Handled, After, Step, PushAll, HostBytes, SerialBytes;
    var n := |events|;
    LastPacket(events);
    Collecting(disk, d, events, n - 1);
    var before := Collected(d, events, n - 1);
    CompletesBlock(disk, before, events[n - 1]);
    Silent(disk, d, events, n, before, Handled(disk, before.(cbw := []), cbw));
  }

  lemma LastPacket(events: seq<Event>)
    requires |events| > 0 && events[|events| - 1].Packet?
    ensures HostBytes(events, |events|) == HostBytes(events, |events| - 1) + events[|events| - 1].data
    ensures SerialBytes(events, |events|) == SerialBytes(events, |events| - 1)
  {
    assert SerialBytes(events, |events| - 1) + [] == SerialBytes(events, |events| - 1);
  }

  lemma CompletesBlock(disk: Disk, d: Device, e: Event)
    requires DiskOk(disk) && Ok(d) && d.phase == Command && e.Packet? && |d.cbw| + |e.data| == CBW_SIZE
    ensures Step(disk, d, e) == (Handled(disk, d.(cbw := []), d.cbw + e.data), [])
  {
    hide Handled;
    assert e.data[..|e.data|] == e.data;
  }

  // ---- What a command should get

  // A read of no sectors at all.
  predicate ZeroRead(disk: Disk, cbw: seq<Byte>)
    requires |cbw| == CBW_SIZE
  {
    Opcode(cbw) == READ10 && ReadLba(cbw) < disk.sectors && ReadCount(cbw) == 0
  }

  function NeedsOut(cbw: seq<Byte>): nat
    requires |cbw| == CBW_SIZE
  {
    if Opcode(cbw) == WRITE10 then LengthOf(cbw) else 0
  }

  predicate Supported(op: Byte)
  {
    op in [TEST_UNIT_READY, REQUEST_SENSE, INQUIRY, READ_CAPACITY10, MODE_SENSE6, READ10, WRITE10]
  }

  function StatusOf(disk: Disk, cbw: seq<Byte>): Byte
    requires |cbw| == CBW_SIZE
  {
    if !Supported(Opcode(cbw)) || (Opcode(cbw) == READ10 && ReadLba(cbw) >= disk.sectors) then 1 else 0
  }

  // For a read, the sectors asked for as far as the disk goes, with the serial bytes as they
  // were when the command arrived.
  function DataPhase(disk: Disk, rx: seq<Byte>, cbw: seq<Byte>): seq<Byte>
    requires DiskOk(disk) && |cbw| == CBW_SIZE
  {
    var op := Opcode(cbw);
    if op == REQUEST_SENSE then SENSE
    else if op == INQUIRY then IDENTITY
    else if op == READ_CAPACITY10 then Capacity(disk)
    else if op == MODE_SENSE6 then MODE
    else if op == READ10 && ReadLba(cbw) < disk.sectors then
      DiskBytes(disk, rx, ReadLba(cbw) * SECTOR, Clipped(disk, ReadLba(cbw), ReadCount(cbw)) * SECTOR)
    else []
  }

  // Just after its block the command is sending all it should, or waiting for the data it needs,
  // or stuck, and it is stuck exactly when it is a read of no sectors.
  lemma CommandStarts(disk: Disk, d: Device, cbw: seq<Byte>)
    requires DiskOk(disk) && Idle(d) && |cbw| == CBW_SIZE && Signed(cbw)
    ensures var d' := Handled(disk, d, cbw);
            && Ok(d') && d'.rx == d.rx && d'.tag == TagOf(cbw)
            && (Stuck(d') <==> ZeroRead(disk, cbw))
            && (if NeedsOut(cbw) > 0 then d'.phase == DataOut && d'.discard == NeedsOut(cbw)
                else Sending(d') || Stuck(d'))
            && (Sending(d') ==>
                  && Remaining(disk, d') == DataPhase(disk, d.rx, cbw) + Csw(TagOf(cbw), StatusOf(disk, cbw))
                  && PacketsLeft(d') == PacketsOf(|DataPhase(disk, d.rx, cbw)|) + 2)
  {
    hide DiskBytes, Number, Capacity, WithStatus, WithData, WithSectors, Remaining, Stuck, Sending, Csw, PacketsLeft;
    HandledOk(disk, d, cbw);
    assert d.(cbw := []) == d;
    var t := d.(tag := TagOf(cbw));
    assert [] + Csw(TagOf(cbw), StatusOf(disk, cbw)) == Csw(TagOf(cbw), StatusOf(disk, cbw));
    StatusRemains(disk, t, 0);
    StatusRemains(disk, t, 1);
    StatusRemains(disk, t.(discard := 0), 0);
    DataRemains(disk, t, SENSE);
    DataRemains(disk, t, IDENTITY);
    DataRemains(disk, t, Capacity(disk));
    DataRemains(disk, t, MODE);
    NotYet(t.(discard := LengthOf(cbw), phase := DataOut));
    if ReadLba(cbw) < disk.sectors {
      SectorsRemain(disk, t, ReadLba(cbw), Clipped(disk, ReadLba(cbw), ReadCount(cbw)));
    }
  }

  lemma StatusRemains(disk: Disk, t: Device, status: Byte)
    requires Ok(t) && t.cbw == []
    ensures var d := WithStatus(t, status);
            && Ok(d) && Sending(d) && !Stuck(d) && d.tag == t.tag && Remaining(disk, d) == Csw(t.tag, status)
            && PacketsLeft(d) == 2
  {}

  lemma DataRemains(disk: Disk, t: Device, data: seq<Byte>)
    requires Ok(t) && t.cbw == [] && 0 < |data| <= 36
    ensures var d := WithData(t, data);
            && Ok(d) && Sending(d) && !Stuck(d) && d.tag == t.tag && Remaining(disk, d) == data + Csw(t.tag, 0)
            && PacketsLeft(d) == PacketsOf(|data|) + 2
  {}

  lemma SectorsRemain(disk: Disk, t: Device, lba: nat, count: nat)
    requires Ok(t) && t.cbw == []
    ensures var d := WithSectors(t, lba, count);
            && Ok(d) && d.tag == t.tag && (Sending(d) <==> count > 0) && (Stuck(d) <==> count == 0)
            && (count > 0 ==> Remaining(disk, d) == DiskBytes(disk, t.rx, lba * SECTOR, count * SECTOR) + Csw(t.tag, 0))
            && (count > 0 ==> PacketsLeft(d) == PacketsOf(count * SECTOR) + 2)
  {
    hide DiskBytes;
  }

  lemma NotYet(d: Device)
    requires d.phase == DataOut
    ensures !Sending(d) && !Stuck(d)
  {}

  // ---- The data a write brings

  ghost predicate OutArrives(events: seq<Event>, n: nat)
  {
    if n == 0 then events == []
    else
      && |events| > 0 && events[|events| - 1].Packet?
      && |HostBytes(events, |events| - 1)| < n <= |HostBytes(events, |events|)|
  }

  lemma Discard(disk: Disk, d: Device, e: Event)
    requires DiskOk(disk) && Ok(d) && d.phase == DataOut
    ensures |FromHost(e)| < d.discard ==> Step(disk, d, e) == (d.(discard := d.discard - |FromHost(e)|), [])
    ensures |FromHost(e)| >= d.discard ==> Step(disk, d, e) == (WithStatus(d.(discard := 0), 0), [])
  {
    hide Handled, WithStatus;
  }

  lemma {:induction false} Discarding(disk: Disk, d: Device, events: seq<Event>, k: nat)
    requires DiskOk(disk) && Ok(d) && d.phase == DataOut && k <= |events| && |HostBytes(events, k)| < d.discard
    ensures After(disk, d, events, k) == (d.(discard := d.discard - |HostBytes(events, k)|), [])
  {
    hide After, Step;
    if k == 0 {
      NoEvents(disk, d, events);
    } else {
      Discarding(disk, d, events, k - 1);
      var before := d.(discard := d.discard - |HostBytes(events, k - 1)|);
      Discard(disk, before, events[k - 1]);
      Silent(disk, d, events, k, before, d.(discard := d.discard - |HostBytes(events, k)|));
    }
  }

  lemma NoEvents(disk: Disk, d: Device, events: seq<Event>)
    requires DiskOk(disk) && Ok(d)
    ensures After(disk, d, events, 0) == (d, [])
  {}

  lemma DataArrives(disk: Disk, d: Device, events: seq<Event>)
    requires DiskOk(disk) && Ok(d) && d.phase == DataOut && OutArrives(events, d.discard)
    ensures After(disk, d, events, |events|) == (WithStatus(d.(discard := 0), 0), [])
  {
    hide After, Step, WithStatus, HostBytes;
    var k := |events|;
    LastPacket(events);
    Discarding(disk, d, events, k - 1);
    var before := d.(discard := d.discard - |HostBytes(events, k - 1)|);
    Discard(disk, before, events[k - 1]);
    Silent(disk, d, events, k, before, WithStatus(d.(discard := 0), 0));
  }

  // ---- The host takes the answer

  function Polls(events: seq<Event>, k: nat): (n: nat)
    requires k <= |events|
    ensures n <= k
  {
    if k == 0 then 0 else Polls(events, k - 1) + if events[k - 1].Poll? then 1 else 0
  }

  // The host takes n packets; other packets and serial bytes may come between.
  ghost predicate Takes(events: seq<Event>, n: nat)
  {
    Polls(events, |events|) == n && (if n == 0 then events == [] else events[|events| - 1].Poll?)
  }

  lemma OnePacketLess(disk: Disk, d: Device)
    requires DiskOk(disk) && Ok(d) && Sending(d)
    ensures var d' := Polled(disk, d).0;
            Ok(d') && PacketsLeft(d) == PacketsLeft(d') + 1 && (PacketsLeft(d') > 0 <==> Sending(d'))
  {
    PolledOk(disk, d);
    hide DiskBytes;
  }

  // While it sends, the device ignores packets from the host and samples no serial bytes.
  lemma OnlyPolls(disk: Disk, d: Device, e: Event)
    requires DiskOk(disk) && Ok(d) && Sending(d)
    ensures Step(disk, d, e) == if e.Poll? then Polled(disk, d) else (d, [])
  {
    hide Polled;
  }

  lemma {:induction false} PollsLeft(events: seq<Event>, n: nat, k: nat)
    requires Takes(events, n) && k <= |events|
    ensures if k < |events| then Polls(events, k) < n else Polls(events, k) == n
    decreases |events| - k
  {
    if k + 1 < |events| { PollsLeft(events, n, k + 1); }
  }

  // However packets and serial bytes come between the polls, the device sends its packets in
  // order, each once, and the serial bytes it shows do not change.
  lemma {:induction false} Taking(disk: Disk, d: Device, events: seq<Event>, k: nat)
    requires DiskOk(disk) && Ok(d) && Sending(d) && k <= |events|
    requires Takes(events, PacketsLeft(d))
    ensures var (d', sent) := After(disk, d, events, k);
            && d'.rx == d.rx && sent + Remaining(disk, d') == Remaining(disk, d)
            && PacketsLeft(d') == PacketsLeft(d) - Polls(events, k)
            && (k < |events| ==> Sending(d'))
            && (k == |events| ==> Idle(d') && Remaining(disk, d') == [])
  {
    hide Step, Remaining, Polled, Ok, Idle, Sending, PacketsLeft;
    if k == 0 {
      NoEvents(disk, d, events);
      OnePacketLess(disk, d);
      assert [] + Remaining(disk, d) == Remaining(disk, d);
    } else {
      Taking(disk, d, events, k - 1);
      var (before, sent) := After(disk, d, events, k - 1);
      OnlyPolls(disk, before, events[k - 1]);
      PacketIsNext(disk, before);
      OnePacketLess(disk, before);
      PollsLeft(events, PacketsLeft(d), k);
      var (after, packet) := Step(disk, before, events[k - 1]);
      assert After(disk, d, events, k) == (after, sent + packet);
      if events[k - 1].Poll? {
        assert sent + packet + Remaining(disk, after) == sent + (packet + Remaining(disk, after));
      } else {
        assert sent + [] == sent;
      }
    }
  }

  // The host gets exactly what remains, and the device is ready for a command.
  lemma DrainSendsRemaining(disk: Disk, d: Device, events: seq<Event>)
    requires DiskOk(disk) && Ok(d) && Sending(d) && Takes(events, PacketsLeft(d))
    ensures var (d', sent) := After(disk, d, events, |events|);
            sent == Remaining(disk, d) && Idle(d') && d'.rx == d.rx
  {
    hide After, Remaining, Idle, Sending, PacketsLeft, Takes;
    Taking(disk, d, events, |events|);
    var (d', sent) := After(disk, d, events, |events|);
    assert sent + [] == sent;
  }

  // ---- Every command completes

  // One command: its block, the data that follows it, and the taking of its answer.
  datatype Exchange = Exchange(block: seq<Event>, out: seq<Event>, take: seq<Event>)

  function BlockOf(x: Exchange): seq<Byte> { HostBytes(x.block, |x.block|) }

  // The host sends what the command needs, and takes as many packets as its data and status make.
  ghost predicate Proper(disk: Disk, x: Exchange)
    requires DiskOk(disk)
  {
    && Arrives(x.block, BlockOf(x)) && Signed(BlockOf(x)) && !ZeroRead(disk, BlockOf(x))
    && OutArrives(x.out, NeedsOut(BlockOf(x)))
    && Takes(x.take, PacketsOf(|DataPhase(disk, [], BlockOf(x))|) + 2)
  }

  function RxAt(d: Device, x: Exchange): seq<Byte>
    requires |d.rx| <= RX_MAX
  {
    PushAll(d.rx, SerialBytes(x.block, |x.block|))
  }

  // The device once the host has sent everything a command needs.
  function Loaded(disk: Disk, d: Device, x: Exchange): (d': Device)
    requires DiskOk(disk) && Ok(d)
    ensures Ok(d')
  {
    After(disk, After(disk, d, x.block, |x.block|).0, x.out, |x.out|).0
  }

  // The device after a whole exchange, and all it has sent from the first event on.
  function Exchanged(disk: Disk, d: Device, x: Exchange): (r: (Device, seq<Byte>))
    requires DiskOk(disk) && Ok(d)
    ensures Ok(r.0)
  {
    var (d1, sent1) := After(disk, d, x.block, |x.block|);
    var (d2, sent2) := After(disk, d1, x.out, |x.out|);
    var (d3, sent3) := After(disk, d2, x.take, |x.take|);
    (d3, sent1 + sent2 + sent3)
  }

  // How much data a command gets does not depend on the serial bytes.
  lemma DataLength(disk: Disk, rx: seq<Byte>, cbw: seq<Byte>)
    requires DiskOk(disk) && |cbw| == CBW_SIZE
    ensures |DataPhase(disk, rx, cbw)| == |DataPhase(disk, [], cbw)|
  {
    hide DiskBytes;
  }

  // Whatever comes between, from the first byte of its block on the device sends exactly the data
  // phase and one status block with the command's tag, and is ready for the next command.
  lemma CommandCompletes(disk: Disk, d: Device, x: Exchange)
    requires DiskOk(disk) && Idle(d) && Proper(disk, x)
    ensures var cbw := BlockOf(x);
            && Sending(Loaded(disk, d, x))
            && var (d', sent) := Exchanged(disk, d, x);
               && Idle(d') && d'.rx == RxAt(d, x)
               && sent == DataPhase(disk, RxAt(d, x), cbw) + Csw(TagOf(cbw), StatusOf(disk, cbw))
  {
    hide DataPhase, Remaining, After, Handled, Arrives, Signed, ZeroRead, HostBytes, SerialBytes, PushAll, Takes,
      PacketsLeft, PacketsOf;
    assert |BlockOf(x)| == CBW_SIZE by { BlockSize(x.block, BlockOf(x)); }
    var cbw := BlockOf(x);
    CommandArrives(disk, d, x.block, cbw);
    var ready := d.(rx := RxAt(d, x));
    CommandStarts(disk, ready, cbw);
    var started := Handled(disk, ready, cbw);
    if NeedsOut(cbw) > 0 {
      DataArrives(disk, started, x.out);
      WriteAnswers(disk, WithStatus(started.(discard := 0), 0), started, cbw, RxAt(d, x));
    } else {
      NoEvents(disk, started, []);
    }
    var loaded := Loaded(disk, d, x);
    DataLength(disk, RxAt(d, x), cbw);
    DrainSendsRemaining(disk, loaded, x.take);
    assert [] + [] + After(disk, loaded, x.take, |x.take|).1 == After(disk, loaded, x.take, |x.take|).1;
  }

  lemma WriteAnswers(disk: Disk, d: Device, before: Device, cbw: seq<Byte>, rx: seq<Byte>)
    requires DiskOk(disk) && |cbw| == CBW_SIZE && NeedsOut(cbw) > 0
    requires Ok(before) && before.tag == TagOf(cbw) && before.phase == DataOut
    requires d == WithStatus(before.(discard := 0), 0)
    ensures Ok(d) && Sending(d)
    ensures Remaining(disk, d) == DataPhase(disk, rx, cbw) + Csw(TagOf(cbw), StatusOf(disk, cbw))
    ensures PacketsLeft(d) == PacketsOf(|DataPhase(disk, rx, cbw)|) + 2
  {}

  // ---- A read of no sectors

  // Nothing the host or the line does gets the device out of it, short of a reset.
  lemma {:induction false} StuckForever(disk: Disk, d: Device, events: seq<Event>, k: nat)
    requires DiskOk(disk) && Ok(d) && Stuck(d) && k <= |events|
    ensures After(disk, d, events, k) == (d, [])
    ensures Idle(Reset(d))
  {
    hide After, Step;
    if k == 0 {
      NoEvents(disk, d, events);
    } else {
      StuckForever(disk, d, events, k - 1);
      Ignored(disk, d, events[k - 1]);
      Silent(disk, d, events, k, d, d);
    }
  }

  lemma Ignored(disk: Disk, d: Device, e: Event)
    requires DiskOk(disk) && Ok(d) && Stuck(d)
    ensures Step(disk, d, e) == (d, [])
  {}

  // A command hangs exactly when it reads no sectors from inside the disk.
  lemma HangsExactly(disk: Disk, d: Device, block: seq<Event>, cbw: seq<Byte>)
    requires DiskOk(disk) && Idle(d) && Arrives(block, cbw) && Signed(cbw)
    ensures Stuck(After(disk, d, block, |block|).0) <==> ZeroRead(disk, cbw)
  {
    hide Handled, After, ZeroRead, Signed, Arrives, Stuck, PushAll, HostBytes, SerialBytes;
    assert |cbw| == CBW_SIZE by { BlockSize(block, cbw); }
    CommandArrives(disk, d, block, cbw);
    CommandStarts(disk, d.(rx := PushAll(d.rx, SerialBytes(block, |block|))), cbw);
  }

  lemma BlockSize(block: seq<Event>, cbw: seq<Byte>)
    requires Arrives(block, cbw)
    ensures |cbw| == CBW_SIZE
  {}

  function EmptyRead(tag: seq<Byte>): (cbw: seq<Byte>)
    requires |tag| == 4
    ensures |cbw| == CBW_SIZE
  {
    [0x55, 0x53, 0x42, 0x43] + tag + [0, 0, 0, 0, 0x80, 0, 10]
    + [0x28, 0, 0, 0, 0, 0, 0, 0, 0, 0, 0, 0, 0, 0, 0, 0]
  }

  // READ(10) of no sectors at sector 0.
  lemma ZeroReadHangs(disk: Disk, d: Device, tag: seq<Byte>)
    requires DiskOk(disk) && Idle(d) && |tag| == 4
    ensures Stuck(Handled(disk, d, EmptyRead(tag)))
  {
    var cbw := EmptyRead(tag);
    assert Signed(cbw) && Opcode(cbw) == READ10;
    assert ReadLba(cbw) == 0 && ReadCount(cbw) == 0;
    CommandStarts(disk, d, cbw);
  }

  // ---- Whole sessions

  function Session(disk: Disk, d: Device, xs: seq<Exchange>): (r: (Device, seq<Byte>))
    requires DiskOk(disk) && Idle(d) && forall i :: 0 <= i < |xs| ==> Proper(disk, xs[i])
    decreases |xs|
  {
    if |xs| == 0 then (d, [])
    else
      CommandCompletes(disk, d, xs[0]);
      var (d', sent) := Exchanged(disk, d, xs[0]);
      var (d'', rest) := Session(disk, d', xs[1..]);
      (d'', sent + rest)
  }

  // What the host should get over a session, from what it and the line sent.
  function Answers(disk: Disk, rx: seq<Byte>, xs: seq<Exchange>): seq<Byte>
    requires DiskOk(disk) && |rx| <= RX_MAX && forall i :: 0 <= i < |xs| ==> |BlockOf(xs[i])| == CBW_SIZE
    decreases |xs|
  {
    if |xs| == 0 then []
    else
      var cbw, now := BlockOf(xs[0]), PushAll(rx, SerialBytes(xs[0].block, |xs[0].block|));
      DataPhase(disk, now, cbw) + Csw(TagOf(cbw), StatusOf(disk, cbw)) + Answers(disk, now, xs[1..])
  }

  lemma Sizes(disk: Disk, d: Device, xs: seq<Exchange>)
    requires DiskOk(disk) && Idle(d) && forall i :: 0 <= i < |xs| ==> Proper(disk, xs[i])
    ensures Ok(d) && |d.rx| <= RX_MAX && forall i :: 0 <= i < |xs| ==> |BlockOf(xs[i])| == CBW_SIZE
  {
    forall i | 0 <= i < |xs| ensures |BlockOf(xs[i])| == CBW_SIZE {
      assert Proper(disk, xs[i]);
    }
  }

  // Over any session of commands the host gets exactly their data and status blocks, in order,
  // whatever packets, polls and serial bytes come between, each read showing the serial bytes as
  // they were when it was asked for.
  lemma {:induction false} SessionCompletes(disk: Disk, d: Device, xs: seq<Exchange>)
    requires DiskOk(disk) && Idle(d) && forall i :: 0 <= i < |xs| ==> Proper(disk, xs[i])
    ensures |d.rx| <= RX_MAX && forall i :: 0 <= i < |xs| ==> |BlockOf(xs[i])| == CBW_SIZE
    ensures Session(disk, d, xs).1 == Answers(disk, d.rx, xs) && Idle(Session(disk, d, xs).0)
    decreases |xs|
  {
    hide DataPhase, Csw, StatusOf, Exchanged, Loaded, Idle, Proper, PushAll, BlockOf;
    Sizes(disk, d, xs);
    if |xs| > 0 {
      CommandCompletes(disk, d, xs[0]);
      SessionCompletes(disk, Exchanged(disk, d, xs[0]).0, xs[1..]);
    }
  }
}
