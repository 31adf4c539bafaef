// The Bulk-Only Transport device: what it does with each packet, each poll and each serial byte.
module BotSpec {
  import opened Bytes

  const SECTOR: nat := 512
  const OVERLAY: nat := 1536
  const RX_MAX: nat := 48
  const PACKET: nat := 8
  const CBW_SIZE: nat := 31

  datatype Phase = Command | DataIn | DataOut | Status

  // The disk behind the device.
  datatype Disk = Disk(image: seq<Byte>, sectors: nat)

  // cbw holds the command bytes received so far; ram what is being sent, up to ramLen, unless
  // sectors are being streamed; rx the serial bytes shown in the file.
  datatype Device = Device(
    phase: Phase, cbw: seq<Byte>, tag: seq<Byte>, ram: seq<Byte>, ramLen: nat, ramPos: nat,
    streaming: bool, lba: nat, left: nat, off: nat, discard: nat, rx: seq<Byte>)

  predicate DiskOk(disk: Disk) { 0 < disk.sectors && disk.sectors * SECTOR < 0x1_0000_0000 }

  predicate Ok(d: Device)
  {
    && |d.cbw| < CBW_SIZE && |d.tag| == 4 && |d.ram| == 36 && d.ramLen <= 36 && |d.rx| <= RX_MAX
    && (d.phase == Status || (d.phase == DataIn && !d.streaming) ==> d.ramPos < d.ramLen && !d.streaming)
    && (d.phase == DataIn && d.streaming ==> d.off < SECTOR && d.off % PACKET == 0 && (d.left == 0 ==> d.off == 0))
    && (d.phase == DataOut ==> d.discard > 0)
    && (d.phase != Command ==> d.cbw == [])
  }

  // Ready for a new command.
  predicate Idle(d: Device) { Ok(d) && d.phase == Command && d.cbw == [] }

  // ---- Commands

  // A number from its octets, highest first.
  function Number(b3: nat, b2: nat, b1: nat, b0: nat): nat
  {
    b3 * 16777216 + b2 * 65536 + b1 * 256 + b0
  }

  predicate Signed(cbw: seq<Byte>)
    requires |cbw| == CBW_SIZE
  {
    cbw[..4] == [0x55, 0x53, 0x42, 0x43]
  }

  function TagOf(cbw: seq<Byte>): seq<Byte> requires |cbw| == CBW_SIZE { cbw[4..8] }
  function Opcode(cbw: seq<Byte>): Byte requires |cbw| == CBW_SIZE { cbw[15] }
  function LengthOf(cbw: seq<Byte>): nat requires |cbw| == CBW_SIZE { Number(cbw[11], cbw[10], cbw[9], cbw[8]) }
  function ReadLba(cbw: seq<Byte>): nat requires |cbw| == CBW_SIZE { Number(cbw[17], cbw[18], cbw[19], cbw[20]) }
  function ReadCount(cbw: seq<Byte>): nat requires |cbw| == CBW_SIZE { Number(0, 0, cbw[22], cbw[23]) }

  const TEST_UNIT_READY: Byte := 0x00
  const REQUEST_SENSE: Byte := 0x03
  const INQUIRY: Byte := 0x12
  const MODE_SENSE6: Byte := 0x1A
  const READ_CAPACITY10: Byte := 0x25
  const READ10: Byte := 0x28
  const WRITE10: Byte := 0x2A

  const SENSE: seq<Byte> := [0x70, 0, 0, 0, 0, 0, 0, 10, 0, 0, 0, 0, 0, 0, 0, 0, 0, 0]
  const IDENTITY: seq<Byte> :=
    [0, 0x80, 0, 1, 31, 0, 0, 0,
     68, 73, 71, 73, 83, 80, 82, 75,
     70, 65, 75, 69, 32, 77, 83, 67, 32, 84, 69, 83, 84, 32, 32, 32,
     49, 46, 48, 32]
  const MODE: seq<Byte> := [3, 0, 0x80, 0]

  function Capacity(disk: Disk): (c: seq<Byte>)
    requires DiskOk(disk)
    ensures |c| == 8
  {
    var last := disk.sectors - 1;
    [last / 16777216 % 256, last / 65536 % 256, last / 256 % 256, last % 256, 0, 0, 2, 0]
  }

  // The status block that closes a command.
  function Csw(tag: seq<Byte>, status: Byte): (c: seq<Byte>)
    requires |tag| == 4
    ensures |c| == 13
  {
    [0x55, 0x53, 0x42, 0x53] + tag + [0, 0, 0, 0, status]
  }

  function WithStatus(d: Device, status: Byte): Device
    requires |d.tag| == 4 && |d.ram| == 36
  {
    d.(phase := Status, ram := Csw(d.tag, status) + d.ram[13..], ramLen := 13, ramPos := 0, streaming := false)
  }

  function WithData(d: Device, data: seq<Byte>): Device
    requires |d.ram| == 36 && |data| <= 36
  {
    d.(phase := DataIn, ram := data + d.ram[|data|..], ramLen := |data|, ramPos := 0, streaming := false)
  }

  function WithSectors(d: Device, lba: nat, count: nat): Device
  {
    d.(phase := DataIn, lba := lba, left := count, off := 0, streaming := true)
  }

  function Clipped(disk: Disk, lba: nat, count: nat): nat
    requires lba < disk.sectors
  {
    if lba + count > disk.sectors then disk.sectors - lba else count
  }

  // A whole command block has arrived.
  function Handled(disk: Disk, d: Device, cbw: seq<Byte>): Device
    requires DiskOk(disk) && |cbw| == CBW_SIZE && |d.tag| == 4 && |d.ram| == 36
  {
    if !Signed(cbw) then d
    else
      var t := d.(tag := TagOf(cbw));
      var op := Opcode(cbw);
      if op == TEST_UNIT_READY then WithStatus(t, 0)
      else if op == REQUEST_SENSE then WithData(t, SENSE)
      else if op == INQUIRY then WithData(t, IDENTITY)
      else if op == READ_CAPACITY10 then WithData(t, Capacity(disk))
      else if op == MODE_SENSE6 then WithData(t, MODE)
      else if op == READ10 then
        if ReadLba(cbw) >= disk.sectors then WithStatus(t, 1)
        else WithSectors(t, ReadLba(cbw), Clipped(disk, ReadLba(cbw), ReadCount(cbw)))
      else if op == WRITE10 then
        if LengthOf(cbw) == 0 then WithStatus(t.(discard := 0), 0) else t.(discard := LengthOf(cbw), phase := DataOut)
      else WithStatus(t, 1)
  }

  // ---- Events

  // A packet from the host.
  function Received(disk: Disk, d: Device, packet: seq<Byte>): Device
    requires DiskOk(disk) && Ok(d)
  {
    if d.phase == Command then
      var room := CBW_SIZE - |d.cbw|;
      var cbw := d.cbw + packet[..if |packet| < room then |packet| else room];
      if |cbw| == CBW_SIZE then Handled(disk, d.(cbw := []), cbw) else d.(cbw := cbw)
    else if d.phase == DataOut then
      if |packet| >= d.discard then WithStatus(d.(discard := 0), 0) else d.(discard := d.discard - |packet|)
    else d
  }

  // One byte of the disk, with the serial bytes laid over the start of the file.
  function DiskByte(disk: Disk, rx: seq<Byte>, addr: nat): Byte
  {
    if OVERLAY <= addr < OVERLAY + |rx| then rx[addr - OVERLAY]
    else if addr < |disk.image| then disk.image[addr]
    else 0
  }

  function DiskBytes(disk: Disk, rx: seq<Byte>, addr: nat, n: nat): (s: seq<Byte>)
    ensures |s| == n && forall k :: 0 <= k < n ==> s[k] == DiskByte(disk, rx, addr + k)
    decreases n
  {
    if n == 0 then [] else DiskBytes(disk, rx, addr, n - 1) + [DiskByte(disk, rx, addr + n - 1)]
  }

  // The host takes a packet: what it gets, if anything.
  function Polled(disk: Disk, d: Device): (Device, seq<Byte>)
    requires DiskOk(disk) && Ok(d)
  {
    if d.phase == DataIn && d.streaming then
      if d.left == 0 then (d, [])
      else
        var packet := DiskBytes(disk, d.rx, d.lba * SECTOR + d.off, PACKET);
        var wrapped := d.off + PACKET >= SECTOR;
        var moved := d.(off := if wrapped then 0 else d.off + PACKET,
                        lba := if wrapped then d.lba + 1 else d.lba,
                        left := if wrapped then d.left - 1 else d.left);
        (if moved.left == 0 then WithStatus(moved, 0) else moved, packet)
    else if d.phase == DataIn || d.phase == Status then
      var n := if d.ramLen - d.ramPos < PACKET then d.ramLen - d.ramPos else PACKET;
      var moved := d.(ramPos := d.ramPos + n);
      (if moved.ramPos < d.ramLen then moved
       else if d.phase == DataIn then WithStatus(moved, 0)
       else moved.(phase := Command, cbw := []),
       d.ram[d.ramPos..d.ramPos + n])
    else (d, [])
  }

  // The last serial bytes are kept.
  function Pushed(rx: seq<Byte>, b: Byte): seq<Byte>
  {
    if |rx| < RX_MAX then rx + [b] else rx[1..] + [b]
  }

  // A serial byte; the line is sampled only between commands.
  function Heard(d: Device, b: Byte): Device
  {
    if d.phase == Command then d.(rx := Pushed(d.rx, b)) else d
  }

  // Bulk-Only reset.
  function Reset(d: Device): Device { d.(phase := Command, cbw := []) }

  // ---- Every event keeps the device's state in order

  lemma AnswersOk(disk: Disk, d: Device, status: Byte, data: seq<Byte>, lba: nat, count: nat)
    requires Ok(d) && d.cbw == [] && 0 < |data| <= 36
    ensures Ok(WithStatus(d, status)) && WithStatus(d, status).rx == d.rx
    ensures Ok(WithData(d, data)) && WithData(d, data).rx == d.rx
    ensures Ok(WithSectors(d, lba, count)) && WithSectors(d, lba, count).rx == d.rx
  {}

  lemma HandledOk(disk: Disk, d: Device, cbw: seq<Byte>)
    requires DiskOk(disk) && Ok(d) && |cbw| == CBW_SIZE && d.phase == Command
    ensures Ok(Handled(disk, d.(cbw := []), cbw)) && Handled(disk, d.(cbw := []), cbw).rx == d.rx
  {
    hide Number, WithStatus, WithData, WithSectors, Capacity;
    var t := d.(cbw := [], tag := TagOf(cbw));
    AnswersOk(disk, t, 0, SENSE, 0, 0);
    AnswersOk(disk, t, 1, IDENTITY, 0, 0);
    AnswersOk(disk, t, 0, MODE, 0, 0);
    AnswersOk(disk, t, 0, Capacity(disk), 0, 0);
    AnswersOk(disk, t.(discard := 0), 0, MODE, 0, 0);
    if ReadLba(cbw) < disk.sectors {
      AnswersOk(disk, t, 0, MODE, ReadLba(cbw), Clipped(disk, ReadLba(cbw), ReadCount(cbw)));
    }
  }

  lemma ReceivedOk(disk: Disk, d: Device, packet: seq<Byte>)
    requires DiskOk(disk) && Ok(d)
    ensures Ok(Received(disk, d, packet)) && (d.phase != Command ==> Received(disk, d, packet).rx == d.rx)
  {
    hide Handled;
    if d.phase == Command {
      var room := CBW_SIZE - |d.cbw|;
      var cbw := d.cbw + packet[..if |packet| < room then |packet| else room];
      if |cbw| == CBW_SIZE { HandledOk(disk, d, cbw); }
    }
  }

  lemma PolledOk(disk: Disk, d: Device)
    requires DiskOk(disk) && Ok(d)
    ensures Ok(Polled(disk, d).0) && Polled(disk, d).0.rx == d.rx
  {}

  lemma HeardOk(d: Device, b: Byte)
    requires Ok(d)
    ensures Ok(Heard(d, b)) && Ok(Reset(d))
  {}
}
