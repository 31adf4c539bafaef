// The commands octet by octet, and what a host gets for them.
module BotLaw {
  import opened Bytes
  import opened BotSpec
  import opened BotRuns

  // A number in four octets, highest first and lowest first.
  function High4(v: nat): seq<Byte> { [v / 16777216 % 256, v / 65536 % 256, v / 256 % 256, v % 256] }
  function Low4(v: nat): seq<Byte> { [v % 256, v / 256 % 256, v / 65536 % 256, v / 16777216 % 256] }

  // A command block: signature, tag, length of the data, direction, unit, and the command itself.
  function Block(tag: seq<Byte>, length: nat, flags: Byte, command: seq<Byte>): (cbw: seq<Byte>)
    requires |tag| == 4 && |command| == 16
    ensures |cbw| == 31
  {
    [0x55, 0x53, 0x42, 0x43] + tag + Low4(length) + [flags, 0, |command|] + command
  }

  // READ(10) and WRITE(10) of `count` sectors from `lba` on.
  function Read10(lba: nat, count: nat): (c: seq<Byte>)
    ensures |c| == 16
  {
    [0x28, 0] + High4(lba) + [0, count / 256 % 256, count % 256] + [0, 0, 0, 0, 0, 0, 0]
  }

  function Write10(lba: nat, count: nat): (c: seq<Byte>)
    ensures |c| == 16
  {
    [0x2A, 0] + High4(lba) + [0, count / 256 % 256, count % 256] + [0, 0, 0, 0, 0, 0, 0]
  }

  function Bare(op: Byte): (c: seq<Byte>)
    ensures |c| == 16 && c[0] == op
  {
    [op, 0, 0, 0, 0, 0, 0, 0, 0, 0, 0, 0, 0, 0, 0, 0]
  }

  // Where the parts of a block are.
  lemma BlockParts(tag: seq<Byte>, length: nat, flags: Byte, command: seq<Byte>)
    requires |tag| == 4 && |command| == 16
    ensures var cbw := Block(tag, length, flags, command);
            && Signed(cbw) && TagOf(cbw) == tag
            && (forall i :: 0 <= i < 4 ==> cbw[8 + i] == Low4(length)[i])
            && (forall i :: 0 <= i < 16 ==> cbw[15 + i] == command[i])
  {
    hide Low4;
  }

  lemma NumberBack(v: nat)
    requires v < 0x1_0000_0000
    ensures Number(High4(v)[0], High4(v)[1], High4(v)[2], High4(v)[3]) == v
    ensures Number(Low4(v)[3], Low4(v)[2], Low4(v)[1], Low4(v)[0]) == v
  {
    FourOctets(v);
    TopOctet(v);
  }

  lemma TopOctet(v: nat)
    requires v < 0x1_0000_0000
    ensures v / 16777216 % 256 == v / 16777216
  {}

  lemma TwoOctets(v: nat)
    requires v < 0x1_0000
    ensures Number(0, 0, v / 256 % 256, v % 256) == v
  {}

  // What the host gets for a block: its data, then the status block with its tag.
  function Answer(disk: Disk, rx: seq<Byte>, cbw: seq<Byte>): seq<Byte>
    requires DiskOk(disk) && |cbw| == CBW_SIZE
  {
    DataPhase(disk, rx, cbw) + Csw(TagOf(cbw), StatusOf(disk, cbw))
  }

  function Status(tag: seq<Byte>, failed: bool): seq<Byte>
    requires |tag| == 4
  {
    [0x55, 0x53, 0x42, 0x53] + tag + [0, 0, 0, 0, if failed then 1 else 0]
  }

  // Byte i of a disk as the host sees it: the serial bytes lie over it from byte 1536 on, and what
  // is past the image is zero.
  function Shown(disk: Disk, rx: seq<Byte>, i: nat): Byte
  {
    if 1536 <= i < 1536 + |rx| then rx[i - 1536] else if i < |disk.image| then disk.image[i] else 0
  }

  lemma ReadFields(tag: seq<Byte>, length: nat, lba: nat, count: nat)
    requires |tag| == 4 && lba < 0x1_0000_0000 && count < 0x1_0000
    ensures var cbw := Block(tag, length, 0x80, Read10(lba, count));
            && Signed(cbw) && TagOf(cbw) == tag && Opcode(cbw) == READ10
            && ReadLba(cbw) == lba && ReadCount(cbw) == count
  {
    BlockParts(tag, length, 0x80, Read10(lba, count));
    CommandParts(lba, count);
    NumberBack(lba);
    TwoOctets(count);
    hide Block, Read10, High4, Number;
    var (cbw, c) := (Block(tag, length, 0x80, Read10(lba, count)), Read10(lba, count));
    assert cbw[15] == c[0] && cbw[22] == c[7] && cbw[23] == c[8];
    assert cbw[17] == c[2] && cbw[18] == c[3] && cbw[19] == c[4] && cbw[20] == c[5];
  }

  lemma CommandParts(lba: nat, count: nat)
    ensures var c := Read10(lba, count);
            && c[0] == READ10 && c[7] == count / 256 % 256 && c[8] == count % 256
            && c[2] == High4(lba)[0] && c[3] == High4(lba)[1] && c[4] == High4(lba)[2] && c[5] == High4(lba)[3]
  {
    hide High4;
  }

  // A read gets the sectors asked for, as many of them as the disk has, and a failure without
  // data when the first is not on it.
  lemma ReadGets(disk: Disk, rx: seq<Byte>, tag: seq<Byte>, length: nat, lba: nat, count: nat)
    requires DiskOk(disk) && |tag| == 4 && lba < 0x1_0000_0000 && count < 0x1_0000
    ensures var cbw := Block(tag, length, 0x80, Read10(lba, count));
            var n := if lba >= disk.sectors then 0
                     else if lba + count > disk.sectors then disk.sectors - lba else count;
            var a := Answer(disk, rx, cbw);
            && Signed(cbw) && (ZeroRead(disk, cbw) <==> lba < disk.sectors && count == 0)
            && NeedsOut(cbw) == 0 && |a| == n * 512 + 13
            && (forall i :: 0 <= i < n * 512 ==> a[i] == Shown(disk, rx, lba * 512 + i))
            && a[n * 512..] == Status(tag, lba >= disk.sectors)
  {
    hide Block, Read10, Signed, TagOf, Opcode, ReadLba, ReadCount, Shown, DiskByte;
    var cbw := Block(tag, length, 0x80, Read10(lba, count));
    ReadFields(tag, length, lba, count);
    forall i: nat ensures DiskByte(disk, rx, i) == Shown(disk, rx, i) { ByteShown(disk, rx, i); }
  }

  lemma ByteShown(disk: Disk, rx: seq<Byte>, i: nat)
    ensures DiskByte(disk, rx, i) == Shown(disk, rx, i)
  {}

  // A write takes as many bytes as its block says and succeeds.
  lemma WriteTakes(disk: Disk, rx: seq<Byte>, tag: seq<Byte>, length: nat, lba: nat, count: nat)
    requires DiskOk(disk) && |tag| == 4 && length < 0x1_0000_0000
    ensures var cbw := Block(tag, length, 0, Write10(lba, count));
            && Signed(cbw) && !ZeroRead(disk, cbw) && NeedsOut(cbw) == length
            && Answer(disk, rx, cbw) == Status(tag, false)
  {
    BlockParts(tag, length, 0, Write10(lba, count));
    var cbw := Block(tag, length, 0, Write10(lba, count));
    assert cbw[15] == Write10(lba, count)[0] && cbw[8] == Low4(length)[0];
    NumberBack(length);
    hide Block, Low4;
  }

  // The commands without parameters. The capacity is the last sector's number and the sector size,
  // highest octet first; the other answers say of themselves how long they are, that the disk is
  // removable, and that it is write-protected; the sense data reports no error; what is not
  // supported fails without data.
  lemma BareGets(disk: Disk, rx: seq<Byte>, tag: seq<Byte>, length: nat, op: Byte)
    requires DiskOk(disk) && |tag| == 4 && op != READ10 && op != WRITE10
    ensures var cbw := Block(tag, length, 0x80, Bare(op));
            var data := DataPhase(disk, rx, cbw);
            var failed := op !in [0x00, 0x03, 0x12, 0x1A, 0x25];
            && Signed(cbw) && !ZeroRead(disk, cbw) && NeedsOut(cbw) == 0
            && Answer(disk, rx, cbw) == data + Status(tag, failed)
            && (op == 0x00 || failed ==> data == [])
            && (op == 0x25 ==> |data| == 8 && data[4..] == [0, 0, 2, 0]
                               && Number(data[0], data[1], data[2], data[3]) == disk.sectors - 1)
            && (op == 0x12 ==> |data| == 36 && data[0] == 0 && data[1] == 0x80 && data[4] == |data| - 5
                               && forall i :: 0 <= i < 28 ==> data[8 + i] == PRODUCT[i] as int)
            && (op == 0x03 ==> |data| == 18 && data[0] == 0x70 && data[2] == 0 && data[7] == |data| - 8)
            && (op == 0x1A ==> |data| == 4 && data[0] == |data| - 1 && data[2] == 0x80)
  {
    hide Block, Bare, Signed, TagOf, Opcode, Number, Capacity, Status, Csw, SENSE, IDENTITY, MODE;
    BareFields(tag, length, op);
    CapacityBack(disk);
    StatusLooks(tag);
    FixedAnswers();
  }

  lemma BareFields(tag: seq<Byte>, length: nat, op: Byte)
    requires |tag| == 4
    ensures var cbw := Block(tag, length, 0x80, Bare(op)); Signed(cbw) && TagOf(cbw) == tag && Opcode(cbw) == op
  {
    BlockParts(tag, length, 0x80, Bare(op));
    var cbw := Block(tag, length, 0x80, Bare(op));
    assert cbw[15] == Bare(op)[0];
  }

  // Vendor, product and revision, padded with spaces.
  const PRODUCT: string := "DIGISPRKFAKE MSC TEST   1.0 "

  lemma FixedAnswers()
    ensures forall i :: 0 <= i < 28 ==> IDENTITY[8 + i] == PRODUCT[i] as int
    ensures |IDENTITY| == 36 && IDENTITY[0] == 0 && IDENTITY[1] == 0x80 && IDENTITY[4] == 31
    ensures |SENSE| == 18 && SENSE[0] == 0x70 && SENSE[2] == 0 && SENSE[7] == 10
    ensures |MODE| == 4 && MODE[0] == 3 && MODE[2] == 0x80
  {}

  lemma CapacityBack(disk: Disk)
    requires DiskOk(disk)
    ensures var data := Capacity(disk);
            |data| == 8 && data[4..] == [0, 0, 2, 0] && Number(data[0], data[1], data[2], data[3]) == disk.sectors - 1
  {
    var last := disk.sectors - 1;
    NumberBack(last);
    assert Capacity(disk) == High4(last) + [0, 0, 2, 0];
    hide Capacity, Number, High4;
  }

  lemma StatusLooks(tag: seq<Byte>)
    requires |tag| == 4
    ensures Csw(tag, 0) == Status(tag, false) && Csw(tag, 1) == Status(tag, true)
  {}

  // A block without the signature is dropped: nothing is sent, and the device waits for the next.
  lemma UnsignedDropped(disk: Disk, d: Device, block: seq<Event>, cbw: seq<Byte>)
    requires DiskOk(disk) && Idle(d) && Arrives(block, cbw) && cbw[..4] != [0x55, 0x53, 0x42, 0x43]
    ensures var (d', sent) := After(disk, d, block, |block|); sent == [] && Idle(d')
  {
    hide After, Arrives, PushAll, SerialBytes;
    CommandArrives(disk, d, block, cbw);
    assert |cbw| == CBW_SIZE by { BlockSize(block, cbw); }
  }

  // Over a whole exchange, whatever packets, polls and serial bytes come between: the host that
  // asked for sectors inside the disk has their bytes, and the status of its command.
  lemma ReadCompletes(disk: Disk, d: Device, x: Exchange, tag: seq<Byte>, length: nat, lba: nat, count: nat)
    requires DiskOk(disk) && Idle(d) && Proper(disk, x) && |tag| == 4 && lba < disk.sectors && 0 < count < 0x1_0000
    requires BlockOf(x) == Block(tag, length, 0x80, Read10(lba, count))
    ensures |d.rx| <= 48
    ensures var (d', sent) := Exchanged(disk, d, x);
            var all := d.rx + SerialBytes(x.block, |x.block|);
            var rx := if |all| <= 48 then all else all[|all| - 48..];
            var n := if lba + count > disk.sectors then disk.sectors - lba else count;
            && Idle(d') && d'.rx == rx && |sent| == n * 512 + 13
            && (forall i :: 0 <= i < n * 512 ==> sent[i] == Shown(disk, rx, lba * 512 + i))
            && sent[n * 512..] == Status(tag, false)
  {
    hide Block, Read10, Shown, DataPhase, StatusOf, Csw, Exchanged, SerialBytes, Proper, Status, Number;
    CommandCompletes(disk, d, x);
    ShowsTheLast(d.rx, SerialBytes(x.block, |x.block|));
    ReadGets(disk, RxAt(d, x), tag, length, lba, count);
  }

  // A reset makes the device ready for a command from any state, in the middle of a block as well,
  // and keeps the serial bytes.
  lemma ResetReadies(d: Device)
    requires Ok(d)
    ensures Idle(Reset(d)) && Reset(d).rx == d.rx
  {}
}
