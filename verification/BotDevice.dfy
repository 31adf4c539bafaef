// The device's state in place: packets come in through a callback, packets go out from the main loop.
module BotDevice {
  import opened Bytes
  import opened BotSpec
  import Memory

  class Bot {
    const disk: Disk
    const cbw: array<Byte>
    const ram: array<Byte>
    const rx: array<Byte>
    var phase: Phase
    var cbwFill: nat
    var tag: seq<Byte>
    var ramLen: nat
    var ramPos: nat
    var streaming: bool
    var sectorLba: nat
    var sectorsLeft: nat
    var sectorOff: nat
    var discardLeft: nat
    var rxLen: nat

    ghost predicate Shaped()
      reads this`cbwFill, this`rxLen
    {
      && DiskOk(disk)
      && cbw.Length == CBW_SIZE && ram.Length == 36 && rx.Length == RX_MAX
      && cbw != ram && cbw != rx && ram != rx
      && cbwFill <= CBW_SIZE && rxLen <= RX_MAX
    }

    ghost function View(): Device
      requires Shaped()
      reads this, cbw, ram, rx
    {
      Device(phase, cbw[..cbwFill], tag, ram[..], ramLen, ramPos, streaming,
             sectorLba, sectorsLeft, sectorOff, discardLeft, rx[..rxLen])
    }

    ghost predicate Valid()
      reads this, cbw, ram, rx
    {
      Shaped() && Ok(View())
    }

    constructor (disk: Disk)
      requires DiskOk(disk)
      ensures Valid() && Idle(View()) && rxLen == 0 && this.disk == disk && fresh(cbw) && fresh(ram) && fresh(rx)
    {
      this.disk := disk;
      cbw := new Byte[CBW_SIZE];
      ram := new Byte[36];
      rx := new Byte[RX_MAX];
      phase, cbwFill, tag, ramLen, ramPos := Command, 0, [0, 0, 0, 0], 0, 0;
      streaming, sectorLba, sectorsLeft, sectorOff, discardLeft, rxLen := false, 0, 0, 0, 0, 0;
    }

    method PrepareStatus(status: Byte)
      requires Shaped() && |tag| == 4
      modifies this`phase, this`ramLen, this`ramPos, this`streaming, ram
      ensures Shaped() && View() == WithStatus(old(View()), status)
    {
      Memory.Store(ram, 0, [0x55, 0x53, 0x42, 0x53]);
      Memory.Store(ram, 4, tag);
      Memory.Store(ram, 8, [0, 0, 0, 0]);
      ram[12] := status;
      ramLen, ramPos, streaming, phase := 13, 0, false, Status;
      assert ram[..] == Csw(tag, status) + old(ram[..])[13..];
    }

    method BeginData(data: seq<Byte>)
      requires Shaped() && |data| <= 36
      modifies this`phase, this`ramLen, this`ramPos, this`streaming, ram
      ensures Shaped() && View() == WithData(old(View()), data)
    {
      Memory.Store(ram, 0, data);
      ramLen, ramPos, streaming, phase := |data|, 0, false, DataIn;
      assert ram[..] == data + old(ram[..])[|data|..];
    }

    method BeginSectors(lba: nat, count: nat)
      requires Shaped()
      modifies this`phase, this`sectorLba, this`sectorsLeft, this`sectorOff, this`streaming
      ensures Shaped() && View() == WithSectors(old(View()), lba, count)
    {
      sectorLba, sectorsLeft, sectorOff, streaming, phase := lba, count, 0, true, DataIn;
    }

    // The command block is complete: acts on it, or drops it when it is not one.
    method HandleBlock()
      requires Shaped() && cbwFill == CBW_SIZE && |tag| == 4
      modifies this, ram
      ensures Shaped() && cbwFill == CBW_SIZE && cbw[..] == old(cbw[..]) && rxLen == old(rxLen)
      ensures View() == Handled(disk, old(View()), old(cbw[..]))
    {
      hide WithStatus, WithData, WithSectors, Number, Capacity;
      ghost var block := cbw[..];
      if cbw[0] != 0x55 || cbw[1] != 0x53 || cbw[2] != 0x42 || cbw[3] != 0x43 {
        assert !Signed(block);
        return;
      }
      assert Signed(block);
      tag := cbw[4..8];
      assert tag == TagOf(block);
      var op := cbw[15];
      if op == TEST_UNIT_READY {
        PrepareStatus(0);
      } else if op == REQUEST_SENSE {
        BeginData(SENSE);
      } else if op == INQUIRY {
        BeginData(IDENTITY);
      } else if op == READ_CAPACITY10 {
        BeginData(Capacity(disk));
      } else if op == MODE_SENSE6 {
        BeginData(MODE);
      } else if op == READ10 {
        HandleRead(block);
      } else if op == WRITE10 {
        HandleWrite(block);
      } else {
        PrepareStatus(1);
      }
    }

    method HandleRead(ghost block: seq<Byte>)
      requires Shaped() && |tag| == 4 && |block| == CBW_SIZE && block == cbw[..]
      modifies this`phase, this`ramLen, this`ramPos, this`streaming,
               this`sectorLba, this`sectorsLeft, this`sectorOff, ram
      ensures Shaped()
      ensures View() == if ReadLba(block) >= disk.sectors then WithStatus(old(View()), 1)
                        else WithSectors(old(View()), ReadLba(block), Clipped(disk, ReadLba(block), ReadCount(block)))
    {
      hide WithStatus, WithSectors, Number;
      var lba := Number(cbw[17], cbw[18], cbw[19], cbw[20]);
      var count := Number(0, 0, cbw[22], cbw[23]);
      if lba >= disk.sectors {
        PrepareStatus(1);
      } else {
        if lba + count > disk.sectors { count := disk.sectors - lba; }
        BeginSectors(lba, count);
      }
    }

    method HandleWrite(ghost block: seq<Byte>)
      requires Shaped() && |tag| == 4 && |block| == CBW_SIZE && block == cbw[..]
      modifies this`phase, this`ramLen, this`ramPos, this`streaming, this`discardLeft, ram
      ensures Shaped()
      ensures View() == if LengthOf(block) == 0 then WithStatus(old(View()).(discard := 0), 0)
                        else old(View()).(discard := LengthOf(block), phase := DataOut)
    {
      hide WithStatus, Number;
      discardLeft := Number(cbw[11], cbw[10], cbw[9], cbw[8]);
      if discardLeft == 0 { PrepareStatus(0); } else { phase := DataOut; }
    }

    // A packet from the host.
    method WriteOut(data: array<Byte>)
      requires Valid() && data != cbw && data != ram && data != rx
      modifies this, cbw, ram
      ensures Valid() && View() == Received(disk, old(View()), data[..])
    {
      hide Handled, WithStatus;
      ReceivedOk(disk, View(), data[..]);
      if phase == Command {
        var room := CBW_SIZE - cbwFill;
        var n := if data.Length < room then data.Length else room;
        ghost var was := View();
        Memory.Move(cbw, cbwFill, data, 0, n);
        cbwFill := cbwFill + n;
        assert cbw[..cbwFill] == was.cbw + data[..][..n];
        if cbwFill >= CBW_SIZE {
          Finish(was);
        }
      } else if phase == DataOut {
        var n := if data.Length > discardLeft then discardLeft else data.Length;
        discardLeft := discardLeft - n;
        if discardLeft == 0 { PrepareStatus(0); }
      }
    }

    method Finish(ghost was: Device)
      requires Shaped() && cbwFill == CBW_SIZE && |tag| == 4 && was.phase == Command && Ok(was)
      requires View() == was.(cbw := cbw[..])
      modifies this, ram
      ensures Shaped() && View() == Handled(disk, was.(cbw := []), old(cbw[..]))
    {
      hide WithStatus, WithData, WithSectors, Ok, Signed;
      HandleBlock();
      cbwFill := 0;
      Refilled(disk, was, cbw[..]);
    }

    // A serial byte; only between commands is the line looked at.
    method Receive(b: Byte)
      requires Valid()
      modifies rx, this`rxLen
      ensures Valid() && View() == Heard(old(View()), b)
    {
      hide Ok, Pushed;
      HeardOk(View(), b);
      if phase != Command { return; }
      Keep(b);
    }

    method Keep(b: Byte)
      requires rx.Length == RX_MAX && rxLen <= RX_MAX
      modifies rx, this`rxLen
      ensures rxLen <= RX_MAX && rx[..rxLen] == Pushed(old(rx[..rxLen]), b)
    {
      ghost var shown := rx[..rxLen];
      if rxLen < RX_MAX {
        rx[rxLen] := b;
        assert rx[..rxLen + 1] == shown + [b];
        rxLen := rxLen + 1;
      } else {
        assert shown == rx[..];
        Shift(rx, b);
        assert rx[..rxLen] == rx[..];
      }
    }

    static method Shift(a: array<Byte>, b: Byte)
      requires a.Length > 0
      modifies a
      ensures a[..] == old(a[..])[1..] + [b]
    {
      ghost var was := a[..];
      Memory.Move(a, 0, a, 1, a.Length - 1);
      a[a.Length - 1] := b;
      assert forall i :: 0 <= i < a.Length - 1 ==> a[i] == was[i + 1];
    }

    // The host takes a packet.
    method Poll() returns (packet: seq<Byte>)
      requires Valid()
      modifies this, ram
      ensures Valid() && (View(), packet) == Polled(disk, old(View()))
    {
      hide DiskBytes, WithStatus;
      PolledOk(disk, View());
      packet := [];
      if phase == DataIn && streaming {
        if sectorsLeft == 0 { return; }
        packet := NextChunk();
        if sectorsLeft == 0 && sectorOff == 0 { PrepareStatus(0); }
      } else if phase == DataIn || phase == Status {
        var remaining := ramLen - ramPos;
        var n := if remaining < PACKET then remaining else PACKET;
        packet := ram[ramPos..ramPos + n];
        ramPos := ramPos + n;
        if ramPos >= ramLen {
          if phase == DataIn {
            PrepareStatus(0);
          } else {
            phase := Command;
            cbwFill := 0;
          }
        }
      }
    }

    // The next bytes of the sectors being read.
    method NextChunk() returns (chunk: seq<Byte>)
      requires Shaped() && sectorsLeft > 0 && sectorOff % PACKET == 0 && sectorOff < SECTOR
      modifies this`sectorLba, this`sectorsLeft, this`sectorOff
      ensures Shaped()
      ensures var d := old(View());
              && chunk == DiskBytes(disk, d.rx, d.lba * SECTOR + d.off, PACKET)
              && View() == if d.off + PACKET >= SECTOR then d.(off := 0, lba := d.lba + 1, left := d.left - 1)
                           else d.(off := d.off + PACKET)
    {
      hide DiskBytes, Ok, DiskByte;
      chunk := [];
      ghost var addr, off, shown := sectorLba * SECTOR + sectorOff, sectorOff, rx[..rxLen];
      ghost var lba, left := sectorLba, sectorsLeft;
      while |chunk| < PACKET
        invariant |chunk| <= PACKET && Shaped() && rx[..rxLen] == shown
        invariant |chunk| < PACKET || off + PACKET < SECTOR ==>
                    sectorLba == lba && sectorOff == off + |chunk| && sectorsLeft == left
        invariant |chunk| == PACKET && off + PACKET == SECTOR ==>
                    sectorLba == lba + 1 && sectorOff == 0 && sectorsLeft == left - 1
        invariant forall k :: 0 <= k < |chunk| ==> chunk[k] == DiskByte(disk, shown, addr + k)
        decreases PACKET - |chunk|
      {
        assert sectorLba * SECTOR + sectorOff == addr + |chunk|;
        var b := ByteAt(sectorLba * SECTOR + sectorOff);
        chunk := chunk + [b];
        sectorOff := sectorOff + 1;
        if sectorOff >= SECTOR {
          sectorOff := 0;
          sectorLba := sectorLba + 1;
          sectorsLeft := sectorsLeft - 1;
          if sectorsLeft == 0 { break; }
        }
      }
      assert chunk == DiskBytes(disk, shown, addr, PACKET);
    }

    method ByteAt(addr: nat) returns (b: Byte)
      requires Shaped()
      ensures b == DiskByte(disk, rx[..rxLen], addr)
    {
      if OVERLAY <= addr && addr < OVERLAY + rxLen {
        b := rx[addr - OVERLAY];
      } else {
        b := if addr < |disk.image| then disk.image[addr] else 0;
      }
    }
  }

  // Whether the fill level is reset before or after the block is handled makes no difference.
  lemma Refilled(disk: Disk, d: Device, block: seq<Byte>)
    requires DiskOk(disk) && |block| == CBW_SIZE && |d.tag| == 4 && |d.ram| == 36
    ensures Handled(disk, d.(cbw := block), block).(cbw := []) == Handled(disk, d.(cbw := []), block)
  {
    hide Number, Capacity, WithStatus, WithData, WithSectors, Signed, TagOf, LengthOf, ReadCount;
    assert |TagOf(block)| == 4 by { TagSize(block); }
    var t := d.(tag := TagOf(block));
    RefilledStatus(t, block, 0);
    RefilledStatus(t, block, 1);
    RefilledStatus(t.(discard := 0), block, 0);
    RefilledData(t, block, SENSE);
    RefilledData(t, block, IDENTITY);
    RefilledData(t, block, Capacity(disk));
    RefilledData(t, block, MODE);
    if ReadLba(block) < disk.sectors {
      RefilledSectors(t, block, ReadLba(block), Clipped(disk, ReadLba(block), ReadCount(block)));
    }
  }

  lemma TagSize(block: seq<Byte>)
    requires |block| == CBW_SIZE
    ensures |TagOf(block)| == 4
  {}

  lemma RefilledStatus(d: Device, block: seq<Byte>, status: Byte)
    requires |d.tag| == 4 && |d.ram| == 36
    ensures WithStatus(d.(cbw := block), status).(cbw := []) == WithStatus(d.(cbw := []), status)
  {}

  lemma RefilledData(d: Device, block: seq<Byte>, data: seq<Byte>)
    requires |d.ram| == 36 && |data| <= 36
    ensures WithData(d.(cbw := block), data).(cbw := []) == WithData(d.(cbw := []), data)
  {}

  lemma RefilledSectors(d: Device, block: seq<Byte>, lba: nat, count: nat)
    ensures WithSectors(d.(cbw := block), lba, count).(cbw := []) == WithSectors(d.(cbw := []), lba, count)
  {}
}
