/** Reading the serial EEPROM (rtw_eeprom.c): the bit-banged bus master on one side,
    a 93C46-style device stepped on clock edges on the other, and together a plain
    array of bytes. */
module Eeprom {
  import opened Octets
  import opened Powers

  type bit = b: nat | b < 2
  type word = w: nat | w < 0x1_0000

  /** Start bit, then the two opcode bits of READ. */
  const EEPROM_READ_OPCODE := 6

  /** The low n bits of data, most significant first. */
  function Bits(data: nat, n: nat): (s: seq<bit>)
    ensures |s| == n
  {
    if n == 0 then [] else Bits(data / 2, n - 1) + [data % 2]
  }

  lemma {:induction false} BitsAt(data: nat, n: nat, i: nat)
    requires i < n
    ensures Bits(data, n)[i] == data / Pow2(n - 1 - i) % 2
  {
    if i < n - 1 {
      BitsAt(data / 2, n - 1, i);
      DivPow2(data, n - 2 - i);
    }
  }

  // ----- the device

  /** The register's bits: mode, chip select, clock, data to and from the device. */
  datatype Reg = Reg(eem1: bit, eem0: bit, eecs: bit, eesk: bit, eedi: bit, eedo: bit)

  /** Idle until a start bit; then opcode, address, and data on the output pin. */
  datatype Device =
    | Idle
    | Opcode(count: nat, value: nat)
    | Address(count: nat, value: nat)
    | Output(at: nat, next: nat, pin: bit)
    | Busy

  predicate Selected(x: Reg) {
    x.eem1 == 1 && x.eem0 == 0 && x.eecs == 1
  }

  /** Bit k, most significant first, of the word at a. */
  function DataBit(mem: seq<word>, a: nat, k: nat): bit
    requires |mem| > 0
  {
    if k > 15 then 0 else mem[a % |mem|] / Pow2(15 - k) % 2
  }

  /** A rising clock edge while the chip is selected. Behind the last address bit the
      pin shows a zero; then every edge puts out the next data bit, word after word. */
  function Clock(d: Device, di: bit, mem: seq<word>, addrSize: nat): Device
    requires |mem| == Pow2(addrSize)
  {
    match d
    case Idle => if di == 1 then Opcode(0, 0) else Idle
    case Opcode(0, _) => Opcode(1, di)
    case Opcode(_, v) => if 2 * v + di == 2 then Address(0, 0) else Busy
    case Address(n, v) =>
      if n + 1 < addrSize then Address(n + 1, 2 * v + di) else Output((2 * v + di) % |mem|, 0, 0)
    case Output(a, k, _) =>
      if k >= 15 then Output((a + 1) % |mem|, 0, DataBit(mem, a, k)) else Output(a, k + 1, DataBit(mem, a, k))
    case Busy => Busy
  }

  function Pin(d: Device): bit {
    if d.Output? then d.pin else 1
  }

  /** What a register write does to the device. */
  function Wired(d: Device, before: Reg, after: Reg, mem: seq<word>, addrSize: nat): Device
    requires |mem| == Pow2(addrSize)
  {
    if !Selected(after) then Idle
    else if before.eesk == 0 && after.eesk == 1 then Clock(d, after.eedi, mem, addrSize)
    else d
  }

  function Feed(d: Device, bits: seq<bit>, mem: seq<word>, addrSize: nat): Device
    requires |mem| == Pow2(addrSize)
  {
    if bits == [] then d else Clock(Feed(d, bits[..|bits|-1], mem, addrSize), bits[|bits|-1], mem, addrSize)
  }

  lemma FeedLast(d: Device, bits: seq<bit>, x: bit, mem: seq<word>, addrSize: nat)
    requires |mem| == Pow2(addrSize)
    ensures Feed(d, bits + [x], mem, addrSize) == Clock(Feed(d, bits, mem, addrSize), x, mem, addrSize)
  {
    assert (bits + [x])[..|bits|] == bits;
  }

  /** n address bits make the device hold the low n bits of the address sent. */
  lemma {:induction false} FeedAddress(data: nat, n: nat, mem: seq<word>, addrSize: nat)
    requires |mem| == Pow2(addrSize) && 1 <= n <= addrSize
    ensures Feed(Address(0, 0), Bits(data, n), mem, addrSize)
            == if n < addrSize then Address(n, data % Pow2(n)) else Output(data % Pow2(n), 0, 0)
  {
    hide Pow2, Bits, Feed, Clock;
    FeedLast(Address(0, 0), Bits(data / 2, n - 1), data % 2, mem, addrSize);
    BitsLast(data, n);
    ModPow2(data, n - 1);
    ClockAddress(n - 1, data / 2 % Pow2(n - 1), data % 2, mem, addrSize);
    if n > 1 {
      FeedAddress(data / 2, n - 1, mem, addrSize);
    } else {
      FeedNone(Address(0, 0), Bits(data / 2, 0), mem, addrSize);
      ModOne(data / 2);
    }
  }

  lemma ClockAddress(n: nat, v: nat, di: bit, mem: seq<word>, addrSize: nat)
    requires |mem| == Pow2(addrSize) && n < addrSize
    ensures n + 1 < addrSize ==> Clock(Address(n, v), di, mem, addrSize) == Address(n + 1, 2 * v + di)
    ensures n + 1 == addrSize && 2 * v + di < |mem| ==>
            Clock(Address(n, v), di, mem, addrSize) == Output(2 * v + di, 0, 0)
  {
    hide DataBit;
    SmallMod(2 * v + di, |mem|);
  }

  lemma BitsLast(data: nat, n: nat)
    requires n > 0
    ensures Bits(data, n) == Bits(data / 2, n - 1) + [data % 2]
  {
  }

  lemma FeedNone(d: Device, bits: seq<bit>, mem: seq<word>, addrSize: nat)
    requires |mem| == Pow2(addrSize) && |bits| == 0
    ensures Feed(d, bits, mem, addrSize) == d
  {
  }

  /** The read opcode and an address leave the device ready to put out that word. */
  lemma FeedRead(reg: nat, mem: seq<word>, addrSize: nat)
    requires |mem| == Pow2(addrSize) && addrSize >= 1
    ensures Bits(EEPROM_READ_OPCODE, 3) == [1, 1, 0]
    ensures Feed(Idle, Bits(EEPROM_READ_OPCODE, 3), mem, addrSize) == Address(0, 0)
    ensures Feed(Address(0, 0), Bits(reg, addrSize), mem, addrSize) == Output(reg % |mem|, 0, 0)
  {
    hide Pow2, Bits, Feed;
    OpcodeBits();
    FeedNone(Idle, [], mem, addrSize);
    FeedLast(Idle, [], 1, mem, addrSize);
    FeedLast(Idle, [] + [1], 1, mem, addrSize);
    FeedLast(Idle, [] + [1] + [1], 0, mem, addrSize);
    FeedAddress(reg, addrSize, mem, addrSize);
  }

  lemma OpcodeBits()
    ensures Bits(EEPROM_READ_OPCODE, 3) == [] + [1] + [1] + [0]
  {
    assert Bits(0, 0) == [];
    assert Bits(1, 1) == [1];
    assert Bits(3, 2) == [1, 1];
  }

  // ----- the bus master

  class Bus {
    const mem: seq<word>
    const addrSize: nat
    /** How often the master may ask before the adapter reports that it was removed. */
    const alive: nat
    var reg: Reg
    var dev: Device
    var polls: nat
    /** The data bits the device saw on rising edges. */
    ghost var edges: seq<bit>

    ghost predicate Valid()
      reads this
    {
      |mem| == Pow2(addrSize) && 1 <= addrSize <= 16
    }

    /** No poll has reported the removal. */
    predicate Present()
      reads this`polls
    {
      polls <= alive
    }

    constructor (mem: seq<word>, addrSize: nat, alive: nat, reg: Reg)
      requires |mem| == Pow2(addrSize) && 1 <= addrSize <= 16
      ensures Valid() && dev == Idle && this.mem == mem && this.addrSize == addrSize && this.alive == alive
              && polls == 0
    {
      this.mem, this.addrSize, this.alive, this.reg := mem, addrSize, alive, reg;
      dev, polls, edges := Idle, 0, [];
    }

    /** `rtw_is_surprise_removed`. */
    method Removed() returns (r: bool)
      modifies this`polls
      ensures polls == old(polls) + 1 && r == !Present()
    {
      polls := polls + 1;
      return polls > alive;
    }

    /** `rtw_read8` of EE_9346CR: the data-out bit is the device's pin. */
    method Read8() returns (x: Reg)
      ensures x == reg.(eedo := Pin(dev))
    {
      x := reg.(eedo := Pin(dev));
    }

    /** `rtw_write8` of EE_9346CR. */
    method Write8(x: Reg)
      requires Valid()
      modifies this`reg, this`dev, this`edges
      ensures reg == x && dev == Wired(old(dev), old(reg), x, mem, addrSize)
      ensures edges == old(edges) + if Selected(x) && old(reg).eesk == 0 && x.eesk == 1 then [x.eedi] else []
    {
      dev := Wired(dev, reg, x, mem, addrSize);
      if Selected(x) && reg.eesk == 0 && x.eesk == 1 {
        edges := edges + [x.eedi];
      }
      reg := x;
    }

    /** `up_clk` and `down_clk`. */
    method UpClk(x: Reg) returns (y: Reg)
      requires Valid()
      modifies this`reg, this`dev, this`edges
      ensures y == x.(eesk := 1) == reg && dev == Wired(old(dev), old(reg), y, mem, addrSize)
      ensures edges == old(edges) + if Selected(y) && old(reg).eesk == 0 then [y.eedi] else []
    {
      y := x.(eesk := 1);
      Write8(y);
    }

    method DownClk(x: Reg) returns (y: Reg)
      requires Valid()
      modifies this`reg, this`dev, this`edges
      ensures y == x.(eesk := 0) == reg && dev == Wired(old(dev), old(reg), y, mem, addrSize)
      ensures edges == old(edges)
    {
      y := x.(eesk := 0);
      Write8(y);
    }

    /** `shift_out_bits`: the device sees exactly the low count bits of data, most
        significant first, one on each rising edge, unless the adapter is removed. */
    method ShiftOutBits(data: word, count: nat)
      requires Valid() && 1 <= count <= 16 && (Present() ==> Selected(reg) && reg.eesk == 0)
      modifies this`reg, this`dev, this`edges, this`polls
      ensures polls > old(polls)
      ensures Present() ==>
              edges == old(edges) + Bits(data, count) && dev == Feed(old(dev), Bits(data, count), mem, addrSize)
      ensures Present() ==> Selected(reg) && reg.eesk == 0 && reg.eedi == 0
    {
      hide Bits, Feed, Clock, Pow2, Shr;
      var gone := Removed();
      if gone { return; }
      var mask, i := Pow2(count - 1), 0;
      var x := Read8();
      x := x.(eedo := 0, eedi := 0);
      NothingSent(data, count, dev, mem, addrSize);
      ghost var sent: seq<bit> := [];
      while mask != 0
        invariant i <= count && polls > old(polls) && Present()
        invariant mask == if i < count then Pow2(count - 1 - i) else 0
        invariant Selected(x) && x.eesk == 0 && x.eedo == 0 && Selected(reg) && reg.eesk == 0
        invariant sent == Bits(Shr(data, count - i), i)
        invariant edges == old(edges) + sent && dev == Feed(old(dev), sent, mem, addrSize)
        decreases count - i
      {
        x := x.(eedi := data / mask % 2);
        gone := Removed();
        if gone { return; }
        Write8(x);
        x := UpClk(x);
        x := DownClk(x);
        ghost var next := sent + [data / mask % 2];
        FeedLast(old(dev), sent, data / mask % 2, mem, addrSize);
        NextBit(data, count, i);
        sent := next;
        i := i + 1;
        HalfMask(count, i);
        mask := mask / 2;
      }
      gone := Removed();
      if gone { return; }
      x := x.(eedi := 0);
      Write8(x);
    }

    /** `shift_in_bits`: sixteen data bits make the word the device puts out. */
    method ShiftInBits(ghost at: nat) returns (d: word)
      requires Valid() && at < |mem|
      requires Present() ==> Selected(reg) && reg.eesk == 0 && dev.Output? && dev.at == at && dev.next == 0
      modifies this`reg, this`dev, this`edges, this`polls
      ensures polls > old(polls)
      ensures Present() ==> d == mem[at] && Selected(reg) && reg.eesk == 0
    {
      hide Pow2, Shr, DataBit;
      var gone := Removed();
      if gone { return 0; }
      var x := Read8();
      x := x.(eedo := 0, eedi := 0);
      d := 0;
      NothingIn(mem[at]);
      for i: nat := 0 to 16
        invariant polls > old(polls) && Present()
        invariant Selected(x) && x.eesk == 0 && x.eedi == 0 && Selected(reg) && reg.eesk == 0
        invariant d == Shr(mem[at], 16 - i)
        invariant i < 16 ==> dev.Output? && dev.at == at && dev.next == i
      {
        NextIn(mem, at, i);
        x := UpClk(x);
        gone := Removed();
        if gone { return; }
        x := Read8();
        x := x.(eedi := 0);
        d := 2 * d + x.eedo;
        x := DownClk(x);
      }
    }

    /** `eeprom_clean`: a last clock pulse with the chip no longer selected. */
    method Clean()
      requires Valid()
      modifies this`reg, this`dev, this`edges, this`polls
      ensures polls > old(polls)
      ensures Present() ==> dev == Idle && reg.eecs == 0
    {
      var gone := Removed();
      if gone { return; }
      var x := Read8();
      gone := Removed();
      if gone { return; }
      x := x.(eecs := 0, eedi := 0);
      Write8(x);
      gone := Removed();
      if gone { return; }
      x := UpClk(x);
      gone := Removed();
      if gone { return; }
      x := DownClk(x);
    }

    /** `eeprom_read16`: the addressed word, whatever the register held before. */
    method Read16(r: word) returns (data: word)
      requires Valid() && (Present() ==> dev == Idle)
      modifies this`reg, this`dev, this`edges, this`polls
      ensures polls > old(polls)
      ensures Present() ==> data == mem[r % |mem|] && dev == Idle
    {
      hide Bits, Feed, Clock, Pow2;
      data := 0;
      var gone := Removed();
      if gone { return; }
      var x := Read8();
      gone := Removed();
      if gone { return; }
      x := Reg(1, 0, 1, 0, 0, 0);
      Write8(x);
      FeedRead(r, mem, addrSize);
      ShiftOutBits(EEPROM_READ_OPCODE, 3);
      ShiftOutBits(r, addrSize);
      data := ShiftInBits(r % |mem|);
      Clean();
    }

    /** `eeprom_read`: the bytes from addrOff on, odd or even, into rbuf. A size of zero
        at an odd offset wraps to 255 behind the first byte and fills 256 bytes. */
    method Read(addrOff: nat, sz: byte, rbuf: array<byte>)
      requires Valid() && (Present() ==> dev == Idle) && rbuf.Length >= Window(addrOff, sz)
      modifies this`reg, this`dev, this`edges, this`polls, rbuf
      ensures Present() ==> dev == Idle && Holds(rbuf[..], mem, addrOff, Window(addrOff, sz))
      ensures Kept(old(rbuf[..]), rbuf[..], Window(addrOff, sz))
    {
      hide Pow2, ByteAt, Holds, Kept, Window;
      WindowIs(addrOff, sz);
      FirstReg(addrOff);
      var reg16: word, left: byte := addrOff / 2 % 0x1_0000, sz;
      ghost var was := rbuf[..];
      HoldsNothing(was, mem, addrOff, Window(addrOff, sz));
      if addrOff % 2 == 1 {
        var stmp := Read16(reg16);
        Halves(mem, addrSize, addrOff - 1, reg16);
        HoldsOne(rbuf[..], mem, addrOff, 0, stmp / 256);
        KeptOne(was, rbuf[..], Window(addrOff, sz), 0, stmp / 256);
        rbuf[0] := stmp / 256;
        reg16, left := (reg16 + 1) % 0x1_0000, (sz - 1) % 256;
      }
      ReadEven(addrOff, reg16, left, rbuf, was);
    }

    /** The words from register reg16 on, and the low half of one more. */
    method ReadEven(addrOff: nat, reg16: word, left: byte, rbuf: array<byte>, ghost was: seq<byte>)
      requires Valid() && reg16 == (addrOff + addrOff % 2) / 2 % 0x1_0000 && addrOff % 2 + left <= rbuf.Length
      requires Present() ==> dev == Idle && Holds(rbuf[..], mem, addrOff, addrOff % 2)
      requires Kept(was, rbuf[..], addrOff % 2 + left)
      modifies this`reg, this`dev, this`edges, this`polls, rbuf
      ensures Present() ==> dev == Idle && Holds(rbuf[..], mem, addrOff, addrOff % 2 + left)
      ensures Kept(was, rbuf[..], addrOff % 2 + left)
    {
      hide Pow2, ByteAt, Holds, Kept;
      var idx := addrOff % 2;
      for i := 0 to left / 2
        invariant idx == addrOff % 2 + 2 * i
        invariant Present() ==> dev == Idle && Holds(rbuf[..], mem, addrOff, idx)
        invariant Kept(was, rbuf[..], addrOff % 2 + left)
      {
        var stmp := Read16((reg16 + i) % 0x1_0000);
        RegAt(addrOff, reg16, i);
        Halves(mem, addrSize, addrOff + idx, (reg16 + i) % 0x1_0000);
        idx := PutWord(rbuf, addrOff, idx, stmp, was, addrOff % 2 + left);
      }
      if left % 2 == 1 {
        var stmp := Read16((reg16 + left / 2) % 0x1_0000);
        RegAt(addrOff, reg16, left / 2);
        Halves(mem, addrSize, addrOff + idx, (reg16 + left / 2) % 0x1_0000);
        HoldsOne(rbuf[..], mem, addrOff, idx, stmp % 256);
        KeptOne(was, rbuf[..], addrOff % 2 + left, idx, stmp % 256);
        rbuf[idx] := stmp % 256;
      }
    }

    /** `rbuf[idx++] = low half; rbuf[idx++] = high half`. */
    method PutWord(rbuf: array<byte>, ghost addrOff: nat, idx: nat, w: word, ghost was: seq<byte>,
                   ghost from: nat) returns (next: nat)
      requires |mem| > 0 && idx + 2 <= rbuf.Length && idx + 2 <= from && Kept(was, rbuf[..], from)
      modifies rbuf
      ensures next == idx + 2 && Kept(was, rbuf[..], from)
      ensures Holds(old(rbuf[..]), mem, addrOff, idx) && w % 256 == ByteAt(mem, addrOff + idx)
              && w / 256 == ByteAt(mem, addrOff + idx + 1)
              ==> Holds(rbuf[..], mem, addrOff, next)
    {
      hide Holds, ByteAt, Kept;
      HoldsOne(rbuf[..], mem, addrOff, idx, w % 256);
      KeptOne(was, rbuf[..], from, idx, w % 256);
      rbuf[idx] := w % 256;
      HoldsOne(rbuf[..], mem, addrOff, idx + 1, w / 256);
      KeptOne(was, rbuf[..], from, idx + 1, w / 256);
      rbuf[idx + 1] := w / 256;
      next := idx + 2;
    }
  }

  /** The first n bytes of buf are the memory's bytes from off on. */
  ghost predicate Holds(buf: seq<byte>, mem: seq<word>, off: nat, n: nat)
    requires |mem| > 0
  {
    n <= |buf| && forall k: nat | k < n :: buf[k] == ByteAt(mem, off + k)
  }

  ghost predicate Kept(was: seq<byte>, now: seq<byte>, from: nat) {
    |now| == |was| && forall k | from <= k < |was| :: now[k] == was[k]
  }

  lemma HoldsNothing(buf: seq<byte>, mem: seq<word>, off: nat, from: nat)
    requires |mem| > 0
    ensures Holds(buf, mem, off, 0) && Kept(buf, buf, from)
  {
  }

  lemma KeptOne(was: seq<byte>, now: seq<byte>, from: nat, i: nat, v: byte)
    requires Kept(was, now, from) && i < |now| && i < from
    ensures Kept(was, now[i := v], from)
  {
  }

  lemma HoldsOne(buf: seq<byte>, mem: seq<word>, off: nat, n: nat, v: byte)
    requires |mem| > 0 && n < |buf|
    ensures Holds(buf, mem, off, n) && v == ByteAt(mem, off + n) ==> Holds(buf[n := v], mem, off, n + 1)
  {
    hide ByteAt;
  }

  /** How many bytes a read fills. */
  function Window(addrOff: nat, sz: byte): nat {
    addrOff % 2 + (sz - addrOff % 2) % 256
  }

  lemma WindowIs(addrOff: nat, sz: byte)
    ensures Window(addrOff, sz) == addrOff % 2 + if addrOff % 2 == 1 then (sz - 1) % 256 else sz
  {
  }

  /** The window is the size asked for, except for nothing at an odd offset. */
  lemma WindowIsSize(addrOff: nat, sz: byte)
    ensures Window(addrOff, sz) == sz <==> addrOff % 2 == 0 || sz >= 1
    ensures addrOff % 2 == 1 && sz == 0 ==> Window(addrOff, sz) == 256
  {
  }

  /** The memory as bytes, low half of each word first, wrapping at its end. */
  function ByteAt(mem: seq<word>, off: nat): byte
    requires |mem| > 0
  {
    var w := mem[off / 2 % |mem|];
    if off % 2 == 0 then w % 256 else w / 256
  }

  /** The two halves of the word read for the even offset e, whose number r has only
      16 bits. */
  lemma Halves(mem: seq<word>, addrSize: nat, e: nat, r: word)
    requires |mem| == Pow2(addrSize) && addrSize <= 16 && e % 2 == 0 && r == e / 2 % 0x1_0000
    ensures ByteAt(mem, e) == mem[r % |mem|] % 256 && ByteAt(mem, e + 1) == mem[r % |mem|] / 256
  {
    hide Pow2;
    Pow2Divides(addrSize, 16);
    WrapMod(e / 2, |mem|, Pow2(16 - addrSize));
    assert (e + 1) / 2 == e / 2;
  }

  /** The register behind an odd first byte, and the i-th from there. */
  lemma FirstReg(off: nat)
    ensures off % 2 == 1 ==> (off - 1) % 2 == 0 && (off - 1) / 2 == off / 2
    ensures off % 2 == 1 ==> (off / 2 % 0x1_0000 + 1) % 0x1_0000 == (off + off % 2) / 2 % 0x1_0000
    ensures off % 2 == 0 ==> off / 2 % 0x1_0000 == (off + off % 2) / 2 % 0x1_0000
  {
  }

  lemma RegAt(off: nat, reg: nat, i: nat)
    requires reg == (off + off % 2) / 2 % 0x1_0000
    ensures (off + (off % 2 + 2 * i)) % 2 == 0
    ensures (reg + i) % 0x1_0000 == (off + (off % 2 + 2 * i)) / 2 % 0x1_0000
  {
    var e := off + off % 2;
    HalfOf(e, i);
    AddMod(e / 2, i);
  }

  lemma HalfOf(e: nat, i: nat)
    requires e % 2 == 0
    ensures (e + 2 * i) % 2 == 0 && (e + 2 * i) / 2 == e / 2 + i
  {
  }

  lemma AddMod(n: nat, i: nat)
    ensures (n % 0x1_0000 + i) % 0x1_0000 == (n + i) % 0x1_0000
  {
  }

  /** The bits sent once one more has gone out. */
  lemma NextBit(data: nat, count: nat, i: nat)
    requires i < count
    ensures Bits(Shr(data, count - i), i) + [data / Pow2(count - 1 - i) % 2] == Bits(Shr(data, count - i - 1), i + 1)
  {
    hide Pow2, Bits, Shr;
    ShrIsDiv(data, count - i - 1);
    BitsLast(Shr(data, count - i - 1), i + 1);
  }

  /** Halving the mask moves it to the next bit, and from the last one to zero. */
  lemma HalfMask(count: nat, i: nat)
    requires 1 <= i <= count
    ensures Pow2(count - i) / 2 == if i < count then Pow2(count - 1 - i) else 0
  {
  }

  lemma NothingSent(data: nat, count: nat, d: Device, mem: seq<word>, addrSize: nat)
    requires |mem| == Pow2(addrSize)
    ensures Bits(Shr(data, count), 0) == [] && Feed(d, [], mem, addrSize) == d && Shr(data, 0) == data
  {
  }

  lemma {:induction false} ShrSmall(x: nat, k: nat)
    requires x < Pow2(k)
    ensures Shr(x, k) == 0
  {
    if k > 0 { ShrSmall(x / 2, k - 1); }
  }

  lemma NothingIn(w: word)
    ensures Shr(w, 16) == 0 && Shr(w, 0) == w
  {
    Pow2Of16();
    ShrSmall(w, 16);
  }

  lemma NextIn(mem: seq<word>, at: nat, i: nat)
    requires at < |mem| && i < 16
    ensures 2 * Shr(mem[at], 16 - i) + DataBit(mem, at, i) == Shr(mem[at], 15 - i) < 0x1_0000
  {
    ShrIsDiv(mem[at], 15 - i);
    SmallMod(at, |mem|);
    ShrLess(mem[at], 15 - i);
    hide Pow2, Shr;
  }

  lemma {:induction false} ShrLess(x: nat, k: nat)
    ensures Shr(x, k) <= x
  {
    if k > 0 { ShrLess(x / 2, k - 1); }
  }
}
