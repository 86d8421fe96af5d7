/** The message RAM: its division into regions (`m_can_of_parse_mram`), its
    clearing (`m_can_init_ram`), and the loops that write and read elements. */
module CanMessageRam {
  import opened CanCodec

  const REGIONS := 7
  const RXF0 := 2
  const TXE := 5
  const TXB := 6

  /** Element sizes in bytes of SIDF, XIDF, RXF0, RXF1, RXB, TXE and TXB. */
  function Size(i: nat): nat { if i == 0 then 4 else if i == 1 || i == TXE then 8 else 72 }

  datatype MramCfg = MramCfg(off: nat, num: nat)

  /** The 16-bit offset and 8-bit count the structure stores for region i, from
      the eight device tree values: FIFO counts are masked, others truncated. */
  function Count(vals: seq<nat>, i: nat): nat
    requires |vals| == 8 && i < REGIONS
  {
    if i == 2 || i == 3 then vals[i + 1] % 0x80
    else if i == 6 then vals[i + 1] % 0x40
    else vals[i + 1] % 0x100
  }

  /** Where region i starts when nothing overflows. */
  function Start(vals: seq<nat>, i: nat): nat
    requires |vals| == 8 && i <= REGIONS
  {
    if i == 0 then vals[0] else Start(vals, i - 1) + Count(vals, i - 1) * Size(i - 1)
  }

  ghost predicate Laid(vals: seq<nat>, cfg: seq<MramCfg>)
    requires |vals| == 8
  {
    |cfg| == REGIONS &&
    forall i: nat | i < REGIONS :: cfg[i].off == Start(vals, i) % 0x10000 && cfg[i].num == Count(vals, i)
  }

  /** The device tree's eight numbers spelled out: the two receive FIFOs take seven bits of
      theirs, the TX buffers six, the other regions eight, and each region begins where the
      one before it ends. */
  lemma LaidOut(vals: seq<nat>, cfg: seq<MramCfg>)
    requires |vals| == 8 && Laid(vals, cfg)
    ensures |cfg| == 7 && cfg[0] == MramCfg(vals[0] % 65536, vals[1] % 256)
    ensures cfg[1] == MramCfg((cfg[0].off + 4 * cfg[0].num) % 65536, vals[2] % 256)
    ensures cfg[2] == MramCfg((cfg[1].off + 8 * cfg[1].num) % 65536, vals[3] % 128)
    ensures cfg[3] == MramCfg((cfg[2].off + 72 * cfg[2].num) % 65536, vals[4] % 128)
    ensures cfg[4] == MramCfg((cfg[3].off + 72 * cfg[3].num) % 65536, vals[5] % 256)
    ensures cfg[5] == MramCfg((cfg[4].off + 72 * cfg[4].num) % 65536, vals[6] % 256)
    ensures cfg[6] == MramCfg((cfg[5].off + 8 * cfg[5].num) % 65536, vals[7] % 64)
  {
    LaidCounts(vals, cfg);
    hide Laid, Start, Count;
    LaidNext(vals, cfg, 0, 4);
    LaidNext(vals, cfg, 1, 8);
    LaidNext(vals, cfg, 2, 72);
    LaidNext(vals, cfg, 3, 72);
    LaidNext(vals, cfg, 4, 72);
    LaidNext(vals, cfg, 5, 8);
  }

  lemma LaidCounts(vals: seq<nat>, cfg: seq<MramCfg>)
    requires |vals| == 8 && Laid(vals, cfg)
    ensures |cfg| == 7 && cfg[0] == MramCfg(vals[0] % 65536, vals[1] % 256) && cfg[1].num == vals[2] % 256
    ensures cfg[2].num == vals[3] % 128 && cfg[3].num == vals[4] % 128 && cfg[4].num == vals[5] % 256
    ensures cfg[5].num == vals[6] % 256 && cfg[6].num == vals[7] % 64
  {
  }

  lemma LaidNext(vals: seq<nat>, cfg: seq<MramCfg>, i: nat, size: nat)
    requires |vals| == 8 && Laid(vals, cfg) && i < REGIONS - 1 && size == Size(i)
    ensures |cfg| == 7 && cfg[i + 1].off == (cfg[i].off + size * cfg[i].num) % 65536
  {
    hide Count, Size;
    Wrap(Start(vals, i), cfg[i].num * size);
  }

  lemma {:induction false} StartGrows(vals: seq<nat>, i: nat, j: nat)
    requires |vals| == 8 && i <= j <= REGIONS
    ensures i < j ==> Start(vals, i) + Count(vals, i) * Size(i) <= Start(vals, j)
    ensures Start(vals, i) <= Start(vals, j)
  {
    if i < j {
      StartGrows(vals, i, j - 1);
    }
  }

  lemma EarlierRegion(vals: seq<nat>, i: nat, m: nat, j: nat, n: nat)
    requires |vals| == 8 && i < j < REGIONS && m < Count(vals, i)
    ensures Start(vals, i) + m * Size(i) + Size(i) <= Start(vals, j) + n * Size(j)
  {
    StartGrows(vals, i, j);
    Rows(m, Count(vals, i), Size(i));
  }

  /** As long as no offset overflows 16 bits, an element of one region and an
      element of another never share a byte, nor do two elements of one region. */
  lemma ElementsDisjoint(vals: seq<nat>, cfg: seq<MramCfg>, i: nat, m: nat, j: nat, n: nat)
    requires |vals| == 8 && Laid(vals, cfg) && Start(vals, TXB) < 0x10000
    requires i < REGIONS && j < REGIONS && m < cfg[i].num && n < cfg[j].num
    requires i != j || m != n
    ensures var x, y := cfg[i].off + m * Size(i), cfg[j].off + n * Size(j);
            x + Size(i) <= y || y + Size(j) <= x
  {
    OffsetExact(vals, cfg, i);
    OffsetExact(vals, cfg, j);
    hide Start, Size, Laid;
    if i == j {
      SameRegion(cfg[i].off, m, n, Size(i));
    } else if i < j {
      EarlierRegion(vals, i, m, j, n);
    } else {
      EarlierRegion(vals, j, n, i, m);
    }
  }

  lemma OffsetExact(vals: seq<nat>, cfg: seq<MramCfg>, i: nat)
    requires |vals| == 8 && Laid(vals, cfg) && Start(vals, TXB) < 0x10000 && i < REGIONS
    ensures cfg[i].off == Start(vals, i) && cfg[i].num == Count(vals, i)
  {
    hide Start, Count, Size;
    StartGrows(vals, i, TXB);
  }

  lemma SameRegion(start: nat, m: nat, n: nat, size: nat)
    requires m != n
    ensures start + m * size + size <= start + n * size || start + n * size + size <= start + m * size
  {
    if m < n { Rows(m, n, size); } else { Rows(n, m, size); }
  }

  lemma Wrap(a: nat, b: nat)
    ensures (a % 0x10000 + b) % 0x10000 == (a + b) % 0x10000
  {
  }

  lemma {:induction false} Rows(m: nat, n: nat, size: nat)
    requires m < n
    ensures m * size + size <= n * size
  {
    assert n * size == (n - 1) * size + size;
    if m < n - 1 {
      Rows(m, n - 1, size);
    }
  }

  class MessageRam {
    var cfg: seq<MramCfg>
    /** The RAM as 32-bit words; offsets are word aligned. */
    const ram: array<bv32>

    constructor (ram: array<bv32>)
      ensures this.ram == ram
    {
      this.ram := ram;
      cfg := [];
    }

    /** The TX buffers and the RX FIFO lie inside the RAM on word boundaries. */
    ghost predicate Valid()
      reads this
    {
      && |cfg| == REGIONS
      && (forall i: nat | i < REGIONS :: cfg[i].off % 4 == 0)
      && cfg[RXF0].off + cfg[RXF0].num * 72 <= 4 * ram.Length
      && cfg[TXB].off + cfg[TXB].num * 72 <= 4 * ram.Length
    }

    /** The first word of the n-th element of 72 bytes. */
    function ElementAt(region: nat, n: nat): (w: nat)
      requires |cfg| == REGIONS && region < REGIONS
      reads this
      ensures cfg[region].off % 4 == 0 ==> 4 * w == cfg[region].off + 72 * n
    {
      cfg[region].off / 4 + n * ELEMENT_WORDS
    }

    method OfParseMram(vals: seq<nat>)
      requires |vals| == 8
      modifies this
      ensures Laid(vals, cfg)
    {
      cfg := [MramCfg(vals[0] % 0x10000, vals[1] % 0x100)];
      var i := 1;
      while i < REGIONS
        invariant 1 <= i <= REGIONS && |cfg| == i
        invariant forall k: nat | k < i :: cfg[k].off == Start(vals, k) % 0x10000 && cfg[k].num == Count(vals, k)
      {
        var last := cfg[i - 1];
        Wrap(Start(vals, i - 1), last.num * Size(i - 1));
        cfg := cfg + [MramCfg((last.off + last.num * Size(i - 1)) % 0x10000, Count(vals, i))];
        i := i + 1;
      }
    }

    /** Zeros every word from the first region to the end of the TX buffers. */
    method InitRam()
      requires Valid() && cfg[TXB].off % 4 == 0
      modifies ram
      ensures forall w: nat | w < ram.Length ::
                var end := cfg[TXB].off / 4 + cfg[TXB].num * ELEMENT_WORDS;
                ram[w] == if cfg[0].off / 4 <= w < end then 0 else old(ram[w])
    {
      var start := cfg[0].off;
      var end := cfg[TXB].off + cfg[TXB].num * 72;
      var i := start;
      while i < end
        invariant i % 4 == 0 && start <= i
        invariant i <= end || i == start
        invariant forall w: nat | w < ram.Length :: ram[w] == if start / 4 <= w < i / 4 then 0 else old(ram[w])
      {
        ram[i / 4] := 0;
        i := i + 4;
      }
    }

    /** The FIFO element writes of `m_can_start_xmit`. */
    method WriteTx(put: nat, f: CanFrame)
      requires Valid() && f.Valid() && put < cfg[TXB].num && put < 32
      modifies ram
      ensures var e := ElementAt(TXB, put);
              && e + ELEMENT_WORDS <= ram.Length
              && ram[e..e + ELEMENT_WORDS] == Element(f, put, old(ram[e..e + ELEMENT_WORDS]))
              && forall w: nat | w < ram.Length && !(e <= w < e + ELEMENT_WORDS) :: ram[w] == old(ram[w])
    {
      hide IdWord, DlcWord, LoadWord, Element;
      var e := ElementAt(TXB, put);
      Rows(put, cfg[TXB].num, 72);
      ghost var before := ram[e..e + ELEMENT_WORDS];
      ram[e] := IdWord(f.canId);
      ram[e + 1] := DlcWord(f, put);
      WriteData(e, f.data, f.len);
      ghost var words := ram[e..e + ELEMENT_WORDS];
      forall w: nat | 2 <= w < ELEMENT_WORDS
        ensures words[w] == if w < 2 + Words(f.len) then LoadWord(f.data, w - 2) else before[w]
      {
        assert words[w] == ram[e + w] && before[w] == old(ram[e + w]);
      }
      assert words[0] == ram[e] == IdWord(f.canId) && words[1] == ram[e + 1] == DlcWord(f, put);
      ElementFromWords(words, f, put, before);
    }

    method WriteData(e: nat, data: seq<bv8>, len: nat)
      requires e + ELEMENT_WORDS <= ram.Length && len <= |data| && (|data| == 8 || |data| == 64)
      modifies ram
      ensures forall w: nat | e + 2 <= w < e + ELEMENT_WORDS ::
                ram[w] == if w < e + 2 + Words(len) then LoadWord(data, w - e - 2) else old(ram[w])
      ensures forall w: nat | w < ram.Length && !(e + 2 <= w < e + ELEMENT_WORDS) :: ram[w] == old(ram[w])
    {
      hide LoadWord;
      var i := 0;
      while i < len
        invariant i % 4 == 0 && i / 4 <= Words(len)
        invariant forall w: nat | e + 2 <= w < e + ELEMENT_WORDS ::
                    ram[w] == if w < e + 2 + i / 4 then LoadWord(data, w - e - 2) else old(ram[w])
        invariant forall w: nat | w < ram.Length && !(e + 2 <= w < e + ELEMENT_WORDS) :: ram[w] == old(ram[w])
      {
        ram[e + 2 + i / 4] := LoadWord(data, i / 4);
        i := i + 4;
      }
    }

    /** `m_can_read_fifo`, once the frame buffer has been allocated and zeroed. */
    method ReadFifo(get: nat) returns (f: CanFrame)
      requires Valid() && get < cfg[RXF0].num
      ensures var e := ElementAt(RXF0, get);
              e + ELEMENT_WORDS <= ram.Length && f == Decode(ram[e..e + ELEMENT_WORDS])
    {
      hide DecodeData, DecodeFlags, DecodeLen, DecodeId, CopiedFrom, ByteOf;
      var e := ElementAt(RXF0, get);
      Rows(get, cfg[RXF0].num, 72);
      var dlc := ram[e + 1];
      LenFits(dlc);
      var len := DecodeLen(dlc);
      var id := ram[e];
      var canId, flags := ReadHeader(id, dlc);
      var fd := dlc & BUF_FDF != 0;
      var data := ReadData(e, if !fd && id & BUF_RTR != 0 then 0 else len, if fd then 64 else 8);
      ghost var words := ram[e..e + ELEMENT_WORDS];
      assert words[0] == id && words[1] == dlc;
      DataFromBytes(words, data);
      f := CanFrame(canId, len, flags, data, fd);
    }

    static method ReadHeader(id: bv32, dlc: bv32) returns (canId: bv32, flags: bv8)
      ensures canId == DecodeId(id, dlc) && flags == DecodeFlags(id, dlc)
    {
      hide WithRemote, DecodeBase;
      canId := DecodeBase(id);
      flags := if id & BUF_ESI != 0 then CANFD_ESI else 0;
      var remote := dlc & BUF_FDF == 0 && id & BUF_RTR != 0;
      canId := WithRemote(canId, remote);
      if !remote && dlc & BUF_BRS != 0 { flags := flags | CANFD_BRS; }
    }

    lemma LenFits(dlc: bv32)
      ensures DecodeLen(dlc) <= if dlc & BUF_FDF != 0 then 64 else 8
    {
    }

    /** The copy loop, which moves whole words into the zeroed buffer. */
    method ReadData(e: nat, len: nat, size: nat) returns (data: seq<bv8>)
      requires e + ELEMENT_WORDS <= ram.Length && len <= size && (size == 8 || size == 64)
      ensures |data| == size && CopiedFrom(ram[e..e + ELEMENT_WORDS], data, 4 * Words(len))
    {
      hide ByteOf;
      ghost var words := ram[e..e + ELEMENT_WORDS];
      data := seq(size, _ => 0);
      var i := 0;
      while i < len
        invariant i % 4 == 0 && i / 4 <= Words(len) && |data| == size
        invariant CopiedFrom(words, data, i)
      {
        var w := ram[e + 2 + i / 4];
        assert w == words[2 + i / 4];
        data := data[i := ByteOf(w, 0)][i + 1 := ByteOf(w, 1)][i + 2 := ByteOf(w, 2)][i + 3 := ByteOf(w, 3)];
        i := i + 4;
      }
    }
  }
}
