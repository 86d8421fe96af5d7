/** The bits of a message RAM element as the controller's manual numbers them, for what
    the transmit path writes and for what the receive path makes of them. */
module CanLayout {
  import opened CanCodec

  /** Bits 31 to 29 of the first word, and how the socket layer marks an identifier. */
  lemma Numbers()
    ensures BUF_ESI == 0x80000000 && BUF_XTD == 0x40000000 && BUF_RTR == 0x20000000
    ensures CAN_EFF_FLAG == 0x80000000 && CAN_RTR_FLAG == 0x40000000
    ensures CAN_EFF_MASK == 0x1fffffff && CAN_SFF_MASK == 0x7ff
  {
  }

  // ----- the second word

  lemma WordBits(p: bv32, dlc: bv32, fd: bv32)
    requires p < 32 && dlc < 16 && (fd == 0 || fd == 0x00200000 || fd == 0x00300000)
    ensures var w := ((p << 24) & MM_MASK) | (dlc << 16) | fd | BUF_EFC;
            w >> 24 == p && (w >> 16) & 0xf == dlc && w & 0x00800000 != 0 && w & 0x0040ffff == 0
  {
  }

  lemma FlagBits(p: bv32, dlc: bv32, fd: bv32)
    requires p < 32 && dlc < 16 && (fd == 0 || fd == 0x00200000 || fd == 0x00300000)
    ensures var w := ((p << 24) & MM_MASK) | (dlc << 16) | fd | BUF_EFC;
            w & 0x00200000 == fd & 0x00200000 && w & 0x00100000 == fd & 0x00100000
  {
  }

  /** Message marker, length code, the bit that asks for a TX event, and the two FD bits;
      the other bits are clear. */
  lemma SecondWordLayout(f: CanFrame, put: nat)
    requires f.Valid() && put < 32
    ensures var w := DlcWord(f, put);
            && (w >> 24) as nat == put && ((w >> 16) & 0xf) as nat == Len2Dlc(f.len)
            && w & 0x00800000 != 0 && w & 0x0040ffff == 0
            && (w & 0x00200000 != 0 <==> f.fd) && (w & 0x00100000 != 0 <==> f.fd && f.flags & 1 != 0)
  {
    NatBits(put);
    NatBits(Len2Dlc(f.len));
    WordBits(put as bv32, DlcField(f), FdFlags(f));
    FlagBits(put as bv32, DlcField(f), FdFlags(f));
  }

  /** Every element the transmit path writes asks for a TX event and names its slot in
      the marker that the event carries back. */
  lemma AsksForEvent(f: CanFrame, put: nat, before: seq<bv32>)
    requires f.Valid() && put < 32 && |before| == ELEMENT_WORDS
    ensures Element(f, put, before)[1] & 0x00800000 != 0 && (Element(f, put, before)[1] >> 24) as nat == put
  {
    hide DlcWord, Element;
    SecondWordLayout(f, put);
    ElementWords(f, put, before, 0);
  }

  // ----- the first word

  lemma EffTop(c: bv32, b: bv32, r: bv32)
    requires (r == 0 || r == BUF_RTR) && b == (c & CAN_EFF_MASK) | BUF_XTD
    ensures (b | r) & BUF_ESI == 0
  {
  }

  lemma SffTop(c: bv32, b: bv32, r: bv32)
    requires (r == 0 || r == BUF_RTR) && b == (c & CAN_SFF_MASK) << 18
    ensures (b | r) & BUF_ESI == 0 && (b | r) & 0x0003ffff == 0
  {
  }

  /** The word of an extended identifier: bit 31 clear, bit 30 set, bit 29 for a remote
      frame, and the identifier below. */
  lemma ExtendedWord(c: bv32)
    requires c & CAN_EFF_FLAG != 0
    ensures IdWord(c) & BUF_ESI == 0 && IdWord(c) & BUF_XTD != 0
    ensures IdWord(c) & BUF_RTR != 0 <==> c & CAN_RTR_FLAG != 0
    ensures IdWord(c) & CAN_EFF_MASK == c & CAN_EFF_MASK
  {
    hide BaseBits, RemoteBit;
    EffField(c);
    RemoteField(c);
    EffTop(c, BaseBits(c), RemoteBit(c));
    hide IdWord;
    EffWord(c);
    RemoteBitSent(c);
  }

  /** And of a standard one: bits 31 and 30 clear, the identifier in bits 28 to 18. */
  lemma StandardWord(c: bv32)
    requires c & CAN_EFF_FLAG == 0
    ensures IdWord(c) & BUF_ESI == 0 && IdWord(c) & BUF_XTD == 0 && IdWord(c) & 0x0003ffff == 0
    ensures IdWord(c) & BUF_RTR != 0 <==> c & CAN_RTR_FLAG != 0
    ensures (IdWord(c) >> 18) & CAN_SFF_MASK == c & CAN_SFF_MASK
  {
    hide BaseBits, RemoteBit;
    SffField(c);
    RemoteField(c);
    SffTop(c, BaseBits(c), RemoteBit(c));
    hide IdWord;
    SffWord(c);
    SffFlags(c);
    RemoteBitSent(c);
  }

  // ----- the data words

  lemma WordBytes(a: bv8, b: bv8, c: bv8, d: bv8)
    ensures var w := (a as bv32) | ((b as bv32) << 8) | ((c as bv32) << 16) | ((d as bv32) << 24);
            && w & 0xff == a as bv32 && (w >> 8) & 0xff == b as bv32
            && (w >> 16) & 0xff == c as bv32 && w >> 24 == d as bv32
  {
  }

  /** The frame's bytes lie in the data words low byte first, as many words as it takes;
      the words behind keep what they held. */
  lemma DataLayout(f: CanFrame, put: nat, before: seq<bv32>, k: nat)
    requires f.Valid() && put < 32 && |before| == ELEMENT_WORDS && k < 16
    ensures var w := Element(f, put, before)[2 + k];
            if 4 * k < f.len then
              && 4 * k + 4 <= |f.data| && w & 0xff == f.data[4 * k] as bv32
              && (w >> 8) & 0xff == f.data[4 * k + 1] as bv32 && (w >> 16) & 0xff == f.data[4 * k + 2] as bv32
              && w >> 24 == f.data[4 * k + 3] as bv32
            else w == before[2 + k]
  {
    hide LoadWord;
    ElementWords(f, put, before, k);
    if 4 * k < f.len {
      LoadWordBytes(f.data, k);
    }
  }

  lemma LoadWordBytes(data: seq<bv8>, k: nat)
    requires 4 * k + 4 <= |data|
    ensures var w := LoadWord(data, k);
            && w & 0xff == data[4 * k] as bv32 && (w >> 8) & 0xff == data[4 * k + 1] as bv32
            && (w >> 16) & 0xff == data[4 * k + 2] as bv32 && w >> 24 == data[4 * k + 3] as bv32
  {
    WordBytes(data[4 * k], data[4 * k + 1], data[4 * k + 2], data[4 * k + 3]);
  }

  // ----- what is made of a received element

  /** The lengths of the sixteen codes. */
  lemma DlcTable()
    ensures seq(16, i requires 0 <= i < 16 => Dlc2Len(i)) == [0, 1, 2, 3, 4, 5, 6, 7, 8, 12, 16, 20, 24, 32, 48, 64]
  {
  }

  lemma ExtendedId(i: bv32, x: bv32)
    requires x == (i & CAN_EFF_MASK) | CAN_EFF_FLAG
    ensures x & CAN_EFF_FLAG != 0 && x & CAN_RTR_FLAG == 0 && x & CAN_EFF_MASK == i & CAN_EFF_MASK
  {
  }

  lemma StandardId(i: bv32, x: bv32)
    requires x == (i >> 18) & CAN_SFF_MASK
    ensures x & CAN_EFF_FLAG == 0 && x & CAN_RTR_FLAG == 0 && x & CAN_EFF_MASK == x
  {
  }

  lemma RemoteAdds(x: bv32, y: bv32)
    requires y == x | CAN_RTR_FLAG
    ensures y & CAN_EFF_FLAG == x & CAN_EFF_FLAG && y & CAN_RTR_FLAG != 0 && y & CAN_EFF_MASK == x & CAN_EFF_MASK
  {
  }

  lemma ExtendedBase(id: bv32)
    requires id & BUF_XTD != 0
    ensures DecodeBase(id) == (id & CAN_EFF_MASK) | CAN_EFF_FLAG
  {
  }

  lemma StandardBase(id: bv32)
    requires id & BUF_XTD == 0
    ensures DecodeBase(id) == (id >> 18) & CAN_SFF_MASK
  {
  }

  lemma BaseMarks(id: bv32)
    ensures DecodeBase(id) & CAN_RTR_FLAG == 0
    ensures DecodeBase(id) & CAN_EFF_FLAG != 0 <==> id & BUF_XTD != 0
  {
    hide DecodeBase;
    if id & BUF_XTD != 0 {
      ExtendedBase(id);
      ExtendedId(id, DecodeBase(id));
    } else {
      StandardBase(id);
      StandardId(id, DecodeBase(id));
    }
  }

  lemma BaseMask(id: bv32)
    ensures id & BUF_XTD != 0 ==> DecodeBase(id) & CAN_EFF_MASK == id & CAN_EFF_MASK
    ensures id & BUF_XTD == 0 ==> DecodeBase(id) & CAN_EFF_MASK == (id >> 18) & CAN_SFF_MASK
  {
    hide DecodeBase;
    if id & BUF_XTD != 0 {
      ExtendedBase(id);
      ExtendedId(id, DecodeBase(id));
    } else {
      StandardBase(id);
      StandardId(id, DecodeBase(id));
    }
  }

  lemma RemoteMarks(x: bv32, remote: bool)
    requires x & CAN_RTR_FLAG == 0
    ensures WithRemote(x, remote) & CAN_RTR_FLAG != 0 <==> remote
    ensures WithRemote(x, remote) & CAN_EFF_FLAG == x & CAN_EFF_FLAG
  {
    RemoteAdds(x, x | CAN_RTR_FLAG);
  }

  lemma RemoteKeeps(x: bv32, remote: bool)
    ensures WithRemote(x, remote) & CAN_EFF_MASK == x & CAN_EFF_MASK
  {
    RemoteAdds(x, x | CAN_RTR_FLAG);
  }

  /** The identifier read back: bits 31 and 30 say extended and remote, a remote flag being
      one of classic frames only. */
  lemma DecodedMarks(id: bv32, dlc: bv32)
    ensures DecodeId(id, dlc) & CAN_EFF_FLAG != 0 <==> id & BUF_XTD != 0
    ensures DecodeId(id, dlc) & CAN_RTR_FLAG != 0 <==> dlc & BUF_FDF == 0 && id & BUF_RTR != 0
  {
    hide DecodeBase, WithRemote;
    BaseMarks(id);
    RemoteMarks(DecodeBase(id), dlc & BUF_FDF == 0 && id & BUF_RTR != 0);
  }

  lemma DecodedId(id: bv32, dlc: bv32)
    ensures id & BUF_XTD != 0 ==> DecodeId(id, dlc) & CAN_EFF_MASK == id & CAN_EFF_MASK
    ensures id & BUF_XTD == 0 ==> DecodeId(id, dlc) & CAN_EFF_MASK == (id >> 18) & CAN_SFF_MASK
  {
    hide DecodeId, DecodeBase;
    MaskKept(id, dlc);
    BaseMask(id);
  }

  lemma MaskKept(id: bv32, dlc: bv32)
    ensures DecodeId(id, dlc) & CAN_EFF_MASK == DecodeBase(id) & CAN_EFF_MASK
  {
    hide DecodeBase, WithRemote;
    RemoteKeeps(DecodeBase(id), dlc & BUF_FDF == 0 && id & BUF_RTR != 0);
  }

  lemma FlagSum(esi: bool, brs: bool)
    ensures var r: bv8 := (if esi then 2 else 0) | (if brs then 1 else 0);
            (r & 2 != 0 <==> esi) && (r & 1 != 0 <==> brs) && r & 0xfc == 0
  {
  }

  /** Any element, whatever wrote it: bit 31 of the first word is the error state, bits 21
      and 20 of the second FD and bit rate switch, and its bits 19 to 16 the length code,
      which a classic frame caps at eight. */
  lemma DecodeLayout(words: seq<bv32>)
    requires |words| == ELEMENT_WORDS
    ensures var r, id, dlc := Decode(words), words[0], words[1];
            var code := ((dlc >> 16) & 0xf) as nat;
            && (r.fd <==> dlc & 0x00200000 != 0)
            && (r.flags & 2 != 0 <==> id & 0x80000000 != 0)
            && (r.flags & 1 != 0 <==> (r.fd || id & 0x20000000 == 0) && dlc & 0x00100000 != 0)
            && r.flags & 0xfc == 0 && r.canId == DecodeId(id, dlc)
            && r.len == (if r.fd then Dlc2Len(code) else if code <= 8 then code else 8)
  {
    hide DecodeData, Dlc2Len, DecodeId;
    var id, dlc := words[0], words[1];
    FlagSum(id & 0x80000000 != 0, !(dlc & 0x00200000 == 0 && id & 0x20000000 != 0) && dlc & 0x00100000 != 0);
  }
}
