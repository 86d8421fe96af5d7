/** The bit layout of a message RAM element: how `m_can_start_xmit` (version 3.1
    and later) writes a frame and how `m_can_read_fifo` reads one back. */
module CanCodec {

  const CAN_EFF_FLAG: bv32 := 0x80000000
  const CAN_RTR_FLAG: bv32 := 0x40000000
  const CAN_EFF_MASK: bv32 := 0x1fffffff
  const CAN_SFF_MASK: bv32 := 0x7ff
  const CANFD_BRS: bv8 := 0x01
  const CANFD_ESI: bv8 := 0x02

  const BUF_ESI: bv32 := 0x80000000
  const BUF_XTD: bv32 := 0x40000000
  const BUF_RTR: bv32 := 0x20000000
  const BUF_EFC: bv32 := 0x00800000
  const BUF_FDF: bv32 := 0x00200000
  const BUF_BRS: bv32 := 0x00100000
  const MM_MASK: bv32 := 0xff000000

  const ELEMENT_WORDS := 18

  datatype CanFrame = CanFrame(canId: bv32, len: nat, flags: bv8, data: seq<bv8>, fd: bool) {
    /** What `can_dropped_invalid_skb` lets through, with the buffer its type has. */
    predicate Valid() {
      if fd then len <= 64 && |data| == 64 else len <= 8 && |data| == 8
    }

    predicate Remote() { !fd && canId & CAN_RTR_FLAG != 0 }
  }

  // ----- lengths (ISO 11898-1 data length codes)

  function Len2Dlc(len: nat): nat {
    if len <= 8 then len else if len <= 12 then 9 else if len <= 16 then 10 else if len <= 20 then 11
    else if len <= 24 then 12 else if len <= 32 then 13 else if len <= 48 then 14 else 15
  }

  function Dlc2Len(dlc: nat): nat {
    if dlc <= 8 then dlc else if dlc == 9 then 12 else if dlc == 10 then 16 else if dlc == 11 then 20
    else if dlc == 12 then 24 else if dlc == 13 then 32 else if dlc == 14 then 48 else 64
  }

  /** The length a receiver sees: the least length with a code that is not less. */
  lemma RoundedLength(len: nat)
    requires len <= 64
    ensures Len2Dlc(len) < 16 && len <= Dlc2Len(Len2Dlc(len)) <= 64
    ensures forall d: nat :: d < 16 && len <= Dlc2Len(d) ==> Dlc2Len(Len2Dlc(len)) <= Dlc2Len(d)
  {
  }

  function Words(len: nat): nat { (len + 3) / 4 }

  // ----- data words

  function LoadWord(data: seq<bv8>, k: nat): bv32
    requires 4 * k + 4 <= |data|
  {
    (data[4*k] as bv32) | ((data[4*k+1] as bv32) << 8) | ((data[4*k+2] as bv32) << 16) | ((data[4*k+3] as bv32) << 24)
  }

  function ByteOf(w: bv32, j: nat): bv8 {
    if j == 0 then (w & 0xff) as bv8 else if j == 1 then ((w >> 8) & 0xff) as bv8
    else if j == 2 then ((w >> 16) & 0xff) as bv8 else ((w >> 24) & 0xff) as bv8
  }

  lemma LoadedBytes(data: seq<bv8>, k: nat, j: nat)
    requires 4 * k + 4 <= |data| && j < 4
    ensures ByteOf(LoadWord(data, k), j) == data[4 * k + j]
  {
    hide ByteOf;
    PackedBytes(data[4*k], data[4*k+1], data[4*k+2], data[4*k+3]);
    if j == 0 {} else if j == 1 {} else if j == 2 {} else {}
  }

  lemma PackedBytes(a: bv8, b: bv8, c: bv8, d: bv8)
    ensures var w := (a as bv32) | ((b as bv32) << 8) | ((c as bv32) << 16) | ((d as bv32) << 24);
            ByteOf(w, 0) == a && ByteOf(w, 1) == b && ByteOf(w, 2) == c && ByteOf(w, 3) == d
  {
  }

  // ----- transmit

  function BaseBits(c: bv32): bv32 {
    if c & CAN_EFF_FLAG != 0 then (c & CAN_EFF_MASK) | BUF_XTD else (c & CAN_SFF_MASK) << 18
  }

  function RemoteBit(c: bv32): bv32 { if c & CAN_RTR_FLAG != 0 then BUF_RTR else 0 }

  function IdWord(c: bv32): bv32 { BaseBits(c) | RemoteBit(c) }

  function FdFlags(f: CanFrame): bv32 {
    if f.fd then BUF_FDF | (if f.flags & CANFD_BRS != 0 then BUF_BRS else 0) else 0
  }

  function DlcField(f: CanFrame): (r: bv32)
    requires f.Valid()
    ensures r < 16
  {
    Len2Dlc(f.len) as bv32
  }

  function DlcWord(f: CanFrame, put: nat): bv32
    requires f.Valid() && put < 32
  {
    (((put as bv32) << 24) & MM_MASK) | (DlcField(f) << 16) | FdFlags(f) | BUF_EFC
  }

  /** The element after the transmit path wrote f over what was there before. */
  function Element(f: CanFrame, put: nat, before: seq<bv32>): (r: seq<bv32>)
    requires f.Valid() && put < 32 && |before| == ELEMENT_WORDS
    ensures |r| == ELEMENT_WORDS
  {
    [IdWord(f.canId), DlcWord(f, put)] +
    seq(16, k requires 0 <= k < 16 => if k < Words(f.len) then LoadWord(f.data, k) else before[2 + k])
  }

  lemma ElementFromWords(words: seq<bv32>, f: CanFrame, put: nat, before: seq<bv32>)
    requires f.Valid() && put < 32 && |before| == |words| == ELEMENT_WORDS
    requires words[0] == IdWord(f.canId) && words[1] == DlcWord(f, put)
    requires forall w: nat | 2 <= w < ELEMENT_WORDS ::
               words[w] == if w < 2 + Words(f.len) then LoadWord(f.data, w - 2) else before[w]
    ensures words == Element(f, put, before)
  {
    hide IdWord, DlcWord, LoadWord;
  }

  /** The message marker a TX event carries back; the hardware copies bits 31-24
      of the element's second word into the event. */
  function EventMarker(e1: bv32): nat { ((e1 & MM_MASK) >> 24) as nat }

  lemma NatBits(n: nat)
    requires n < 32
    ensures (n as bv32) as nat == n && (n as bv32) < 32
  {
  }

  /** The marker of an event names the slot the frame was put in. */
  lemma MarkerRoundTrip(f: CanFrame, put: nat)
    requires f.Valid() && put < 32
    ensures EventMarker(DlcWord(f, put)) == put
  {
    NatBits(put);
    MarkerOfWord(put as bv32, DlcField(f), FdFlags(f));
  }

  lemma MarkerOfWord(p: bv32, dlc: bv32, fd: bv32)
    requires p < 32 && dlc < 16 && (fd == 0 || fd == BUF_FDF || fd == BUF_FDF | BUF_BRS)
    ensures ((((p << 24) & MM_MASK) | (dlc << 16) | fd | BUF_EFC) & MM_MASK) >> 24 == p
  {
  }

  // ----- receive

  function DecodeLen(dlc: bv32): nat {
    var code := ((dlc >> 16) & 0x0f) as nat;
    if dlc & BUF_FDF != 0 then Dlc2Len(code) else if code <= 8 then code else 8
  }

  function Extended(id: bv32, extended: bool): bv32 { if extended then id | CAN_EFF_FLAG else id }

  function DecodeBase(id: bv32): bv32 {
    if id & BUF_XTD != 0 then Extended(id & CAN_EFF_MASK, true) else Extended((id >> 18) & CAN_SFF_MASK, false)
  }

  function WithRemote(id: bv32, remote: bool): bv32 { if remote then id | CAN_RTR_FLAG else id }

  function DecodeId(id: bv32, dlc: bv32): bv32 {
    WithRemote(DecodeBase(id), dlc & BUF_FDF == 0 && id & BUF_RTR != 0)
  }

  function DecodeFlags(id: bv32, dlc: bv32): bv8 {
    (if id & BUF_ESI != 0 then CANFD_ESI else 0)
    | (if !(dlc & BUF_FDF == 0 && id & BUF_RTR != 0) && dlc & BUF_BRS != 0 then CANFD_BRS else 0)
  }

  function DecodeData(words: seq<bv32>): (r: seq<bv8>)
    requires |words| == ELEMENT_WORDS
  {
    var fd := words[1] & BUF_FDF != 0;
    var copied := if !fd && words[0] & BUF_RTR != 0 then 0 else 4 * Words(DecodeLen(words[1]));
    seq(if fd then 64 else 8, i requires 0 <= i < 64 => if i < copied then ByteOf(words[2 + i / 4], i % 4) else 0)
  }

  /** The first bytes of data come from the element's words, the rest are zero. */
  ghost predicate CopiedFrom(words: seq<bv32>, data: seq<bv8>, copied: nat)
    requires |words| == ELEMENT_WORDS && |data| <= 64
  {
    forall i: nat | i < |data| :: data[i] == if i < copied then ByteOf(words[2 + i / 4], i % 4) else 0
  }

  lemma DataFromBytes(words: seq<bv32>, data: seq<bv8>)
    requires |words| == ELEMENT_WORDS && |data| == if words[1] & BUF_FDF != 0 then 64 else 8
    requires CopiedFrom(words, data, if words[1] & BUF_FDF == 0 && words[0] & BUF_RTR != 0 then 0
                                     else 4 * Words(DecodeLen(words[1])))
    ensures data == DecodeData(words)
  {
    hide ByteOf, DecodeLen;
  }

  /** The frame `m_can_read_fifo` hands up, its buffer zeroed by the allocator. */
  function Decode(words: seq<bv32>): CanFrame
    requires |words| == ELEMENT_WORDS
  {
    CanFrame(DecodeId(words[0], words[1]), DecodeLen(words[1]), DecodeFlags(words[0], words[1]),
             DecodeData(words), words[1] & BUF_FDF != 0)
  }

  // ----- round trip

  function CanonicalBase(c: bv32): bv32 {
    if c & CAN_EFF_FLAG != 0 then Extended(c & CAN_EFF_MASK, true) else Extended(c & CAN_SFF_MASK, false)
  }

  /** The identifier as the bus carries it: unused bits dropped, and no remote
      flag on an FD frame. */
  function CanonicalId(f: CanFrame): bv32 {
    WithRemote(CanonicalBase(f.canId), f.Remote())
  }

  lemma DlcBits(p: bv32, dlc: bv32, fd: bv32)
    requires dlc < 16 && (fd == 0 || fd == BUF_FDF || fd == BUF_FDF | BUF_BRS)
    ensures var w := ((p << 24) & MM_MASK) | (dlc << 16) | fd | BUF_EFC;
            (w >> 16) & 0x0f == dlc && w & BUF_FDF == fd & BUF_FDF && w & BUF_BRS == fd & BUF_BRS
  {
  }

  /** The fields of the second word, read back. */
  lemma SecondWord(f: CanFrame, put: nat)
    requires f.Valid() && put < 32
    ensures (DlcWord(f, put) >> 16) & 0x0f == DlcField(f)
    ensures (DlcWord(f, put) & BUF_FDF != 0) == f.fd
    ensures (DlcWord(f, put) & BUF_BRS != 0) == (f.fd && f.flags & CANFD_BRS != 0)
  {
    DlcBits(put as bv32, DlcField(f), FdFlags(f));
  }

  lemma LengthRoundTrip(f: CanFrame, put: nat)
    requires f.Valid() && put < 32
    ensures DecodeLen(DlcWord(f, put)) == Dlc2Len(Len2Dlc(f.len))
  {
    hide DlcWord;
    SecondWord(f, put);
    NatBits(Len2Dlc(f.len));
  }

  lemma EffField(c: bv32)
    requires c & CAN_EFF_FLAG != 0
    ensures BaseBits(c) == (c & CAN_EFF_MASK) | BUF_XTD
  {
  }

  lemma SffField(c: bv32)
    requires c & CAN_EFF_FLAG == 0
    ensures BaseBits(c) == (c & CAN_SFF_MASK) << 18
  {
  }

  lemma RemoteField(c: bv32)
    ensures RemoteBit(c) == 0 || RemoteBit(c) == BUF_RTR
  {
  }

  lemma EffBits(c: bv32, b: bv32, r: bv32)
    requires (r == 0 || r == BUF_RTR) && b == (c & CAN_EFF_MASK) | BUF_XTD
    ensures (b | r) & BUF_XTD != 0 && (b | r) & BUF_RTR == r && (b | r) & CAN_EFF_MASK == c & CAN_EFF_MASK
  {
  }

  lemma SffBits(c: bv32, b: bv32, r: bv32)
    requires (r == 0 || r == BUF_RTR) && b == (c & CAN_SFF_MASK) << 18
    ensures ((b | r) >> 18) & CAN_SFF_MASK == c & CAN_SFF_MASK
  {
  }

  lemma LowFlags(c: bv32, b: bv32, r: bv32)
    requires (r == 0 || r == BUF_RTR) && b == (c & CAN_SFF_MASK) << 18
    ensures (b | r) & BUF_XTD == 0 && (b | r) & BUF_RTR == r
  {
  }

  /** The fields of the first word of an extended frame, read back. */
  lemma EffWord(c: bv32)
    requires c & CAN_EFF_FLAG != 0
    ensures IdWord(c) & BUF_XTD != 0 && IdWord(c) & BUF_RTR == RemoteBit(c)
    ensures IdWord(c) & CAN_EFF_MASK == c & CAN_EFF_MASK
  {
    hide BaseBits, RemoteBit;
    EffField(c);
    RemoteField(c);
    EffBits(c, BaseBits(c), RemoteBit(c));
  }

  /** And of a standard one. */
  lemma SffWord(c: bv32)
    requires c & CAN_EFF_FLAG == 0
    ensures (IdWord(c) >> 18) & CAN_SFF_MASK == c & CAN_SFF_MASK
  {
    hide BaseBits, RemoteBit;
    SffField(c);
    RemoteField(c);
    SffBits(c, BaseBits(c), RemoteBit(c));
  }

  lemma SffFlags(c: bv32)
    requires c & CAN_EFF_FLAG == 0
    ensures IdWord(c) & BUF_XTD == 0 && IdWord(c) & BUF_RTR == RemoteBit(c)
  {
    hide BaseBits, RemoteBit;
    SffField(c);
    RemoteField(c);
    LowFlags(c, BaseBits(c), RemoteBit(c));
  }

  lemma RemoteBitSent(c: bv32)
    ensures (IdWord(c) & BUF_RTR != 0) == (c & CAN_RTR_FLAG != 0)
  {
    hide IdWord;
    if c & CAN_EFF_FLAG != 0 {
      EffWord(c);
    } else {
      SffFlags(c);
    }
  }

  lemma BaseRoundTrip(f: CanFrame)
    ensures DecodeBase(IdWord(f.canId)) == CanonicalBase(f.canId)
  {
    hide IdWord, Extended;
    if f.canId & CAN_EFF_FLAG != 0 {
      EffWord(f.canId);
    } else {
      SffFlags(f.canId);
      SffWord(f.canId);
    }
  }

  lemma RemoteRoundTrip(f: CanFrame, put: nat)
    requires f.Valid() && put < 32
    ensures (DlcWord(f, put) & BUF_FDF == 0 && IdWord(f.canId) & BUF_RTR != 0) == f.Remote()
  {
    hide DlcWord, IdWord;
    RemoteBitSent(f.canId);
    SecondWord(f, put);
  }

  lemma IdRoundTrip(f: CanFrame, put: nat)
    requires f.Valid() && put < 32
    ensures DecodeId(IdWord(f.canId), DlcWord(f, put)) == CanonicalId(f)
  {
    hide DlcWord, IdWord, DecodeBase, CanonicalBase, WithRemote;
    BaseRoundTrip(f);
    RemoteRoundTrip(f, put);
  }

  lemma FlagsRoundTrip(f: CanFrame, put: nat)
    requires f.Valid() && put < 32
    ensures DecodeFlags(IdWord(f.canId), DlcWord(f, put)) == if f.fd then f.flags & CANFD_BRS else 0
  {
    hide DlcWord;
    SecondWord(f, put);
    BrsBit(f.flags);
  }

  lemma BrsBit(b: bv8)
    ensures b & CANFD_BRS == 0 || b & CANFD_BRS == CANFD_BRS
  {
  }

  /** Byte i of a frame read back from an element that held `before` when f was
      written: f's own bytes, then what the element still held, then zeros. */
  function ReceivedByte(f: CanFrame, before: seq<bv32>, i: nat): bv8
    requires f.Valid() && |before| == ELEMENT_WORDS && i < |f.data|
  {
    if f.Remote() then 0
    else if i < 4 * Words(f.len) then f.data[i]
    else if i < 4 * Words(Dlc2Len(Len2Dlc(f.len))) then ByteOf(before[2 + i / 4], i % 4)
    else 0
  }

  lemma DecodedLength(words: seq<bv32>)
    requires |words| == ELEMENT_WORDS
    ensures |DecodeData(words)| == if words[1] & BUF_FDF != 0 then 64 else 8
  {
    hide ByteOf, DecodeLen;
  }

  lemma DecodedByte(words: seq<bv32>, k: nat, j: nat)
    requires |words| == ELEMENT_WORDS && j < 4 && 4 * k + j < |DecodeData(words)|
    ensures var remote := words[1] & BUF_FDF == 0 && words[0] & BUF_RTR != 0;
            DecodeData(words)[4 * k + j]
            == if !remote && k < Words(DecodeLen(words[1])) then ByteOf(words[2 + k], j) else 0
  {
    hide ByteOf, DecodeLen;
    assert (4 * k + j) / 4 == k && (4 * k + j) % 4 == j;
  }

  lemma ElementWords(f: CanFrame, put: nat, before: seq<bv32>, k: nat)
    requires f.Valid() && put < 32 && |before| == ELEMENT_WORDS && 2 + k < ELEMENT_WORDS
    ensures var words := Element(f, put, before);
            && |words| == ELEMENT_WORDS && words[0] == IdWord(f.canId) && words[1] == DlcWord(f, put)
            && words[2 + k] == if k < Words(f.len) then LoadWord(f.data, k) else before[2 + k]
  {
    hide DlcWord, IdWord, LoadWord;
  }

  lemma ByteRoundTrip(f: CanFrame, put: nat, before: seq<bv32>, k: nat, j: nat)
    requires f.Valid() && put < 32 && |before| == ELEMENT_WORDS && j < 4 && 4 * k + j < |f.data|
    ensures var words := Element(f, put, before);
            && |DecodeData(words)| == |f.data|
            && DecodeData(words)[4 * k + j] == ReceivedByte(f, before, 4 * k + j)
  {
    hide DlcWord, IdWord, ByteOf, LoadWord, Dlc2Len, Len2Dlc, DecodeLen, Element, DecodeData;
    var words := Element(f, put, before);
    ElementWords(f, put, before, k);
    SecondWord(f, put);
    DecodedLength(words);
    DecodedByte(words, k, j);
    LengthRoundTrip(f, put);
    RemoteRoundTrip(f, put);
    RoundedLength(f.len);
    if k < Words(f.len) {
      LoadedBytes(f.data, k, j);
    }
    assert (4 * k + j) / 4 == k && (4 * k + j) % 4 == j;
  }

  lemma DataRoundTrip(f: CanFrame, put: nat, before: seq<bv32>)
    requires f.Valid() && put < 32 && |before| == ELEMENT_WORDS
    ensures var r := DecodeData(Element(f, put, before));
            |r| == |f.data| && forall i: nat | i < |r| :: r[i] == ReceivedByte(f, before, i)
  {
    hide DecodeData, Element, ReceivedByte;
    ByteRoundTrip(f, put, before, 0, 0);
    forall i: nat | i < |f.data|
      ensures DecodeData(Element(f, put, before))[i] == ReceivedByte(f, before, i)
    {
      ByteRoundTrip(f, put, before, i / 4, i % 4);
    }
  }

  /** Any valid frame, put in any slot over any old contents, is read back with
      the same identifier, flags and type, the length rounded up to a length that
      has a code, and its own data; only FD padding can be left over from before. */
  lemma FrameRoundTrip(f: CanFrame, put: nat, before: seq<bv32>)
    requires f.Valid() && put < 32 && |before| == ELEMENT_WORDS
    ensures var r := Decode(Element(f, put, before));
            && r.canId == CanonicalId(f) && r.fd == f.fd
            && r.flags == (if f.fd then f.flags & CANFD_BRS else 0)
            && r.len == Dlc2Len(Len2Dlc(f.len)) && f.len <= r.len
            && |r.data| == |f.data| && forall i: nat | i < |f.data| :: r.data[i] == ReceivedByte(f, before, i)
  {
    hide DlcWord, IdWord, DecodeId, DecodeFlags, DecodeLen, DecodeData, ReceivedByte, Dlc2Len, Len2Dlc, CanonicalId;
    IdRoundTrip(f, put);
    SecondWord(f, put);
    FlagsRoundTrip(f, put);
    LengthRoundTrip(f, put);
    DataRoundTrip(f, put, before);
    RoundedLength(f.len);
  }

  predicate Covered(len: nat) { Words(len) == Words(Dlc2Len(Len2Dlc(len))) }

  ghost predicate OwnData(f: CanFrame, put: nat, before: seq<bv32>)
    requires f.Valid() && put < 32 && |before| == ELEMENT_WORDS
  {
    var r := Decode(Element(f, put, before));
    |r.data| == |f.data| && forall i: nat | i < r.len && i < |f.data| :: r.data[i] == f.data[i]
  }

  lemma CoveredKeepsData(f: CanFrame, put: nat, before: seq<bv32>)
    requires f.Valid() && put < 32 && !f.Remote() && |before| == ELEMENT_WORDS && Covered(f.len)
    ensures OwnData(f, put, before)
  {
    hide Decode, Element, Dlc2Len, Len2Dlc;
    FrameRoundTrip(f, put, before);
  }

  lemma UncoveredShowsOldData(f: CanFrame, put: nat) returns (before: seq<bv32>)
    requires f.Valid() && put < 32 && !f.Remote() && !Covered(f.len)
    ensures |before| == ELEMENT_WORDS && !OwnData(f, put, before)
  {
    RoundedLength(f.len);
    var i := 4 * Words(f.len);
    var other: bv32 := if f.data[i] == 0 then 1 else 0;
    before := seq(ELEMENT_WORDS, _ => other);
    FrameRoundTrip(f, put, before);
    hide Decode, Element, Dlc2Len, Len2Dlc;
    assert i % 4 == 0 && before[2 + i / 4] == other;
    assert ByteOf(other, 0) != f.data[i];
    assert ReceivedByte(f, before, i) != f.data[i];
  }

  /** Old element contents can reach the receiver exactly when rounding up the
      length takes in a word the frame itself did not write. */
  lemma OldDataExactly(f: CanFrame, put: nat)
    requires f.Valid() && put < 32 && !f.Remote()
    ensures (forall before: seq<bv32> | |before| == ELEMENT_WORDS :: OwnData(f, put, before)) <==> Covered(f.len)
  {
    if Covered(f.len) {
      forall before: seq<bv32> | |before| == ELEMENT_WORDS
        ensures OwnData(f, put, before)
      {
        CoveredKeepsData(f, put, before);
      }
    } else {
      var before := UncoveredShowsOldData(f, put);
    }
  }
}
