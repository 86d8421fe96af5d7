/** The TIM element of a beacon: how `update_BCNTIM` (rtw_ap.c) writes it, and how
    section 8.4.2.7 of IEEE Std 802.11-2012 reads it. */
module BeaconTim {
  import opened BeaconElements
  import opened Octets
  import opened Powers
  import opened Wrappers

  const TIM_IE: byte := 5
  const SSID_IE: byte := 0
  const SUPPORTEDRATES_IE: byte := 1

  /** One bit per association id, 0 for group frames. */
  type Bitmap = b: nat | b < 0x1_0000

  predicate Bit(v: nat, n: nat) {
    if n == 0 then v % 2 == 1 else Bit(v / 2, n - 1)
  }

  predicate LowSet(b: Bitmap) {
    b % 256 / 2 != 0
  }

  predicate HighSet(b: Bitmap) {
    b / 256 != 0
  }

  /** The element's body: DTIM count and period, bitmap control, and one or two octets
      of the bitmap. */
  function TimBody(b: Bitmap): (body: Body)
    ensures |body| >= 4
  {
    [0, 1, b % 2] +
    if HighSet(b) && LowSet(b) then [b % 256, b / 256]
    else if LowSet(b) || !HighSet(b) then [b % 256] else [b / 256]
  }

  /** Octet by octet: identifier 5, the length, DTIM count 0 and period 1, the bit for group
      frames, and of the bitmap both octets when an id above 7 and one from 1 to 7 is set,
      otherwise only the second when none from 1 to 7 but one above is, and the first when
      none above is. */
  lemma TimOctets(b: Bitmap)
    ensures var low, high := b % 256, b / 256;
            IeBytes(Tim(b)) == if high != 0 && low >= 2 then [5, 5, 0, 1, b % 2, low, high]
                               else if high != 0 then [5, 4, 0, 1, b % 2, high]
                               else [5, 4, 0, 1, b % 2, low]
  {
  }

  /** Section 8.4.2.7: bit 0 of the control octet speaks for group frames, its other
      bits give half the number of the first octet present; an octet that is not
      present reads as zero. */
  predicate Decoded(body: seq<byte>, n: nat)
    requires |body| >= 4
  {
    if n == 0 then body[2] % 2 == 1
    else
      var at := n / 8 - body[2] / 2 * 2;
      0 <= at < |body| - 3 && Bit(body[3 + at], n % 8)
  }

  lemma HalfMod(v: nat, k: nat)
    requires k > 0
    ensures v % Pow2(k) % 2 == v % 2 && v % Pow2(k) / 2 == v / 2 % Pow2(k - 1)
  {
    hide Pow2;
    ModPow2(v, k - 1);
  }

  lemma {:induction false} BitMod(v: nat, k: nat, n: nat)
    requires n < k
    ensures Bit(v % Pow2(k), n) == Bit(v, n)
  {
    hide Pow2;
    HalfMod(v, k);
    if n > 0 {
      BitMod(v / 2, k - 1, n - 1);
    }
  }

  lemma {:induction false} BitShift(v: nat, k: nat, n: nat)
    ensures Bit(Shr(v, k), n) == Bit(v, n + k)
  {
    if k > 0 {
      BitShift(v / 2, k - 1, n);
    }
  }

  lemma LowBits(b: Bitmap, n: nat)
    requires n < 8
    ensures Bit(b, n) == Bit(b % 256, n) && Bit(b, n + 8) == Bit(b / 256, n)
  {
    hide Bit;
    BitMod(b, 8, n);
    BitShift(b, 8, n);
    ShrIsDiv(b, 8);
    SmallPowers();
  }

  lemma SmallPowers()
    ensures Pow2(8) == 256
  {
    assert Pow2(4) == 16;
  }

  /** A number between zero and 2^k has one of its first k bits set. */
  lemma {:induction false} SomeBit(v: nat, k: nat) returns (n: nat)
    requires 0 < v < Pow2(k)
    ensures n < k && Bit(v, n)
  {
    if v % 2 == 1 {
      n := 0;
    } else {
      var m := SomeBit(v / 2, k - 1);
      n := m + 1;
    }
  }

  lemma {:induction false} NoBit(n: nat)
    ensures !Bit(0, n)
  {
    if n > 0 { NoBit(n - 1); }
  }

  /** Stations read back the bitmap exactly when some of the ids 1 to 7 is set or none
      of the ids 8 to 15: otherwise the only octet written is the wrong one. */
  lemma DecodesExactly(b: Bitmap)
    ensures (forall n: nat | n < 16 :: Decoded(TimBody(b), n) == Bit(b, n)) <==> LowSet(b) || !HighSet(b)
  {
    if LowSet(b) || !HighSet(b) {
      forall n: nat | n < 16 ensures Decoded(TimBody(b), n) == Bit(b, n) {
        DecodesBit(b, n);
      }
    } else {
      hide Bit;
      SmallPowers();
      var n := SomeBit(b / 256, 8);
      LowBits(b, n);
      assert !Decoded(TimBody(b), n + 8);
    }
  }

  lemma DecodesBit(b: Bitmap, n: nat)
    requires n < 16 && (LowSet(b) || !HighSet(b))
    ensures Decoded(TimBody(b), n) == Bit(b, n)
  {
    hide Bit, Pow2, TimBody, LowSet, Decoded;
    if n == 0 {
      GroupBit(b);
    } else if n < 8 {
      OctetBit(b, 0, n);
      LowBits(b, n);
    } else {
      OctetBit(b, 1, n - 8);
      LowBits(b, n - 8);
      if !HighSet(b) { NoBit(n - 8); }
    }
  }

  lemma GroupBit(b: Bitmap)
    ensures Decoded(TimBody(b), 0) == Bit(b, 0)
  {
  }

  /** Bit i of octet k, as the element holds it. */
  lemma OctetBit(b: Bitmap, k: nat, i: nat)
    requires (LowSet(b) || !HighSet(b)) && k < 2 && i < 8 && (k > 0 || i > 0)
    ensures Decoded(TimBody(b), 8 * k + i) == if k == 0 then Bit(b % 256, i) else HighSet(b) && Bit(b / 256, i)
  {
    hide TimBody, LowSet;
    hide Bit;
    BodyOctets(b);
    assert (8 * k + i) / 8 == k && (8 * k + i) % 8 == i;
  }

  lemma BodyOctets(b: Bitmap)
    requires LowSet(b) || !HighSet(b)
    ensures TimBody(b)[2] / 2 == 0 && TimBody(b)[3] == b % 256
    ensures |TimBody(b)| == if HighSet(b) then 5 else 4
    ensures HighSet(b) ==> TimBody(b)[4] == b / 256
  {
  }

  // ----- the element in its list

  function Tim(b: Bitmap): Ie {
    Ie(TIM_IE, TimBody(b))
  }

  /** A TIM element with a body is replaced; an empty one counts as none. */
  predicate Replaceable(elems: seq<Ie>) {
    First(elems, TIM_IE).Some? && elems[First(elems, TIM_IE).value].body != []
  }

  function Size(elems: seq<Ie>, id: byte): nat {
    match First(elems, id) { case None => 0 case Some(k) => 2 + |elems[k].body| }
  }

  /** The bytes a new TIM element is put behind: SSID and rates wherever they are, and
      three for a DS parameter set. */
  function HeadLen(elems: seq<Ie>): nat {
    Size(elems, SSID_IE) + Size(elems, SUPPORTEDRATES_IE) + 3
  }

  /** How many elements the first off bytes hold, when they end between elements. */
  function Boundary(elems: seq<Ie>, off: nat): (k: Option<nat>)
    ensures k.Some? ==> k.value <= |elems| && |Encode(elems[..k.value])| == off
  {
    if off == 0 then Some(0)
    else if elems == [] || off < 2 + |elems[0].body| then None
    else
      match Boundary(elems[1..], off - 2 - |elems[0].body|)
      case None => None
      case Some(k) => assert elems[..k + 1][1..] == elems[1..][..k]; Some(k + 1)
  }

  predicate Placed(elems: seq<Ie>) {
    Replaceable(elems) || Boundary(elems, HeadLen(elems)).Some?
  }

  function Updated(elems: seq<Ie>, b: Bitmap): seq<Ie>
    requires Placed(elems)
  {
    if Replaceable(elems) then elems[First(elems, TIM_IE).value := Tim(b)]
    else
      var k := Boundary(elems, HeadLen(elems)).value;
      elems[..k] + [Tim(b)] + elems[k..]
  }

  /** A list that starts with SSID, rates and DS parameter set takes the TIM element
      right behind them. */
  lemma StandardOrder(elems: seq<Ie>)
    requires |elems| >= 3 && elems[0].id == 0 && elems[1].id == 1 && |elems[2].body| == 1
    ensures Boundary(elems, HeadLen(elems)) == Some(3) && Placed(elems)
  {
    var s, r := 2 + |elems[0].body|, 2 + |elems[1].body|;
    assert elems[1..][1..] == elems[2..] && elems[2..][1..] == elems[3..];
    assert HeadLen(elems) == s + r + 3;
    assert Boundary(elems[3..], 0) == Some(0);
    assert Boundary(elems[2..], 3) == Some(1);
    assert Boundary(elems[1..], r + 3) == Some(2);
  }

  lemma BoundaryPrefix(elems: seq<Ie>, k: nat, t: Ie)
    requires k <= |elems| && |Encode(elems[..k])| > 0
    ensures Boundary(elems[..k] + [t] + elems[k..], |Encode(elems[..k])|) == Some(k)
  {
    PrefixBoundary(elems[..k], [t] + elems[k..]);
    assert elems[..k] + ([t] + elems[k..]) == elems[..k] + [t] + elems[k..];
  }

  lemma {:induction false} PrefixBoundary(a: seq<Ie>, c: seq<Ie>)
    ensures Boundary(a + c, |Encode(a)|) == Some(|a|)
  {
    if a != [] {
      PrefixBoundary(a[1..], c);
      assert (a + c)[1..] == a[1..] + c;
    }
  }

  lemma SizeKept(elems: seq<Ie>, k: nat, t: Ie, id: byte)
    requires k <= |elems| && t.id != id
    ensures Size(elems[..k] + [t] + elems[k..], id) == Size(elems, id)
  {
    var r := elems[..k] + [t] + elems[k..];
    var f := First(elems, id);
    if f.Some? {
      var at := if f.value < k then f.value else f.value + 1;
      assert r[at] == elems[f.value];
      assert forall i | 0 <= i < at :: r[i].id != id;
    } else {
      assert forall i | 0 <= i < |r| :: r[i].id != id;
    }
  }

  /** A second update with the same bitmap changes nothing, unless an empty TIM element
      stands in front of the place where the new one goes. */
  lemma UpdateTwice(elems: seq<Ie>, b: Bitmap)
    requires Placed(elems)
    ensures var u := Updated(elems, b);
      && Placed(u)
      && (Updated(u, b) == u <==>
          Replaceable(elems) || First(elems[..Boundary(elems, HeadLen(elems)).value], TIM_IE) == None)
  {
    hide Boundary, Encode, First, TimBody, HeadLen, Tim;
    var u := Updated(elems, b);
    if Replaceable(elems) {
      var k := First(elems, TIM_IE).value;
      ReplacedFirst(elems, k, b);
    } else {
      var k := Boundary(elems, HeadLen(elems)).value;
      if First(elems[..k], TIM_IE) == None {
        InsertedFirst(elems, k, b);
      } else {
        InsertedBehind(elems, k, b);
      }
    }
  }

  /** An empty TIM element, a longer one, an SSID and a rate. */
  const BEHIND_EMPTY: seq<Ie> :=
    [Ie(TIM_IE, []), Ie(7, [1, 2, 3, 4, 5]), Ie(SSID_IE, [65]), Ie(SUPPORTEDRATES_IE, [130])]

  /** An input on which the second update changes something: it inserts the element again. */
  lemma TwiceAddsTwo(b: Bitmap)
    ensures Placed(BEHIND_EMPTY) && !Replaceable(BEHIND_EMPTY)
            && Boundary(BEHIND_EMPTY, HeadLen(BEHIND_EMPTY)) == Some(2)
    ensures var u := Updated(BEHIND_EMPTY, b);
            |u| == 5 && Placed(u) && Updated(u, b) != u
  {
    hide TimBody;
    var elems := BEHIND_EMPTY;
    assert elems[1..] == [Ie(7, [1, 2, 3, 4, 5]), Ie(SSID_IE, [65]), Ie(SUPPORTEDRATES_IE, [130])];
    FirstIs(elems, TIM_IE, 0);
    FirstIs(elems, SSID_IE, 2);
    FirstIs(elems, SUPPORTEDRATES_IE, 3);
    assert Boundary(elems[1..][1..], 0) == Some(0);
    assert Boundary(elems[1..], 7) == Some(1);
    FirstIs(elems[..2], TIM_IE, 0);
    UpdateTwice(elems, b);
  }

  lemma ReplacedFirst(elems: seq<Ie>, k: nat, b: Bitmap)
    requires First(elems, TIM_IE) == Some(k)
    ensures var u := elems[k := Tim(b)]; Replaceable(u) && First(u, TIM_IE) == Some(k) && u[k := Tim(b)] == u
  {
    hide First, TimBody;
    FirstIs(elems[k := Tim(b)], TIM_IE, k);
  }

  lemma InsertedFirst(elems: seq<Ie>, k: nat, b: Bitmap)
    requires k <= |elems| && First(elems[..k], TIM_IE) == None
    ensures var u := elems[..k] + [Tim(b)] + elems[k..];
            Replaceable(u) && First(u, TIM_IE) == Some(k) && u[k := Tim(b)] == u
  {
    hide First, TimBody;
    var u := elems[..k] + [Tim(b)] + elems[k..];
    assert forall i | 0 <= i < k :: u[i] == elems[..k][i];
    FirstIs(u, TIM_IE, k);
  }

  lemma InsertedBehind(elems: seq<Ie>, k: nat, b: Bitmap)
    requires !Replaceable(elems) && Boundary(elems, HeadLen(elems)) == Some(k) && First(elems[..k], TIM_IE).Some?
    ensures var u := elems[..k] + [Tim(b)] + elems[k..];
            !Replaceable(u) && Boundary(u, HeadLen(u)) == Some(k)
  {
    hide Boundary, Encode, First, TimBody;
    var u := elems[..k] + [Tim(b)] + elems[k..];
    var f := First(elems[..k], TIM_IE).value;
    assert forall i | 0 <= i < k :: elems[i] == elems[..k][i] == u[i];
    FirstIs(elems, TIM_IE, f);
    FirstIs(u, TIM_IE, f);
    SizeKept(elems, k, Tim(b), SSID_IE);
    SizeKept(elems, k, Tim(b), SUPPORTEDRATES_IE);
    BoundaryPrefix(elems, k, Tim(b));
  }

  /** After the update a station finds the new element first, every other element is
      where it was, and the station reads the bitmap exactly in the cases above. */
  lemma StationReads(elems: seq<Ie>, b: Bitmap)
    requires Placed(elems)
    requires Replaceable(elems) || First(elems[..Boundary(elems, HeadLen(elems)).value], TIM_IE) == None
    ensures var u := Updated(elems, b);
      && First(u, TIM_IE).Some?
      && var k := First(u, TIM_IE).value;
         && |u[k].body| >= 4
         && u[..k] + u[k + 1..] == (if Replaceable(elems) then elems[..k] + elems[k + 1..] else elems)
         && ((forall n: nat | n < 16 :: Decoded(u[k].body, n) == Bit(b, n)) <==> LowSet(b) || !HighSet(b))
  {
    hide Boundary, Encode, First, TimBody, HeadLen, Decoded, Bit, LowSet, HighSet;
    DecodesExactly(b);
    if Replaceable(elems) {
      ReplacedFirst(elems, First(elems, TIM_IE).value, b);
    } else {
      InsertedFirst(elems, Boundary(elems, HeadLen(elems)).value, b);
    }
  }

  /** Where the element goes in the buffer, and how many bytes of an old one go. */
  function Offset(elems: seq<Ie>): nat {
    if Replaceable(elems) then Start(elems, First(elems, TIM_IE).value) else FIXED_IE_LENGTH + HeadLen(elems)
  }

  function Replaced(elems: seq<Ie>): nat {
    if Replaceable(elems) then Size(elems, TIM_IE) else 0
  }

  /** The offset lies inside the list, or the length left behind it wraps around. */
  predicate Reached(elems: seq<Ie>) { Replaceable(elems) || HeadLen(elems) <= |Encode(elems)| }

  /** The element to replace, or the place for a new one. */
  method FindPlace(net: Network) returns (offset: nat, n: nat)
    requires net.Valid()
    ensures offset == Offset(net.elems) && n == Replaced(net.elems)
  {
    hide Encode, First, Start;
    var p, len := net.GetIe(TIM_IE);
    if p != None && len > 0 { return p.value, len + 2; }
    offset, n := FIXED_IE_LENGTH, 0;
    p, len := net.GetIe(SSID_IE);
    if p != None { offset := offset + len + 2; }
    p, len := net.GetIe(SUPPORTEDRATES_IE);
    if p != None { offset := offset + len + 2; }
    offset := offset + 3;
  }

  /** `update_BCNTIM`: the bytes at the offset give way to the element, wherever it falls;
      between elements this is the edit of the list described above. */
  method UpdateTim(net: Network, b: Bitmap)
    requires net.Valid() && Reached(net.elems)
    requires net.ieLength - Replaced(net.elems) + |IeBytes(Tim(b))| <= MAX_IE_SZ
    modifies net`ieLength, net`elems, net.ies
    ensures var at, n, was := Offset(old(net.elems)), Replaced(old(net.elems)), old(net.ies[..net.ieLength]);
      && at + n <= |was| && net.ieLength == |was| - n + |IeBytes(Tim(b))|
      && net.ies[..net.ieLength] == was[..at] + IeBytes(Tim(b)) + was[at + n..]
    ensures Placed(old(net.elems)) ==> net.Valid() && net.elems == Updated(old(net.elems), b)
  {
    hide Placed, Encode, IeBytes, Updated, Offset, Replaced;
    ghost var elems, bytes := net.elems, net.ies[..net.ieLength];
    OffsetFits(bytes, net.fixed, elems);
    var offset, n := FindPlace(net);
    net.Edit(offset, n, IeBytes(Tim(b)));
    assert net.ies[..net.ieLength] == bytes[..offset] + IeBytes(Tim(b)) + bytes[offset + n..];
    if Placed(elems) {
      UpdatedBytes(bytes, net.fixed, elems, b);
      net.elems := Updated(elems, b);
    }
  }

  lemma OffsetFits(bytes: seq<byte>, fixed: seq<byte>, elems: seq<Ie>)
    requires |fixed| == FIXED_IE_LENGTH && bytes == fixed + Encode(elems) && Reached(elems)
    ensures Offset(elems) + Replaced(elems) <= |bytes|
  {
    hide Encode, First, Start, HeadLen;
    if Replaceable(elems) { ElementBytes(bytes, fixed, elems, First(elems, TIM_IE).value); }
  }

  lemma UpdatedBytes(bytes: seq<byte>, fixed: seq<byte>, elems: seq<Ie>, b: Bitmap)
    requires |fixed| == FIXED_IE_LENGTH && bytes == fixed + Encode(elems) && Placed(elems)
    ensures var at, n := Offset(elems), Replaced(elems);
      at + n <= |bytes| && bytes[..at] + IeBytes(Tim(b)) + bytes[at + n..] == fixed + Encode(Updated(elems, b))
  {
    hide Boundary, Encode, First, TimBody, Start, IeBytes, HeadLen;
    EncodeCons([Tim(b)]);
    if Replaceable(elems) {
      var k := First(elems, TIM_IE).value;
      ElementBytes(bytes, fixed, elems, k);
      assert elems[..k] + [Tim(b)] + elems[k + 1..] == elems[k := Tim(b)];
      EditedBytes(bytes, fixed, elems, k, k + 1, [Tim(b)]);
    } else {
      var k := Boundary(elems, HeadLen(elems)).value;
      StartIs(elems, k);
      EditedBytes(bytes, fixed, elems, k, k, [Tim(b)]);
    }
  }

  lemma StartIs(elems: seq<Ie>, k: nat)
    requires k <= |elems|
    ensures Start(elems, k) == FIXED_IE_LENGTH + |Encode(elems[..k])|
  {
  }
}
