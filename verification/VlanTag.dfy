/** The VLAN part of `nat25_handle_frame` (rtw_br_ext.c): the tag is shifted out of
    the frame in place, the frame handled, and the tag shifted back in. */
module VlanTag {
  import opened Octets
  import opened SkBuffs

  const ETH_P_8021Q: seq<byte> := [0x81, 0x00]
  const VLAN_HLEN := 4

  predicate Tagged(f: seq<byte>) {
    |f| >= 16 && f[12..14] == ETH_P_8021Q
  }

  /** The frame without its tag, and the two bytes of the tag that follow its type. */
  function Untagged(f: seq<byte>): seq<byte>
    requires |f| >= 16
  {
    f[..12] + f[16..]
  }

  function WithTag(f: seq<byte>, hdr: seq<byte>): seq<byte>
    requires |f| >= 12 && |hdr| == 2
  {
    f[..12] + ETH_P_8021Q + hdr + f[12..]
  }

  /** The tag is the four bytes behind the addresses that start with 81 00. */
  lemma TagBytes(f: seq<byte>, hdr: seq<byte>)
    requires |f| >= 16 && |hdr| == 2
    ensures Tagged(f) <==> f[12] == 0x81 && f[13] == 0
    ensures |Untagged(f)| == |f| - 4 && forall k | 0 <= k < |f| - 4 :: Untagged(f)[k] == f[if k < 12 then k else k + 4]
    ensures WithTag(f, hdr)[12..16] == [0x81, 0, hdr[0], hdr[1]]
  {
    assert f[12..14] == [f[12], f[13]];
  }

  /** Putting the tag back undoes taking it out, and the other way round. */
  lemma TagRoundTrip(f: seq<byte>, g: seq<byte>, hdr: seq<byte>)
    requires Tagged(f) && |g| >= 12 && |hdr| == 2
    ensures WithTag(Untagged(f), f[14..16]) == f
    ensures Tagged(WithTag(g, hdr)) && WithTag(g, hdr)[14..16] == hdr && Untagged(WithTag(g, hdr)) == g
  {
    var u := Untagged(f);
    assert u[..12] == f[..12] && u[12..] == f[16..];
    assert f == f[..12] + f[12..14] + f[14..16] + f[16..];
    var t := WithTag(g, hdr);
    assert t[..12] == g[..12] && t[12..14] == ETH_P_8021Q && t[16..] == g[12..];
  }

  /** Bytes lo..hi come from `step` places further on, all others are as they were. */
  ghost predicate Shifted(was: seq<byte>, now: seq<byte>, lo: int, hi: int, step: int)
    requires 0 <= lo && hi <= |was| && 0 <= lo + step && hi + step <= |was|
  {
    && |now| == |was|
    && (forall k | lo <= k < hi :: now[k] == was[k + step])
    && (forall k | 0 <= k < |was| && !(lo <= k < hi) :: now[k] == was[k])
  }

  lemma NothingShifted(was: seq<byte>, at: int, step: int)
    requires 0 <= at <= |was| && 0 <= at + step <= |was|
    ensures Shifted(was, was, at, at, step)
  {
  }

  lemma ShiftStep(was: seq<byte>, now: seq<byte>, lo: int, hi: int, at: int, step: int)
    requires 0 <= lo <= hi && hi <= |was| && 0 <= lo + step && hi + step <= |was| && Shifted(was, now, lo, hi, step)
    requires (step == -4 && at == lo - 2 && 0 <= at + step) || (step == 4 && at == hi && at + 2 + step <= |was|)
    ensures Shifted(was, now[at := now[at + step]][at + 1 := now[at + step + 1]], if step < 0 then at else lo,
            if step < 0 then hi else at + 2, step)
  {
  }

  lemma StrippedBytes(was: seq<byte>, now: seq<byte>, d: nat, tail: nat)
    requires d + 16 <= tail <= |was| && Shifted(was, now, d + 4, d + 16, -4)
    ensures now[d + 4..tail] == Untagged(was[d..tail])
  {
  }

  lemma RestoredBytes(was: seq<byte>, now: seq<byte>, d: nat, len: nat, hdr: seq<byte>)
    requires 16 <= len && d + len <= |was| && Shifted(was, now, d, d + 12, 4) && |hdr| == 2
    ensures Splice(Splice(now[d..], 12, ETH_P_8021Q), 14, hdr)[..len] == WithTag(was[d + 4..d + len], hdr)
  {
    var f := was[d + 4..d + len];
    assert now[d..][..12] == f[..12];
    assert now[d..][16..len] == f[12..];
  }

  /** `*(unsigned short *)(data + dst) = *(unsigned short *)(data + src)`. */
  method CopyWord(a: array<byte>, dst: nat, src: nat)
    requires dst + 2 <= a.Length && src + 2 <= a.Length
    modifies a
    ensures a[..] == old(a[..][dst := a[src]][dst + 1 := a[src + 1]])
  {
    a[dst], a[dst + 1] := a[src], a[src + 1];
  }

  /** The shifting loop and `skb_pull`: six words move four bytes up, last first. */
  method Strip(skb: SkBuff) returns (hdr: seq<byte>)
    requires skb.Valid() && Tagged(skb.Frame())
    modifies skb`data, skb.head
    ensures skb.Valid() && skb.data == old(skb.data) + VLAN_HLEN
    ensures hdr == old(skb.Frame()[14..16]) && skb.Frame() == Untagged(old(skb.Frame()))
  {
    hide Shifted, Untagged;
    var a, d := skb.head, skb.data;
    ghost var was := a[..];
    hdr := [a[d + 14], a[d + 15]];
    NothingShifted(was, d + 16, -4);
    for i := 0 to 6
      modifies a
      invariant Shifted(was, a[..], d + 16 - 2 * i, d + 16, -4)
    {
      ShiftStep(was, a[..], d + 16 - 2 * i, d + 16, d + 14 - 2 * i, -4);
      CopyWord(a, d + 14 - 2 * i, d + 10 - 2 * i);
    }
    StrippedBytes(was, a[..], d, skb.tail);
    skb.data := d + VLAN_HLEN;
  }

  /** `skb_push`, the shifting loop back, and the tag written again. */
  method Restore(skb: SkBuff, hdr: seq<byte>)
    requires skb.Valid() && skb.data >= VLAN_HLEN && |skb.Frame()| >= 12 && |hdr| == 2
    modifies skb`data, skb.head
    ensures skb.Valid() && skb.data == old(skb.data) - VLAN_HLEN
    ensures skb.Frame() == WithTag(old(skb.Frame()), hdr)
  {
    hide Shifted, WithTag, Splice;
    var a, d := skb.head, skb.data - VLAN_HLEN;
    ghost var was := a[..];
    skb.data := d;
    NothingShifted(was, d, 4);
    for i := 0 to 6
      modifies a
      invariant Shifted(was, a[..], d, d + 2 * i, 4)
    {
      ShiftStep(was, a[..], d, d + 2 * i, d + 2 * i, 4);
      CopyWord(a, d + 2 * i, d + 2 * i + 4);
    }
    RestoredBytes(was, a[..], d, skb.Len(), hdr);
    assert a[..][d..] == skb.Mem() && was[d + 4..d + skb.Len()] == old(skb.Frame());
    skb.Memcpy(12, ETH_P_8021Q);
    skb.Memcpy(14, hdr);
  }

  /** What the NAT2.5 handling writes in place of the inner frame. */
  method Handle(skb: SkBuff, handler: seq<byte> -> seq<byte>)
    requires skb.Valid() && skb.data + |handler(skb.Frame())| <= skb.head.Length
    modifies skb`tail, skb.head
    ensures skb.Valid() && skb.Frame() == handler(old(skb.Frame()))
  {
    var g := handler(skb.Frame());
    skb.Memcpy(0, g);
    skb.tail := skb.data + |g|;
  }

  function Inner(f: seq<byte>): seq<byte> {
    if Tagged(f) then Untagged(f) else f
  }

  /** `nat25_handle_frame`: a group address is left alone, an untagged frame is handled
      as it is, and a tagged one comes back with its own tag around whatever the
      handler made of the inner frame. */
  method HandleFrame(skb: SkBuff, handler: seq<byte> -> seq<byte>)
    requires skb.Valid() && |skb.Frame()| >= ETH_HLEN
    requires var f := skb.Frame();
             f[0] % 2 == 0 ==>
               && (f[12..14] == ETH_P_8021Q ==> |f| >= 16)
               && 12 <= |handler(Inner(f))|
               && skb.data + (|f| - |Inner(f)|) + |handler(Inner(f))| <= skb.head.Length
    modifies skb, skb.head
    ensures skb.Valid() && skb.data == old(skb.data)
    ensures var f := old(skb.Frame());
            skb.Frame() == if f[0] % 2 == 1 then f
                           else if Tagged(f) then WithTag(handler(Untagged(f)), f[14..16]) else handler(f)
  {
    var f := skb.Frame();
    if f[0] % 2 == 0 {
      if f[12..14] == ETH_P_8021Q {
        var hdr := Strip(skb);
        Handle(skb, handler);
        Restore(skb, hdr);
      } else {
        Handle(skb, handler);
      }
    }
  }

  /** With a handler that changes nothing the whole call restores every byte. */
  method HandleIdentity(skb: SkBuff)
    requires skb.Valid() && |skb.Frame()| >= ETH_HLEN
    requires skb.Frame()[0] % 2 == 0 && skb.Frame()[12..14] == ETH_P_8021Q ==> |skb.Frame()| >= 16
    modifies skb, skb.head
    ensures skb.Valid() && skb.Frame() == old(skb.Frame())
  {
    ghost var f := skb.Frame();
    if Tagged(f) {
      TagRoundTrip(f, f, f[14..16]);
    }
    HandleFrame(skb, g => g);
  }
}
