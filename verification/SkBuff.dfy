/** Bytes in network order, and the packet buffer whose frame is edited in place. */
module SkBuffs {
  import opened Octets

  const ETH_ALEN := 6
  const ETH_HLEN := 14

  /** The value `ntohs` gives for two bytes of a frame, and the bytes of `htons`. */
  function Ntohs(hi: byte, lo: byte): (v: nat)
    ensures v < 0x1_0000
  {
    256 * hi + lo
  }

  function Htons(v: nat): (s: seq<byte>)
    requires v < 0x1_0000
    ensures |s| == 2 && Ntohs(s[0], s[1]) == v
  {
    [v / 256, v % 256]
  }

  /** `struct sk_buff`: the frame is head[data..tail], the rest of head is room. */
  class SkBuff {
    const head: array<byte>
    var data: nat
    var tail: nat

    constructor (frame: seq<byte>, headroom: nat, tailroom: nat)
      ensures Valid() && fresh(head) && Frame() == frame && data == headroom && Tailroom() == tailroom
    {
      head := new byte[headroom + |frame| + tailroom];
      data, tail := headroom, headroom + |frame|;
      new;
      forall i | 0 <= i < |frame| {
        head[headroom + i] := frame[i];
      }
    }

    predicate Valid()
      reads this
    {
      data <= tail <= head.Length
    }

    function Frame(): (f: seq<byte>)
      requires Valid()
      reads this, head
      ensures |f| == tail - data
    {
      head[data..tail]
    }

    function Len(): nat
      requires Valid()
      reads this
    {
      tail - data
    }

    function Tailroom(): nat
      requires Valid()
      reads this
    {
      head.Length - tail
    }

    /** The frame and the room behind it. */
    function Mem(): (m: seq<byte>)
      requires Valid()
      reads this, head
      ensures |m| == Len() + Tailroom() && Frame() == m[..Len()]
    {
      head[data..]
    }

    /** `memmove(skb->data + dst, skb->data + src, n)`. */
    method Memmove(dst: nat, src: nat, n: nat)
      requires Valid() && dst + n <= |Mem()| && src + n <= |Mem()|
      modifies head
      ensures Mem() == Splice(old(Mem()), dst, old(Mem())[src..src + n])
    {
      ghost var r := Splice(Mem(), dst, Mem()[src..src + n]);
      forall i | data + dst <= i < data + dst + n {
        head[i] := head[i - dst + src];
      }
      assert forall k | 0 <= k < |r| :: head[data + k] == r[k];
    }

    /** `memcpy(skb->data + dst, s, |s|)`. */
    method Memcpy(dst: nat, s: seq<byte>)
      requires Valid() && dst + |s| <= |Mem()|
      modifies head
      ensures Mem() == Splice(old(Mem()), dst, s)
    {
      ghost var r := Splice(Mem(), dst, s);
      forall i | data + dst <= i < data + dst + |s| {
        head[i] := s[i - dst - data];
      }
      assert forall k | 0 <= k < |r| :: head[data + k] == r[k];
    }
  }

  /** m with the bytes from dst on overwritten by x. */
  function Splice(m: seq<byte>, dst: nat, x: seq<byte>): (r: seq<byte>)
    requires dst + |x| <= |m|
    ensures |r| == |m|
  {
    m[..dst] + x + m[dst + |x|..]
  }
}
