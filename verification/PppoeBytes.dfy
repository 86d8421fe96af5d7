/** The relay tag and the frames around it byte by byte, with the numbers of RFC 2516: what
    leaves the bridge, what it takes out of a reply, and what it refuses. */
module PppoeBytes {
  import opened Octets
  import opened PppoeRelay
  import opened SkBuffs
  import opened Wrappers

  /** A 16-bit number goes out high byte first. */
  lemma HtonsIs(v: nat)
    requires v < 0x1_0000
    ensures Htons(v) == [v / 256, v % 256]
  {
  }

  /** And is read so. */
  lemma LengthBytes(f: seq<byte>)
    requires |f| >= 20
    ensures TagsLen(f) == 256 * f[18] as int + f[19] as int
  {
  }

  /** Type 01 10, the length, the magic code 81 86, the client's MAC and the old data. */
  lemma RelayTagBytes(mac: Mac, d: seq<byte>)
    requires |d| < 0xFFF8
    ensures RelayTag(mac, d) == [1, 16, (8 + |d|) / 256, (8 + |d|) % 256, 0x81, 0x86] + mac + d
  {
  }

  /** An old relay tag is refused exactly when it has more than 28 bytes of data, which is
      what the 40-byte buffer leaves, or when it ends behind the frame. */
  lemma MovableExactly(f: seq<byte>, at: nat, len: nat)
    ensures Movable(f, NoTag)
    ensures Movable(f, OldTag(at, len)) <==> len <= 28 && 20 + at + 4 + len <= |f|
  {
  }

  /** Taking it out closes the gap and lowers the length by the tag's size. */
  lemma WithoutOldBytes(f: seq<byte>, p: nat, n: nat)
    requires |f| >= PPPOE_TAGS && PPPOE_TAGS + TagsLen(f) <= |f|
    requires Movable(f, OldTag(p, n)) && Inside(f, OldTag(p, n))
    ensures var v := 256 * f[18] as int + f[19] as int - 4 - n;
            && 0 <= v < 0x1_0000 && 24 + p + n <= |f|
            && WithoutOld(f, OldTag(p, n)) == f[..18] + Htons(v) + f[20..20 + p] + f[24 + p + n..]
            && OldData(f, OldTag(p, n)) == f[24 + p..24 + p + n]
  {
    hide Htons, TagsLen;
    LengthBytes(f);
  }

  /** On a big-endian host the frame that leaves is the old one with the tag in front of the
      others and the length raised by its size. */
  lemma SentBytes(g: seq<byte>, mac: Mac, d: seq<byte>, stack: nat -> byte)
    requires |g| >= PPPOE_TAGS && PPPOE_TAGS + TagsLen(g) <= |g| && TagsLen(g) + 12 + |d| < 0x1_0000
    ensures var v, size := 256 * g[18] as int + g[19] as int + 12 + |d|, DataLen(8 + |d|, true);
            && v < 0x1_0000 && 20 + v - 12 - |d| <= |g| && size == 12 + |d|
            && WithTag(g, Copied(RelayTag(mac, d), stack, size))
               == g[..18] + Htons(v) + RelayTag(mac, d) + g[20..20 + v - 12 - |d|]
  {
    hide RelayTag, TagsLen, Htons, Copied, WithTag;
    LengthBytes(g);
    TagInFront(g, RelayTag(mac, d));
    assert Copied(RelayTag(mac, d), stack, 12 + |d|) == RelayTag(mac, d);
  }

  lemma TagInFront(g: seq<byte>, tag: seq<byte>)
    requires |g| >= PPPOE_TAGS && PPPOE_TAGS + TagsLen(g) <= |g| && TagsLen(g) + |tag| < 0x1_0000
    ensures WithTag(g, tag) == g[..18] + Htons(TagsLen(g) + |tag|) + tag + g[20..20 + TagsLen(g)]
  {
    hide TagsLen, Htons;
    var v := TagsLen(g) + |tag|;
    assert v % 0x1_0000 == v;
    var front, area := g[..PPPOE_LEN], g[PPPOE_TAGS..PPPOE_TAGS + TagsLen(g)];
    assert WithTag(g, tag) == front + Htons(v) + tag + area;
  }

  /** On a little-endian host the length field is read the wrong way round. */
  lemma LittleEndianSize(n: nat)
    requires n <= 28
    ensures DataLen(8 + n, false) == 256 * (8 + n) + 4 && DataLen(8 + n, true) == 12 + n
  {
    assert (8 + n) / 256 == 0 && (8 + n) % 256 == 8 + n;
  }

  /** What the bridge takes for its own: type 01 10, a length of eight or more, and the
      magic code 81 86. */
  lemma RelayedBytes(m: seq<byte>, beyond: nat -> byte, p: nat, n: nat)
    requires |m| >= 26 + p && FindIn(m, beyond, 0x0110) == Some(p)
    ensures m[20 + p] == 1 && m[21 + p] == 16
    ensures Relayed(m, beyond, p, n) <==>
            n == 256 * m[22 + p] as int + m[23 + p] as int >= 8 && m[24 + p] == 0x81 && m[25 + p] == 0x86
  {
    assert m[20..][p] == m[20 + p] && m[20..][p + 1] == m[21 + p];
    assert m[20..][p + 2] == m[22 + p] && m[20..][p + 3] == m[23 + p];
    assert m[20..][p + 4] == m[24 + p] && m[20..][p + 5] == m[25 + p];
  }

  /** A reply goes to the MAC in the tag. A tag of eight bytes leaves altogether, and twelve
      bytes with it; of a longer one the header stays with a length lowered by eight. */
  lemma UnrelayedBytes(f: seq<byte>, p: nat, n: nat)
    requires |f| >= 32 + p && 8 <= n < 0x1_0000 && 256 * f[18] as int + f[19] as int >= 12
    ensures var v := 256 * f[18] as int + f[19] as int - if n > 8 then 8 else 12;
            && 0 <= v < 0x1_0000
            && Unrelayed(f, p, n)
               == f[26 + p..32 + p] + f[6..18] + Htons(v) + f[20..20 + p]
                  + (if n > 8 then Htons(0x0110) + Htons(n - 8) else []) + f[32 + p..]
  {
    hide Htons, TagsLen;
    LengthBytes(f);
  }
}
