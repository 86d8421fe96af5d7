/** `dhcp_flag_bcast` (rtw_br_ext.c): sets the broadcast flag of a DHCP request and
    patches the UDP checksum without summing the datagram again. */
module DhcpChecksum {
  import opened Octets
  import opened SkBuffs

  const SERVER_PORT := 67
  const CLIENT_PORT := 68
  const ETH_P_IP := 0x0800
  const IPPROTO_UDP := 17
  const DHCP_MAGIC: seq<byte> := [0x63, 0x82, 0x53, 0x63]
  /** Offsets in the datagram: checksum, DHCP flags, magic cookie. */
  const UDP_CHECK := 6
  const DHCP_FLAGS := 18
  const DHCP_COOKIE := 244
  const ONES := 0xFFFF

  /** A 16-bit word of memory as the host reads it, and its bytes. */
  function Raw(a: byte, b: byte, bigEndian: bool): (w: nat)
    ensures w <= ONES
  {
    if bigEndian then 256 * a + b else a + 256 * b
  }

  function Bytes(w: nat, bigEndian: bool): (s: seq<byte>)
    requires w <= ONES
    ensures |s| == 2 && Raw(s[0], s[1], bigEndian) == w
  {
    if bigEndian then [w / 256, w % 256] else [w % 256, w / 256]
  }

  // ----- ones'-complement sums

  /** The sum of all words of s, the last one filled up with a zero byte. */
  function Sum(s: seq<byte>, bigEndian: bool): nat {
    if |s| == 0 then 0
    else if |s| == 1 then Raw(s[0], 0, bigEndian)
    else Raw(s[0], s[1], bigEndian) + Sum(s[2..], bigEndian)
  }

  /** A receiver that adds the words of the pseudo header and of the datagram in
      ones' complement gets all ones. */
  predicate Checks(pseudo: seq<byte>, d: seq<byte>, bigEndian: bool) {
    && Sum(pseudo, bigEndian) + Sum(d, bigEndian) > 0
    && (Sum(pseudo, bigEndian) + Sum(d, bigEndian)) % ONES == 0
  }

  /** A datagram that checks on one host checks on every other. */
  lemma ByteOrderIndependent(pseudo: seq<byte>, d: seq<byte>)
    ensures Checks(pseudo, d, true) <==> Checks(pseudo, d, false)
  {
    hide Sum;
    SwapSum(pseudo);
    SwapSum(d);
    SwapZero(Sum(pseudo, true), Sum(d, true), Sum(pseudo, false), Sum(d, false));
  }

  lemma SwapZero(a: nat, b: nat, x: nat, y: nat)
    requires a % ONES == (256 * x) % ONES && b % ONES == (256 * y) % ONES
    ensures (a + b) % ONES == 0 <==> (x + y) % ONES == 0
  {
    ModSum(a, b, 256 * y);
    ModSum(256 * y, a, 256 * x);
    assert (a + b) % ONES == (256 * (x + y)) % ONES;
    if (x + y) % ONES == 0 {
      ModMultiple(0, 256 * ((x + y) / ONES));
    }
    if (256 * (x + y)) % ONES == 0 {
      ModMultiple(0, 256 * (256 * (x + y) / ONES));
      ModMultiple(x + y, x + y);
      assert 256 * (256 * (x + y)) == x + y + (x + y) * ONES;
    }
  }

  /** The other byte order multiplies every sum by 256 in ones' complement. */
  lemma {:induction false} SwapSum(s: seq<byte>)
    ensures Sum(s, true) % ONES == (256 * Sum(s, false)) % ONES
    ensures Sum(s, false) > 0 <==> Sum(s, true) > 0
  {
    if |s| >= 2 {
      SwapSum(s[2..]);
      var x, y := Sum(s[2..], true), Sum(s[2..], false);
      var a: int, b: int := s[0], s[1];
      assert 256 * Raw(s[0], s[1], false) == 256 * a + b + ONES * b;
      ModAdd(x, 256 * y, Raw(s[0], s[1], true), 256 * Raw(s[0], s[1], false), s[1]);
    } else if |s| == 1 {
      assert Raw(s[0], 0, true) == 256 * Raw(s[0], 0, false);
    }
  }

  lemma ModAdd(x: nat, y: nat, a: nat, b: nat, k: nat)
    requires x % ONES == y % ONES && b == a + k * ONES
    ensures (a + x) % ONES == (b + y) % ONES
  {
    ModMultiple(a + y, k);
    var q, p := x / ONES, y / ONES;
    assert a + x == a + y + (q - p) * ONES;
    ModMultiple(a + y, q - p);
  }

  lemma {:induction false} ModMultiple(x: int, k: int)
    ensures (x + k * ONES) % ONES == x % ONES
    decreases if k < 0 then -k else k
  {
    if k > 0 {
      ModMultiple(x, k - 1);
      assert x + k * ONES == (x + (k - 1) * ONES) + ONES;
    } else if k < 0 {
      ModMultiple(x, k + 1);
      assert x + k * ONES == (x + (k + 1) * ONES) - ONES;
    }
  }

  /** Writing one word changes the sum by the difference of the words. */
  lemma {:induction false} SumUpdate(s: seq<byte>, i: nat, w: seq<byte>, bigEndian: bool)
    requires i % 2 == 0 && i + 2 <= |s| && |w| == 2
    ensures Sum(Splice(s, i, w), bigEndian)
            == Sum(s, bigEndian) - Raw(s[i], s[i + 1], bigEndian) + Raw(w[0], w[1], bigEndian)
  {
    hide Raw;
    var r := Splice(s, i, w);
    if i == 0 {
      assert r[2..] == s[2..];
    } else {
      SumUpdate(s[2..], i - 2, w, bigEndian);
      assert r[2..] == Splice(s[2..], i - 2, w);
    }
  }

  // ----- the patch

  /** `while (sum >> 16) sum = (sum & 0xffff) + (sum >> 16)`. */
  method Fold(sum: nat) returns (r: nat)
    ensures r <= ONES && r % ONES == sum % ONES && (r == 0 <==> sum == 0)
  {
    r := sum;
    while r / 0x1_0000 != 0
      invariant r % ONES == sum % ONES && (r == 0 <==> sum == 0)
      decreases r
    {
      assert r == r % 0x1_0000 + r / 0x1_0000 + r / 0x1_0000 * ONES;
      ModMultiple(r % 0x1_0000 + r / 0x1_0000, r / 0x1_0000);
      r := r % 0x1_0000 + r / 0x1_0000;
    }
  }

  /** The result of the fold, which the congruence above determines. */
  function Folded(sum: nat): (r: nat)
    ensures r <= ONES && r % ONES == sum % ONES && (r == 0 <==> sum == 0)
  {
    if sum == 0 then 0 else (sum - 1) % ONES + 1
  }

  lemma FoldUnique(a: nat, b: nat)
    requires a <= ONES && b <= ONES && a % ONES == b % ONES && (a == 0 <==> b == 0)
    ensures a == b
  {
  }

  /** The datagram with the broadcast flag set and the checksum patched. */
  function Patched(d: seq<byte>, bigEndian: bool): (r: seq<byte>)
    requires |d| >= DHCP_COOKIE + 4 && d[DHCP_FLAGS] < 128
    ensures |r| == |d|
  {
    var flags := [d[DHCP_FLAGS] + 128, d[DHCP_FLAGS + 1]];
    var sum := ONES - Raw(d[UDP_CHECK], d[UDP_CHECK + 1], bigEndian) + Raw(flags[0], flags[1], bigEndian);
    Splice(Splice(d, DHCP_FLAGS, flags), UDP_CHECK, Bytes(ONES - Folded(sum), bigEndian))
  }

  lemma PatchedSum(d: seq<byte>, bigEndian: bool)
    requires |d| >= DHCP_COOKIE + 4 && d[DHCP_FLAGS] < 128
    ensures Sum(Patched(d, bigEndian), bigEndian) % ONES
            == (Sum(d, bigEndian) - Raw(d[DHCP_FLAGS], d[DHCP_FLAGS + 1], bigEndian)) % ONES
    ensures Sum(Patched(d, bigEndian), bigEndian) > 0
  {
    hide Sum, Raw, Bytes, Folded;
    var flags := [d[DHCP_FLAGS] + 128, d[DHCP_FLAGS + 1]];
    var check, wide := Raw(d[UDP_CHECK], d[UDP_CHECK + 1], bigEndian), Raw(flags[0], flags[1], bigEndian);
    var sum := ONES - check + wide;
    var e := Splice(d, DHCP_FLAGS, flags);
    SumUpdate(d, DHCP_FLAGS, flags, bigEndian);
    SumUpdate(e, UDP_CHECK, Bytes(ONES - Folded(sum), bigEndian), bigEndian);
    ModMultiple(Sum(d, bigEndian) - Raw(d[DHCP_FLAGS], d[DHCP_FLAGS + 1], bigEndian), (sum - Folded(sum)) / ONES);
    FoldedMultiple(sum);
    FlagsPositive(d, bigEndian);
    SumAtLeast(Patched(d, bigEndian), DHCP_FLAGS, bigEndian);
  }

  lemma FlagsPositive(d: seq<byte>, bigEndian: bool)
    requires |d| >= DHCP_COOKIE + 4 && d[DHCP_FLAGS] < 128
    ensures Raw(Patched(d, bigEndian)[DHCP_FLAGS], Patched(d, bigEndian)[DHCP_FLAGS + 1], bigEndian) > 0
  {
    hide Bytes, Folded;
  }

  lemma FoldedMultiple(sum: nat)
    ensures sum - Folded(sum) == (sum - Folded(sum)) / ONES * ONES
  {
  }

  lemma {:induction false} SumAtLeast(s: seq<byte>, i: nat, bigEndian: bool)
    requires i % 2 == 0 && i + 2 <= |s|
    ensures Sum(s, bigEndian) >= Raw(s[i], s[i + 1], bigEndian)
  {
    if i > 0 { SumAtLeast(s[2..], i - 2, bigEndian); }
  }

  /** A datagram that checks still checks after the patch exactly when the flags field
      was zero, as RFC 2131 section 2 demands of its reserved bits: the patch adds the
      whole new flags word and never takes the old one off. */
  lemma ChecksumKeptExactly(pseudo: seq<byte>, d: seq<byte>, bigEndian: bool)
    requires |d| >= DHCP_COOKIE + 4 && d[DHCP_FLAGS] < 128 && Checks(pseudo, d, bigEndian)
    ensures Checks(pseudo, Patched(d, bigEndian), bigEndian) <==> d[DHCP_FLAGS] == 0 && d[DHCP_FLAGS + 1] == 0
  {
    hide Patched, Sum;
    PatchedSum(d, bigEndian);
    SubtractKeeps(Sum(pseudo, bigEndian), Sum(d, bigEndian), Sum(Patched(d, bigEndian), bigEndian),
        Raw(d[DHCP_FLAGS], d[DHCP_FLAGS + 1], bigEndian));
  }

  lemma SubtractKeeps(p: nat, before: nat, after: nat, f: nat)
    requires (p + before) % ONES == 0 && after % ONES == (before - f) % ONES && f < ONES
    ensures (p + after) % ONES == 0 <==> f == 0
  {
    ModSum(p, after, before - f);
    ModMultiple(0 - f, (p + before) / ONES);
    assert p + (before - f) == 0 - f + (p + before) / ONES * ONES;
  }

  lemma ModSum(p: int, x: int, y: int)
    requires x % ONES == y % ONES
    ensures (p + x) % ONES == (p + y) % ONES
  {
    var k := x / ONES - y / ONES;
    assert x == y + k * ONES;
    ModMultiple(p + y, k);
  }

  lemma {:induction false} ZeroSum(n: nat, bigEndian: bool)
    ensures Sum(seq(n, _ => 0), bigEndian) == 0
  {
    if n >= 2 {
      assert seq(n, _ => 0 as byte)[2..] == seq(n - 2, _ => 0);
      ZeroSum(n - 2, bigEndian);
    }
  }

  /** From a client without an address to everybody: protocol UDP, 248 bytes. */
  const PSEUDO: seq<byte> := [0, 0, 0, 0, 255, 255, 255, 255, 0, 17, 0, 248]

  /** A request as short as the bridge takes them: ports, length, checksum, one reserved
      flag bit and the cookie. */
  function Header(): (s: seq<byte>)
    ensures |s| == DHCP_COOKIE + 4
  {
    Splice(Splice(Splice(seq(DHCP_COOKIE + 4, _ => 0), 0, [0, CLIENT_PORT]), 2, [0, SERVER_PORT]), 4, [0, 248])
  }

  function Request(): (s: seq<byte>)
    ensures |s| == DHCP_COOKIE + 4
  {
    Splice(Splice(Splice(Splice(Header(), UDP_CHECK, [0x45, 0x92]), DHCP_FLAGS, [1, 0]),
                  DHCP_COOKIE, DHCP_MAGIC[..2]), DHCP_COOKIE + 2, DHCP_MAGIC[2..])
  }

  /** Writing a word where there was none adds it to the sum. */
  lemma Put(s: seq<byte>, i: nat, w: seq<byte>)
    requires i % 2 == 0 && i + 2 <= |s| && |w| == 2 && s[i] == 0 && s[i + 1] == 0
    ensures var r := Splice(s, i, w);
            && |r| == |s| && Sum(r, true) == Sum(s, true) + Raw(w[0], w[1], true)
            && (forall k | 0 <= k < |s| && k != i && k != i + 1 :: r[k] == s[k])
  {
    hide Sum;
    SumUpdate(s, i, w, true);
  }

  lemma HeaderSum()
    ensures Sum(Header(), true) == CLIENT_PORT + SERVER_PORT + 248
    ensures forall i | 6 <= i < DHCP_COOKIE + 4 :: Header()[i] == 0
  {
    hide Sum, Splice;
    var s := seq(DHCP_COOKIE + 4, _ => 0);
    ZeroSum(DHCP_COOKIE + 4, true);
    Put(s, 0, [0, CLIENT_PORT]);
    var t := Splice(s, 0, [0, CLIENT_PORT]);
    Put(t, 2, [0, SERVER_PORT]);
    Put(Splice(t, 2, [0, SERVER_PORT]), 4, [0, 248]);
  }

  lemma RequestSum()
    ensures Sum(Request(), true) == CLIENT_PORT + SERVER_PORT + 248 + 0x4592 + 0x0100 + 0x6382 + 0x5363
  {
    hide Sum, Header, Splice;
    HeaderSum();
    var s := Header();
    Put(s, UDP_CHECK, [0x45, 0x92]);
    var t := Splice(s, UDP_CHECK, [0x45, 0x92]);
    Put(t, DHCP_FLAGS, [1, 0]);
    var u := Splice(t, DHCP_FLAGS, [1, 0]);
    Put(u, DHCP_COOKIE, DHCP_MAGIC[..2]);
    Put(Splice(u, DHCP_COOKIE, DHCP_MAGIC[..2]), DHCP_COOKIE + 2, DHCP_MAGIC[2..]);
  }

  lemma PseudoSum()
    ensures Sum(PSEUDO, true) == 2 * ONES + 17 + 248
  {
    assert PSEUDO[2..][2..][2..] == [255, 255, 0, 17, 0, 248];
    assert PSEUDO[2..][2..][2..][2..][2..][2..] == [];
    assert PSEUDO[2..][2..][2..][2..][2..] == [0, 248];
    assert PSEUDO[2..][2..][2..][2..] == [0, 17, 0, 248];
  }

  /** An input on which it fails: a request that checks, with one reserved bit set,
      leaves the bridge with a checksum that every receiver refuses. */
  lemma ReservedBitBreaks(bigEndian: bool)
    ensures Request()[DHCP_FLAGS] == 1 && Request()[DHCP_COOKIE..] == DHCP_MAGIC
    ensures Checks(PSEUDO, Request(), bigEndian) && !Checks(PSEUDO, Patched(Request(), bigEndian), bigEndian)
  {
    hide Sum, Header, Patched;
    RequestSum();
    PseudoSum();
    ByteOrderIndependent(PSEUDO, Request());
    ChecksumKeptExactly(PSEUDO, Request(), bigEndian);
  }

  /** The patched checksum is zero, which UDP reads as no checksum at all, exactly when
      the old one equalled the new flags word, or was itself zero under flags of all
      ones. A request that came without a checksum and with reserved bits clear
      therefore leaves with a nonzero one. */
  lemma ZeroChecksum(d: seq<byte>, bigEndian: bool)
    requires |d| >= DHCP_COOKIE + 4 && d[DHCP_FLAGS] < 128
    ensures var r := Patched(d, bigEndian);
            var check, wide := Raw(d[UDP_CHECK], d[UDP_CHECK + 1], bigEndian),
                Raw(r[DHCP_FLAGS], r[DHCP_FLAGS + 1], bigEndian);
            Raw(r[UDP_CHECK], r[UDP_CHECK + 1], bigEndian) == 0 <==> check == wide || (check == 0 && wide == ONES)
  {
    hide Bytes, Raw, Patched, Folded;
    PatchedWords(d, bigEndian);
    ZeroFold(Raw(d[UDP_CHECK], d[UDP_CHECK + 1], bigEndian), Raw(d[DHCP_FLAGS] + 128, d[DHCP_FLAGS + 1], bigEndian));
  }

  lemma PatchedWords(d: seq<byte>, bigEndian: bool)
    requires |d| >= DHCP_COOKIE + 4 && d[DHCP_FLAGS] < 128
    ensures var r := Patched(d, bigEndian);
            var sum := ONES - Raw(d[UDP_CHECK], d[UDP_CHECK + 1], bigEndian)
                       + Raw(d[DHCP_FLAGS] + 128, d[DHCP_FLAGS + 1], bigEndian);
            && r[DHCP_FLAGS] == d[DHCP_FLAGS] + 128 && r[DHCP_FLAGS + 1] == d[DHCP_FLAGS + 1]
            && Raw(r[UDP_CHECK], r[UDP_CHECK + 1], bigEndian) == ONES - Folded(sum)
  {
    hide Bytes, Raw, Folded;
  }

  lemma ZeroFold(check: nat, wide: nat)
    requires check <= ONES && wide <= ONES
    ensures Folded(ONES - check + wide) == ONES <==> check == wide || (check == 0 && wide == ONES)
  {
  }

  /** Padding behind the datagram plays no part. */
  lemma PatchedPrefix(d: seq<byte>, pad: seq<byte>, bigEndian: bool)
    requires |d| >= DHCP_COOKIE + 4 && d[DHCP_FLAGS] < 128
    ensures Patched(d + pad, bigEndian) == Patched(d, bigEndian) + pad
  {
    hide Bytes, Folded, Raw;
  }

  // ----- the frame

  /** Where the UDP header starts: behind an IP header of `ihl` words. */
  function UdpAt(f: seq<byte>): nat
    requires |f| > ETH_HLEN
  {
    ETH_HLEN + 4 * (f[ETH_HLEN] % 16)
  }

  predicate IsUdp(f: seq<byte>)
    requires |f| >= ETH_HLEN + 10
  {
    Ntohs(f[12], f[13]) == ETH_P_IP && f[ETH_HLEN + 9] == IPPROTO_UDP
  }

  predicate IsRequest(f: seq<byte>)
    requires |f| >= ETH_HLEN + 10 && UdpAt(f) + 4 <= |f|
  {
    var u := UdpAt(f);
    IsUdp(f) && Ntohs(f[u], f[u + 1]) == CLIENT_PORT && Ntohs(f[u + 2], f[u + 3]) == SERVER_PORT
  }

  /** The frame reaches as far as the fields the function reads. */
  predicate Readable(f: seq<byte>) {
    && |f| >= ETH_HLEN + 10
    && (IsUdp(f) ==> UdpAt(f) + 4 <= |f|)
    && (IsUdp(f) && IsRequest(f) ==> UdpAt(f) + DHCP_COOKIE + 4 <= |f|)
  }

  /** A DHCP request whose broadcast flag is clear. */
  predicate Wanted(f: seq<byte>)
    requires Readable(f)
  {
    && IsUdp(f) && IsRequest(f)
    && f[UdpAt(f) + DHCP_COOKIE..UdpAt(f) + DHCP_COOKIE + 4] == DHCP_MAGIC
    && f[UdpAt(f) + DHCP_FLAGS] < 128
  }

  /** The fields those are, byte by byte: type 08 00, protocol 17, ports 68 and 67, the
      cookie 63 82 53 63 and the top bit of the flags. */
  lemma WantedBytes(f: seq<byte>)
    requires Readable(f)
    ensures Wanted(f) <==>
            && f[12] == 8 && f[13] == 0 && f[23] == 17
            && var u: int := 14 + 4 * (f[14] % 16);
               && u + 248 <= |f| && f[u..u + 4] == [0, 68, 0, 67]
               && f[u + 244..u + 248] == [0x63, 0x82, 0x53, 0x63] && f[u + 18] < 128
  {
    var u := UdpAt(f);
    assert IsUdp(f) <==> f[12] == 8 && f[13] == 0 && f[23] == 17;
    if IsUdp(f) {
      assert f[u..u + 4] == [f[u], f[u + 1], f[u + 2], f[u + 3]];
    }
  }

  /** The patch changes the frame, and only in the top flag bit and the checksum. */
  lemma PatchedDiffers(f: seq<byte>, u: nat, bigEndian: bool)
    requires u + DHCP_COOKIE + 4 <= |f| && f[u + DHCP_FLAGS] < 128
    ensures var r := f[..u] + Patched(f[u..], bigEndian);
            && r != f && |r| == |f| && r[u + 18] == f[u + 18] + 128
            && forall k | 0 <= k < |f| && k != u + 18 && k != u + 6 && k != u + 7 :: r[k] == f[k]
  {
    hide Raw, Bytes, Folded;
    var r := f[..u] + Patched(f[u..], bigEndian);
    assert r[u + 18] == f[u + 18] + 128;
  }

  /** `dhcp_flag_bcast`. A frame is changed if and only if it carries a DHCP request from
      port 68 to port 67 whose broadcast bit is clear. */
  method FlagBcast(skb: SkBuff, disabled: bool, bigEndian: bool)
    requires skb.Valid() && Readable(skb.Frame())
    modifies skb.head
    ensures skb.Frame() == var f := old(skb.Frame());
      if !disabled && Wanted(f) then f[..UdpAt(f)] + Patched(f[UdpAt(f)..], bigEndian) else f
    ensures var f := old(skb.Frame());
      skb.Frame() != f <==>
        && !disabled && f[12] == 8 && f[13] == 0 && f[23] == 17
        && var u: int := 14 + 4 * (f[14] % 16);
           && u + 248 <= |f| && f[u..u + 4] == [0, 68, 0, 67]
           && f[u + 244..u + 248] == [0x63, 0x82, 0x53, 0x63] && f[u + 18] < 128
    ensures var f, r := old(skb.Frame()), skb.Frame();
      r != f ==>
        && |r| == |f|
        && var u: int := 14 + 4 * (f[14] % 16);
           && u + 248 <= |f| && r[u + 18] == f[u + 18] + 128
           && forall k | 0 <= k < |f| && k != u + 18 && k != u + 6 && k != u + 7 :: r[k] == f[k]
  {
    hide Patched;
    var f := skb.Frame();
    WantedBytes(f);
    if !disabled && IsUdp(f) && IsRequest(f) {
      var u := UdpAt(f);
      if f[u + DHCP_COOKIE..u + DHCP_COOKIE + 4] == DHCP_MAGIC && f[u + DHCP_FLAGS] < 128 {
        PatchedDiffers(f, u, bigEndian);
        PatchInPlace(skb, u, bigEndian);
      }
    }
  }

  /** The headers of the request above: from a client to everybody, an IP header of five
      words, 268 bytes, protocol UDP. */
  const HEADERS: seq<byte> :=
    [255, 255, 255, 255, 255, 255, 2, 0, 0, 0, 0, 1, 8, 0,
     0x45, 0, 1, 12, 0, 0, 0, 0, 64, 17, 0x79, 0xe2, 0, 0, 0, 0, 255, 255, 255, 255]

  lemma RequestBytes()
    ensures var f := HEADERS + Request();
            && |f| == 282 && f[12] == 8 && f[13] == 0 && f[14] == 0x45 && f[23] == 17 && f[52] == 1
            && f[34..38] == [0, 68, 0, 67] && f[278..282] == [0x63, 0x82, 0x53, 0x63]
  {
    var r := Request();
    assert r[0] == 0 && r[1] == 68 && r[2] == 0 && r[3] == 67;
    assert (HEADERS + r)[34..38] == r[..4] == [r[0], r[1], r[2], r[3]];
  }

  /** A request with a reserved flag bit, sent through the bridge: it comes in right and
      leaves patched, with a checksum that every receiver refuses. */
  method ForwardRequest(bigEndian: bool) returns (skb: SkBuff)
    ensures skb.Valid() && |skb.Frame()| == 282 && skb.Frame()[..34] == HEADERS
    ensures Checks(PSEUDO, Request(), bigEndian) && !Checks(PSEUDO, skb.Frame()[34..], bigEndian)
    ensures skb.Frame()[52] == 129
  {
    hide Request, Patched, Checks, Wanted, Readable;
    RequestBytes();
    ReservedBitBreaks(bigEndian);
    ghost var f := HEADERS + Request();
    IsReadable(f);
    skb := new SkBuff(HEADERS + Request(), 0, 0);
    FlagBcast(skb, false, bigEndian);
    assert f[..34] == HEADERS && f[34..] == Request();
  }

  lemma IsReadable(f: seq<byte>)
    requires |f| == 282 && f[14] == 0x45
    ensures Readable(f) && UdpAt(f) == 34
  {
  }

  /** The writes: the flags, then the folded sum into the checksum field. */
  method PatchInPlace(skb: SkBuff, u: nat, bigEndian: bool)
    requires skb.Valid() && u + DHCP_COOKIE + 4 <= skb.Len() && skb.Frame()[u + DHCP_FLAGS] < 128
    modifies skb.head
    ensures skb.Frame() == old(skb.Frame()[..u]) + Patched(old(skb.Frame()[u..]), bigEndian)
  {
    hide Raw, Bytes, Folded, Splice, Patched;
    var f := skb.Frame();
    ghost var m := skb.Mem();
    var flags := [f[u + DHCP_FLAGS] + 128, f[u + DHCP_FLAGS + 1]];
    skb.Memcpy(u + DHCP_FLAGS, flags);
    var sum := ONES - Raw(f[u + UDP_CHECK], f[u + UDP_CHECK + 1], bigEndian);
    sum := sum + Raw(flags[0], flags[1], bigEndian);
    var r := Fold(sum);
    FoldUnique(r, Folded(sum));
    skb.Memcpy(u + UDP_CHECK, Bytes(ONES - r, bigEndian));
    PatchedAt(m, f, u, bigEndian);
  }

  lemma PatchedAt(m: seq<byte>, f: seq<byte>, u: nat, bigEndian: bool)
    requires |f| <= |m| && m[..|f|] == f && u + DHCP_COOKIE + 4 <= |f| && f[u + DHCP_FLAGS] < 128
    ensures var flags := [f[u + DHCP_FLAGS] + 128, f[u + DHCP_FLAGS + 1]];
            var sum := ONES - Raw(f[u + UDP_CHECK], f[u + UDP_CHECK + 1], bigEndian)
                + Raw(flags[0], flags[1], bigEndian);
            Splice(Splice(m, u + DHCP_FLAGS, flags), u + UDP_CHECK, Bytes(ONES - Folded(sum), bigEndian))[..|f|]
            == f[..u] + Patched(f[u..], bigEndian)
  {
    hide Raw, Bytes, Folded;
    var flags := [f[u + DHCP_FLAGS] + 128, f[u + DHCP_FLAGS + 1]];
    var sum := ONES - Raw(f[u + UDP_CHECK], f[u + UDP_CHECK + 1], bigEndian) + Raw(flags[0], flags[1], bigEndian);
    SplicedAt(m, f, u, flags, Bytes(ONES - Folded(sum), bigEndian));
  }

  lemma SplicedAt(m: seq<byte>, f: seq<byte>, u: nat, flags: seq<byte>, check: seq<byte>)
    requires |f| <= |m| && m[..|f|] == f && u + DHCP_FLAGS + 2 <= |f| && |flags| == |check| == 2
    ensures Splice(Splice(m, u + DHCP_FLAGS, flags), u + UDP_CHECK, check)[..|f|]
            == f[..u] + Splice(Splice(f[u..], DHCP_FLAGS, flags), UDP_CHECK, check)
  {
    hide Splice;
    SplicePrefix(m, f, u + DHCP_FLAGS, flags);
    var m', f' := Splice(m, u + DHCP_FLAGS, flags), Splice(f, u + DHCP_FLAGS, flags);
    SplicePrefix(m', f', u + UDP_CHECK, check);
    SpliceBehind(f, u, DHCP_FLAGS, flags);
    SpliceBehind(f', u, UDP_CHECK, check);
  }

  lemma SplicePrefix(m: seq<byte>, f: seq<byte>, at: nat, x: seq<byte>)
    requires |f| <= |m| && m[..|f|] == f && at + |x| <= |f|
    ensures |Splice(m, at, x)| == |m| && |Splice(f, at, x)| == |f| && Splice(m, at, x)[..|f|] == Splice(f, at, x)
  {
    assert forall k | 0 <= k < |f| :: m[k] == m[..|f|][k];
  }

  lemma SpliceBehind(f: seq<byte>, u: nat, at: nat, x: seq<byte>)
    requires u + at + |x| <= |f|
    ensures var r := Splice(f, u + at, x);
            |r| == |f| && r[..u] == f[..u] && r[u..] == Splice(f[u..], at, x) && r == f[..u] + Splice(f[u..], at, x)
  {
  }
}
