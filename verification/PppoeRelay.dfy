/** The PPPoE relay tag (RFC 2516 Appendix A, Relay-Session-Id) that rtw_br_ext.c puts
    into PADI/PADR frames and takes out of the PADO/PADS that echo it. */
module PppoeRelay {
  import opened Octets
  import opened SkBuffs
  import opened Wrappers

  const PTT_RELAY_SID := 0x0110
  const MAGIC_CODE := 0x8186
  const MAGIC_CODE_LEN := 2
  const RTL_RELAY_TAG_LEN := ETH_ALEN
  const TAG_HDR_LEN := 4
  const TAG_BUF := 40
  /** Offsets in the frame of the PPPoE length field and of the first tag. */
  const PPPOE_LEN := 18
  const PPPOE_TAGS := 20

  // ----- the tag search

  /** The byte at i of memory that starts with s and goes on with beyond. */
  function At(s: seq<byte>, beyond: nat -> byte, i: nat): byte {
    if i < |s| then s[i] else beyond(i - |s|)
  }

  function Word(s: seq<byte>, beyond: nat -> byte, i: nat): (v: nat)
    ensures v < 0x1_0000
  {
    Ntohs(At(s, beyond, i), At(s, beyond, i + 1))
  }

  /** Where the first tag of the wanted type starts, walking tag by tag from pos while
      inside the first len bytes. */
  function FindFrom(s: seq<byte>, beyond: nat -> byte, len: nat, pos: nat, wanted: nat): (r: Option<nat>)
    ensures r.Some? ==> pos <= r.value < len && Word(s, beyond, r.value) == wanted
    decreases len - pos
  {
    if pos >= len then None
    else if Word(s, beyond, pos) == wanted then Some(pos)
    else FindFrom(s, beyond, len, pos + TAG_HDR_LEN + Word(s, beyond, pos + 2), wanted)
  }

  datatype Tag = Tag(type_: nat, data: seq<byte>)

  predicate Encodable(tags: seq<Tag>) {
    forall t | t in tags :: t.type_ < 0x1_0000 && |t.data| < 0x1_0000
  }

  /** A tag list as RFC 2516 section 4 writes it. */
  function Encode(tags: seq<Tag>): (s: seq<byte>)
    requires Encodable(tags)
  {
    if tags == [] then []
    else Head(tags[0]) + tags[0].data + Encode(tags[1..])
  }

  function Head(t: Tag): (s: seq<byte>)
    requires t.type_ < 0x1_0000 && |t.data| < 0x1_0000
    ensures |s| == TAG_HDR_LEN
  {
    Htons(t.type_) + Htons(|t.data|)
  }

  /** One step of the walk over a tag header. */
  lemma PassTag(s: seq<byte>, beyond: nat -> byte, len: nat, pos: nat, t: Tag, wanted: nat)
    requires t.type_ < 0x1_0000 && |t.data| < 0x1_0000
    requires pos < len && pos + TAG_HDR_LEN <= |s| && s[pos..pos + TAG_HDR_LEN] == Head(t)
    ensures FindFrom(s, beyond, len, pos, wanted) ==
            if t.type_ == wanted then Some(pos) else FindFrom(s, beyond, len, pos + TAG_HDR_LEN + |t.data|, wanted)
  {
    var h := s[pos..pos + TAG_HDR_LEN];
    assert s[pos] == h[0] && s[pos + 1] == h[1] && s[pos + 2] == h[2] && s[pos + 3] == h[3];
    assert Word(s, beyond, pos) == t.type_ && Word(s, beyond, pos + 2) == |t.data|;
  }

  lemma FindDone(s: seq<byte>, beyond: nat -> byte, len: nat, pos: nat, wanted: nat)
    requires pos >= len
    ensures FindFrom(s, beyond, len, pos, wanted) == None
  {
  }

  /** On a tag list with no such tag the search finds none, whatever surrounds the list. */
  lemma {:induction false} FindsNothing(s: seq<byte>, beyond: nat -> byte, len: nat, pos: nat, tags: seq<Tag>,
                                        wanted: nat)
    requires Encodable(tags) && forall t | t in tags :: t.type_ != wanted
    requires pos + |Encode(tags)| == len <= |s| && s[pos..len] == Encode(tags)
    ensures FindFrom(s, beyond, len, pos, wanted) == None
    decreases |tags|
  {
    hide FindFrom, Head;
    if tags == [] {
      FindDone(s, beyond, len, pos, wanted);
    } else {
      var next := pos + TAG_HDR_LEN + |tags[0].data|;
      assert s[pos..pos + TAG_HDR_LEN] == s[pos..len][..TAG_HDR_LEN] == Head(tags[0]);
      assert s[next..len] == s[pos..len][next - pos..] == Encode(tags[1..]);
      PassTag(s, beyond, len, pos, tags[0], wanted);
      FindsNothing(s, beyond, len, next, tags[1..], wanted);
    }
  }

  /** The search finds a tag behind any well-formed tags of other types. */
  lemma {:induction false} FindsFirst(s: seq<byte>, beyond: nat -> byte, len: nat, pos: nat, a: seq<Tag>, t: Tag)
    requires Encodable(a) && t.type_ < 0x1_0000 && |t.data| < 0x1_0000 && forall x | x in a :: x.type_ != t.type_
    requires var p := pos + |Encode(a)|;
             p < len && p + TAG_HDR_LEN <= |s| && s[pos..p] == Encode(a) && s[p..p + TAG_HDR_LEN] == Head(t)
    ensures FindFrom(s, beyond, len, pos, t.type_) == Some(pos + |Encode(a)|)
    decreases |a|
  {
    hide FindFrom, Head;
    var p := pos + |Encode(a)|;
    if a == [] {
      PassTag(s, beyond, len, pos, t, t.type_);
    } else {
      var next := pos + TAG_HDR_LEN + |a[0].data|;
      assert s[pos..pos + TAG_HDR_LEN] == s[pos..p][..TAG_HDR_LEN] == Head(a[0]);
      assert s[next..p] == s[pos..p][next - pos..] == Encode(a[1..]);
      PassTag(s, beyond, len, pos, a[0], t.type_);
      FindsFirst(s, beyond, len, next, a[1..], t);
    }
  }

  // ----- the frame editors

  /** The PPPoE length field of a frame or of the memory that starts with it. */
  function TagsLen(m: seq<byte>): (v: nat)
    requires |m| >= PPPOE_TAGS
    ensures v < 0x1_0000
  {
    Ntohs(m[PPPOE_LEN], m[PPPOE_LEN + 1])
  }

  lemma LenOfPrefix(m: seq<byte>, k: nat)
    requires PPPOE_TAGS <= k <= |m|
    ensures TagsLen(m[..k]) == TagsLen(m)
  {
  }

  /** What `__nat25_find_pppoe_tag` finds: an offset from the first tag. */
  function FindIn(m: seq<byte>, beyond: nat -> byte, wanted: nat): Option<nat>
    requires |m| >= PPPOE_TAGS
  {
    FindFrom(m[PPPOE_TAGS..], beyond, TagsLen(m), 0, wanted)
  }

  /** `__nat25_find_pppoe_tag`; beyond is what lies behind the buffer, which a wrong
      length can make the walk read. The walk ends on every input. */
  method FindTag(skb: SkBuff, beyond: nat -> byte, wanted: nat) returns (r: Option<nat>)
    requires skb.Valid() && skb.Len() >= PPPOE_TAGS
    ensures r == FindIn(skb.Mem(), beyond, wanted)
  {
    var s, len := skb.Mem()[PPPOE_TAGS..], TagsLen(skb.Mem());
    var pos := 0;
    while pos < len
      invariant FindFrom(s, beyond, len, pos, wanted) == FindIn(skb.Mem(), beyond, wanted)
      decreases len - pos
    {
      var tagType, tagLen := Word(s, beyond, pos), Word(s, beyond, pos + 2);
      if tagType == wanted {
        return Some(pos);
      }
      pos := pos + TAG_HDR_LEN + tagLen;
    }
    return None;
  }

  lemma MergedBytes(m: seq<byte>, len: nat, src: nat, n: nat)
    requires src + n <= len <= |m|
    ensures Splice(m, src, m[src + n..len])[..len - n] == m[..len][..src] + m[..len][src + n..]
    ensures src + n == len ==> m[..len - n] == m[..len][..src] + m[..len][src + n..]
  {
  }

  /** `skb_pull_and_merge`: takes n bytes at src out of the frame. */
  method PullAndMerge(skb: SkBuff, src: nat, n: nat) returns (ok: bool)
    requires skb.Valid()
    modifies skb`tail, skb.head
    ensures skb.Valid() && ok == (src + n <= old(skb.Len()))
    ensures ok ==> skb.Frame() == old(skb.Frame()[..src] + skb.Frame()[src + n..]) && |skb.Mem()| == old(|skb.Mem()|)
    ensures !ok ==> skb.Mem() == old(skb.Mem()) && skb.tail == old(skb.tail)
  {
    hide Splice;
    if src + n > skb.Len() || skb.Len() < n {
      return false;
    }
    MergedBytes(skb.Mem(), skb.Len(), src, n);
    var tailLen := skb.Len() - (src + n);
    if tailLen > 0 {
      skb.Memmove(src, src + n, tailLen);
    }
    skb.tail := skb.tail - n;
    return true;
  }

  /** The size `__nat25_add_pppoe_tag` computes from a tag whose length field holds
      n in network order: it reads the field in the byte order of the host. */
  function DataLen(n: nat, bigEndian: bool): nat
    requires n < 0x1_0000
  {
    (if bigEndian then n else n % 256 * 256 + n / 256) + TAG_HDR_LEN
  }

  /** m with the tag put in front of the tag area and the length field raised. */
  function Added(m: seq<byte>, tag: seq<byte>): (r: seq<byte>)
    requires |m| >= PPPOE_TAGS && PPPOE_TAGS + |tag| + TagsLen(m) <= |m|
    ensures |r| == |m|
  {
    var L := TagsLen(m);
    m[..PPPOE_LEN] + Htons((L + |tag|) % 0x1_0000) + tag + m[PPPOE_TAGS..PPPOE_TAGS + L] + m[PPPOE_TAGS + |tag| + L..]
  }

  lemma AddedBySplices(m: seq<byte>, tag: seq<byte>)
    requires |m| >= PPPOE_TAGS && PPPOE_TAGS + |tag| + TagsLen(m) <= |m|
    ensures var L := TagsLen(m);
      var m1 := Splice(m, PPPOE_TAGS + |tag|, m[PPPOE_TAGS..PPPOE_TAGS + L]);
      Splice(Splice(m1, PPPOE_LEN, Htons((L + |tag|) % 0x1_0000)), PPPOE_TAGS, tag) == Added(m, tag)
  {
    hide Htons, TagsLen;
  }

  /** `__nat25_add_pppoe_tag`: tag is the tag and whatever lies behind it in memory. */
  method AddTag(skb: SkBuff, tag: seq<byte>, n: nat, bigEndian: bool) returns (ok: bool)
    requires skb.Valid() && skb.Len() >= PPPOE_TAGS && PPPOE_TAGS + TagsLen(skb.Frame()) <= skb.Len()
    requires n < 0x1_0000 && |tag| == DataLen(n, bigEndian)
    modifies skb`tail, skb.head
    ensures skb.Valid() && ok == (old(skb.Tailroom()) >= DataLen(n, bigEndian))
    ensures ok ==> skb.Mem() == Added(old(skb.Mem()), tag) && skb.Len() == old(skb.Len()) + |tag|
    ensures !ok ==> skb.Mem() == old(skb.Mem()) && skb.tail == old(skb.tail)
  {
    hide Splice, Added, Htons, TagsLen;
    LenOfPrefix(skb.Mem(), skb.Len());
    var dataLen := DataLen(n, bigEndian);
    if skb.Tailroom() < dataLen {
      return false;
    }
    AddedBySplices(skb.Mem(), tag);
    var L := TagsLen(skb.Mem());
    skb.tail := skb.tail + dataLen;
    skb.Memmove(PPPOE_TAGS + dataLen, PPPOE_TAGS, L);
    skb.Memcpy(PPPOE_LEN, Htons((L + dataLen) % 0x1_0000));
    skb.Memcpy(PPPOE_TAGS, tag);
    return true;
  }

  // ----- PADI and PADR on the way out

  function RelayTag(mac: Mac, old_: seq<byte>): (s: seq<byte>)
    requires |old_| < 0xFFF8
    ensures |s| == TAG_HDR_LEN + MAGIC_CODE_LEN + RTL_RELAY_TAG_LEN + |old_|
  {
    Htons(PTT_RELAY_SID) + Htons(MAGIC_CODE_LEN + RTL_RELAY_TAG_LEN + |old_|) + Htons(MAGIC_CODE) + mac + old_
  }

  /** size bytes of memory that start with s; stack is what lies behind it. */
  function Copied(s: seq<byte>, stack: nat -> byte, size: nat): (r: seq<byte>)
    ensures |r| == size && (size == |s| ==> r == s)
    ensures size >= |s| ==> r[..|s|] == s
  {
    seq(size, i requires 0 <= i < size => At(s, stack, i))
  }

  /** Where an old relay tag is, how much data it has, and whether it can be moved:
      its data must fit the 40-byte buffer and the tag must end inside the frame. */
  datatype OldTag = NoTag | OldTag(at: nat, len: nat)

  function FindOld(m: seq<byte>, beyond: nat -> byte): OldTag
    requires |m| >= PPPOE_TAGS
  {
    match FindIn(m, beyond, PTT_RELAY_SID)
    case None => NoTag
    case Some(p) => OldTag(p, Word(m[PPPOE_TAGS..], beyond, p + 2))
  }

  predicate Movable(f: seq<byte>, o: OldTag) {
    o.OldTag? ==>
      && o.len + TAG_HDR_LEN + MAGIC_CODE_LEN + RTL_RELAY_TAG_LEN <= TAG_BUF
      && PPPOE_TAGS + o.at + TAG_HDR_LEN + o.len <= |f|
  }

  /** A movable old tag lies inside the tag area the length field describes. */
  predicate Inside(f: seq<byte>, o: OldTag)
    requires |f| >= PPPOE_TAGS
  {
    o.OldTag? && Movable(f, o) ==> o.at + TAG_HDR_LEN + o.len <= TagsLen(f)
  }

  /** The frame without its old relay tag, and that tag's data. */
  function WithoutOld(f: seq<byte>, o: OldTag): (g: seq<byte>)
    requires |f| >= PPPOE_TAGS && PPPOE_TAGS + TagsLen(f) <= |f| && Movable(f, o) && Inside(f, o)
    ensures |g| >= PPPOE_TAGS && PPPOE_TAGS + TagsLen(g) <= |g| <= |f|
  {
    match o
    case NoTag => f
    case OldTag(p, n) =>
      var g := f[..PPPOE_LEN] + Htons(TagsLen(f) - TAG_HDR_LEN - n) + f[PPPOE_TAGS..PPPOE_TAGS + p]
          + f[PPPOE_TAGS + p + TAG_HDR_LEN + n..];
      assert g[PPPOE_LEN] == Htons(TagsLen(f) - TAG_HDR_LEN - n)[0]
          && g[PPPOE_LEN + 1] == Htons(TagsLen(f) - TAG_HDR_LEN - n)[1];
      g
  }

  function OldData(f: seq<byte>, o: OldTag): (d: seq<byte>)
    requires Movable(f, o)
    ensures |d| <= TAG_BUF - 12
  {
    match o
    case NoTag => []
    case OldTag(p, n) => f[PPPOE_TAGS + p + TAG_HDR_LEN..PPPOE_TAGS + p + TAG_HDR_LEN + n]
  }

  /** `ph->length = htons(v)`. */
  method SetTagsLen(skb: SkBuff, v: nat)
    requires skb.Valid() && skb.Len() >= PPPOE_TAGS && v < 0x1_0000
    modifies skb.head
    ensures skb.Frame() == Splice(old(skb.Frame()), PPPOE_LEN, Htons(v)) && |skb.Mem()| == old(|skb.Mem()|)
  {
    hide Htons;
    Write(skb, PPPOE_LEN, Htons(v));
  }

  lemma WithoutBySplice(f: seq<byte>, p: nat, n: nat)
    requires |f| >= PPPOE_TAGS && PPPOE_TAGS + TagsLen(f) <= |f| && Movable(f, OldTag(p, n)) && Inside(f, OldTag(p, n))
    ensures Splice(f[..PPPOE_TAGS + p] + f[PPPOE_TAGS + p + TAG_HDR_LEN + n..], PPPOE_LEN,
                   Htons(TagsLen(f) - TAG_HDR_LEN - n))
            == WithoutOld(f, OldTag(p, n))
  {
    hide Htons, TagsLen;
  }

  /** The part of NAT25_INSERT that takes the old tag out of the frame. */
  method TakeOld(skb: SkBuff, beyond: nat -> byte) returns (ok: bool, old_: seq<byte>)
    requires skb.Valid() && skb.Len() >= PPPOE_TAGS && PPPOE_TAGS + TagsLen(skb.Frame()) <= skb.Len()
    requires Inside(skb.Frame(), FindOld(skb.Mem(), beyond))
    modifies skb`tail, skb.head
    ensures var o := FindOld(old(skb.Mem()), beyond);
      && skb.Valid() && ok == Movable(old(skb.Frame()), o)
      && (ok ==>
            && skb.Frame() == WithoutOld(old(skb.Frame()), o) && old_ == OldData(old(skb.Frame()), o)
            && |skb.Mem()| == old(|skb.Mem()|))
      && (!ok ==> skb.Frame() == old(skb.Frame()))
  {
    hide Splice, TagsLen, Htons, FindIn, Word, SkBuff.Mem;
    var found := FindTag(skb, beyond, PTT_RELAY_SID);
    if found == None {
      return true, [];
    }
    var p, n := found.value, Word(skb.Mem()[PPPOE_TAGS..], beyond, found.value + 2);
    if n + TAG_HDR_LEN + MAGIC_CODE_LEN + RTL_RELAY_TAG_LEN > TAG_BUF {
      return false, [];
    }
    var f := skb.Frame();
    var merged := PullAndMerge(skb, PPPOE_TAGS + p, TAG_HDR_LEN + n);
    if !merged {
      return false, [];
    }
    WithoutBySplice(f, p, n);
    hide WithoutOld;
    old_ := f[PPPOE_TAGS + p + TAG_HDR_LEN..PPPOE_TAGS + p + TAG_HDR_LEN + n];
    SetTagsLen(skb, TagsLen(f) - TAG_HDR_LEN - n);
    return true, old_;
  }

  /** The first bytes of the frame after a tag went in front of the tag area of g. */
  function WithTag(g: seq<byte>, tag: seq<byte>): (r: seq<byte>)
    requires |g| >= PPPOE_TAGS && PPPOE_TAGS + TagsLen(g) <= |g|
    ensures |r| == PPPOE_TAGS + |tag| + TagsLen(g)
  {
    g[..PPPOE_LEN] + Htons((TagsLen(g) + |tag|) % 0x1_0000) + tag + g[PPPOE_TAGS..PPPOE_TAGS + TagsLen(g)]
  }

  lemma AddedStartsWithTag(m: seq<byte>, g: seq<byte>, tag: seq<byte>)
    requires |g| >= PPPOE_TAGS && PPPOE_TAGS + TagsLen(g) <= |g| && |g| + |tag| <= |m| && m[..|g|] == g
    ensures TagsLen(m) == TagsLen(g) && Added(m, tag)[..|WithTag(g, tag)|] == WithTag(g, tag)
  {
    hide Htons, TagsLen;
    LenOfPrefix(m, |g|);
    assert forall k | 0 <= k < |g| :: m[k] == m[..|g|][k] == g[k];
    assert m[..PPPOE_LEN] == g[..PPPOE_LEN];
    assert m[PPPOE_TAGS..PPPOE_TAGS + TagsLen(g)] == g[PPPOE_TAGS..PPPOE_TAGS + TagsLen(g)];
  }

  /** NAT25_INSERT of a PADI or PADR with addPPPoETag set. The new tag holds the magic
      code, the client's MAC and the data of the old relay tag. When there is no room
      for it the call fails with the old tag already gone. */
  method Insert(skb: SkBuff, beyond: nat -> byte, stack: nat -> byte, bigEndian: bool) returns (ok: bool)
    requires skb.Valid() && skb.Len() >= PPPOE_TAGS && PPPOE_TAGS + TagsLen(skb.Frame()) <= skb.Len()
    requires Inside(skb.Frame(), FindOld(skb.Mem(), beyond))
    modifies skb`tail, skb.head
    ensures skb.Valid() && |skb.Mem()| == old(|skb.Mem()|)
    ensures !Movable(old(skb.Frame()), FindOld(old(skb.Mem()), beyond)) ==> !ok && skb.Frame() == old(skb.Frame())
    ensures Movable(old(skb.Frame()), FindOld(old(skb.Mem()), beyond)) ==>
      var f, o := old(skb.Frame()), FindOld(old(skb.Mem()), beyond);
      var g, d := WithoutOld(f, o), OldData(f, o);
      var size := DataLen(MAGIC_CODE_LEN + RTL_RELAY_TAG_LEN + |d|, bigEndian);
      && ok == (|g| + size <= old(|skb.Mem()|))
      && (ok ==> skb.Len() == |g| + size
                 && skb.Frame()[..PPPOE_TAGS + size + TagsLen(g)]
                     == WithTag(g, Copied(RelayTag(f[ETH_ALEN..2 * ETH_ALEN], d), stack, size)))
      && (!ok ==> skb.Frame() == g)
  {
    hide Htons, TagsLen, FindOld, WithoutOld, Inside, Copied, RelayTag, DataLen, WithTag, Added, SkBuff.Mem;
    var mac := skb.Frame()[ETH_ALEN..2 * ETH_ALEN];
    var old_: seq<byte>;
    ok, old_ := TakeOld(skb, beyond);
    if !ok {
      return;
    }
    ghost var g := skb.Frame();
    var n := MAGIC_CODE_LEN + RTL_RELAY_TAG_LEN + |old_|;
    var tag := Copied(RelayTag(mac, old_), stack, DataLen(n, bigEndian));
    if |g| + |tag| <= |skb.Mem()| {
      AddedStartsWithTag(skb.Mem(), g, tag);
    }
    ok := AddTag(skb, tag, n, bigEndian);
  }

  // ----- PADO and PADS on the way back

  /** The frame carries a relay tag of ours at p, with n bytes of data. */
  ghost predicate Relayed(m: seq<byte>, beyond: nat -> byte, p: nat, n: nat)
    requires |m| >= PPPOE_TAGS
  {
    && FindIn(m, beyond, PTT_RELAY_SID) == Some(p)
    && n == Word(m[PPPOE_TAGS..], beyond, p + 2) >= MAGIC_CODE_LEN + RTL_RELAY_TAG_LEN
    && Word(m[PPPOE_TAGS..], beyond, p + TAG_HDR_LEN) == MAGIC_CODE
  }

  /** Six bytes of memory from i on. */
  function MacAt(s: seq<byte>, beyond: nat -> byte, i: nat): Mac {
    [At(s, beyond, i), At(s, beyond, i + 1), At(s, beyond, i + 2), At(s, beyond, i + 3), At(s, beyond, i + 4),
        At(s, beyond, i + 5)]
  }

  /** How many bytes leave the frame: the whole tag, or only the magic code and MAC
      when the tag holds more. */
  function Cut(n: nat): nat {
    if n > MAGIC_CODE_LEN + RTL_RELAY_TAG_LEN then MAGIC_CODE_LEN + RTL_RELAY_TAG_LEN
    else TAG_HDR_LEN + MAGIC_CODE_LEN + RTL_RELAY_TAG_LEN
  }

  /** The tag header that stays in front of the data of an older relay tag. */
  function Rest(n: nat): seq<byte>
    requires n < 0x1_0000
  {
    if n > MAGIC_CODE_LEN + RTL_RELAY_TAG_LEN
    then Htons(PTT_RELAY_SID) + Htons(n - MAGIC_CODE_LEN - RTL_RELAY_TAG_LEN) else []
  }

  /** The frame with the relay tag undone and sent to the client. */
  function Unrelayed(f: seq<byte>, p: nat, n: nat): seq<byte>
    requires |f| >= PPPOE_TAGS + p + 12 && n < 0x1_0000
  {
    f[PPPOE_TAGS + p + 6..PPPOE_TAGS + p + 12] + f[ETH_ALEN..PPPOE_LEN] + Htons((TagsLen(f) - Cut(n)) % 0x1_0000)
    + f[PPPOE_TAGS..PPPOE_TAGS + p] + Rest(n) + f[PPPOE_TAGS + p + 12..]
  }

  lemma AtFrame(m: seq<byte>, f: seq<byte>, beyond: nat -> byte, i: nat)
    requires PPPOE_TAGS + i < |f| <= |m| && m[..|f|] == f
    ensures At(m[PPPOE_TAGS..], beyond, i) == f[PPPOE_TAGS + i]
  {
    assert m[PPPOE_TAGS + i] == m[..|f|][PPPOE_TAGS + i];
  }

  lemma RelayBytes(m: seq<byte>, f: seq<byte>, beyond: nat -> byte, p: nat, n: nat)
    requires |f| >= PPPOE_TAGS && |f| <= |m| && m[..|f|] == f && Relayed(m, beyond, p, n) && PPPOE_TAGS + p + 12 <= |f|
    ensures f[PPPOE_TAGS + p..PPPOE_TAGS + p + 2] == Htons(PTT_RELAY_SID)
    ensures MacAt(m[PPPOE_TAGS..], beyond, p + 6) == f[PPPOE_TAGS + p + 6..PPPOE_TAGS + p + 12]
  {
    AtFrame(m, f, beyond, p);
    AtFrame(m, f, beyond, p + 1);
    assert Word(m[PPPOE_TAGS..], beyond, p) == PTT_RELAY_SID;
    hide FindIn, Word;
    AtFrame(m, f, beyond, p + 6);
    AtFrame(m, f, beyond, p + 7);
    AtFrame(m, f, beyond, p + 8);
    AtFrame(m, f, beyond, p + 9);
    AtFrame(m, f, beyond, p + 10);
    AtFrame(m, f, beyond, p + 11);
  }

  lemma SpliceHead(f: seq<byte>, x: seq<byte>)
    requires |x| <= |f|
    ensures Splice(f, 0, x) == x + f[|x|..]
  {
  }

  lemma UnrelayedWhole(f: seq<byte>, mac: seq<byte>, p: nat, len: seq<byte>)
    requires PPPOE_TAGS + p + 12 <= |f| && |mac| == 6 && |len| == 2
    ensures var f1 := Splice(f, 0, mac);
      Splice(f1[..PPPOE_TAGS + p] + f1[PPPOE_TAGS + p + 12..], PPPOE_LEN, len)
      == mac + f[ETH_ALEN..PPPOE_LEN] + len + f[PPPOE_TAGS..PPPOE_TAGS + p] + [] + f[PPPOE_TAGS + p + 12..]
  {
    var f1 := Splice(f, 0, mac);
    var x := f1[..PPPOE_TAGS + p] + f1[PPPOE_TAGS + p + 12..];
    assert x[..PPPOE_LEN] == mac + f[ETH_ALEN..PPPOE_LEN];
    assert x[PPPOE_TAGS..] == f[PPPOE_TAGS..PPPOE_TAGS + p] + f[PPPOE_TAGS + p + 12..];
  }

  lemma UnrelayedPart(f: seq<byte>, mac: seq<byte>, p: nat, len: seq<byte>, type_: seq<byte>, n: seq<byte>)
    requires PPPOE_TAGS + p + 12 <= |f| && |mac| == 6 && |len| == |type_| == |n| == 2
    requires f[PPPOE_TAGS + p..PPPOE_TAGS + p + 2] == type_
    ensures var f1 := Splice(f, 0, mac);
      Splice(Splice(f1[..PPPOE_TAGS + p + 4] + f1[PPPOE_TAGS + p + 12..], PPPOE_LEN, len), PPPOE_TAGS + p + 2, n)
      == mac + f[ETH_ALEN..PPPOE_LEN] + len + f[PPPOE_TAGS..PPPOE_TAGS + p] + (type_ + n) + f[PPPOE_TAGS + p + 12..]
  {
    var f1 := Splice(f, 0, mac);
    var a := Splice(f1[..PPPOE_TAGS + p + 4] + f1[PPPOE_TAGS + p + 12..], PPPOE_LEN, len);
    assert a == mac + f[ETH_ALEN..PPPOE_LEN] + len + f[PPPOE_TAGS..PPPOE_TAGS + p + 4] + f[PPPOE_TAGS + p + 12..];
    assert a[..PPPOE_TAGS + p + 2] == mac + f[ETH_ALEN..PPPOE_LEN] + len + f[PPPOE_TAGS..PPPOE_TAGS + p + 2];
    assert f[PPPOE_TAGS..PPPOE_TAGS + p + 2] == f[PPPOE_TAGS..PPPOE_TAGS + p] + type_;
    assert a[PPPOE_TAGS + p + 4..] == f[PPPOE_TAGS + p + 12..];
  }

  /** There is at most one tag of ours to take out, and the tests of the code decide it. */
  lemma RelayedWhen(m: seq<byte>, beyond: nat -> byte)
    requires |m| >= PPPOE_TAGS
    ensures FindIn(m, beyond, PTT_RELAY_SID) == None ==> forall p: nat, n: nat :: !Relayed(m, beyond, p, n)
    ensures FindIn(m, beyond, PTT_RELAY_SID).Some? ==>
              var q, s := FindIn(m, beyond, PTT_RELAY_SID).value, m[PPPOE_TAGS..];
              var k := Word(s, beyond, q + 2);
              if k < MAGIC_CODE_LEN + RTL_RELAY_TAG_LEN || Word(s, beyond, q + TAG_HDR_LEN) != MAGIC_CODE
              then forall p: nat, n: nat :: !Relayed(m, beyond, p, n)
              else Relayed(m, beyond, q, k) && forall p: nat, n: nat | Relayed(m, beyond, p, n) :: p == q && n == k
  {
    hide FindIn, Word;
  }

  /** NAT25_LOOKUP of a PADO or PADS with addPPPoETag set. */
  method Lookup(skb: SkBuff, beyond: nat -> byte) returns (ok: bool)
    requires skb.Valid() && skb.Len() >= PPPOE_TAGS
    modifies skb`tail, skb.head
    ensures skb.Valid()
    ensures (forall p: nat, n: nat :: !Relayed(old(skb.Mem()), beyond, p, n)) ==> !ok && skb.Frame() == old(skb.Frame())
    ensures forall p: nat, n: nat | Relayed(old(skb.Mem()), beyond, p, n) ::
      var f := old(skb.Frame());
      && ok == (PPPOE_TAGS + p + 12 <= |f|)
      && skb.Frame()
          == if ok then Unrelayed(f, p, n) else MacAt(old(skb.Mem())[PPPOE_TAGS..], beyond, p + 6) + f[ETH_ALEN..]
  {
    hide Htons, TagsLen, FindIn, Word, MacAt, SkBuff.Mem, Splice, Unrelayed, Relayed;
    RelayedWhen(skb.Mem(), beyond);
    var found := FindTag(skb, beyond, PTT_RELAY_SID);
    if found == None {
      return false;
    }
    ghost var m := skb.Mem();
    var f, s, p := skb.Frame(), skb.Mem()[PPPOE_TAGS..], found.value;
    var n := Word(s, beyond, p + 2);
    if n < MAGIC_CODE_LEN + RTL_RELAY_TAG_LEN || Word(s, beyond, p + TAG_HDR_LEN) != MAGIC_CODE {
      return false;
    }
    assert Relayed(m, beyond, p, n);
    var mac := MacAt(s, beyond, p + TAG_HDR_LEN + MAGIC_CODE_LEN);
    SpliceHead(f, mac);
    Write(skb, 0, mac);
    var offset := if n > MAGIC_CODE_LEN + RTL_RELAY_TAG_LEN then TAG_HDR_LEN else 0;
    ok := PullAndMerge(skb, PPPOE_TAGS + p + offset, TAG_HDR_LEN + MAGIC_CODE_LEN + RTL_RELAY_TAG_LEN - offset);
    if !ok {
      return;
    }
    RelayBytes(m, f, beyond, p, n);
    UndoTag(skb, f, p, n, offset);
  }

  /** The lengths written once the relay data is out of the frame. */
  method UndoTag(skb: SkBuff, f: seq<byte>, p: nat, n: nat, offset: nat)
    requires skb.Valid() && PPPOE_TAGS + p + 12 <= |f| && 8 <= n < 0x1_0000
    requires offset == if n > MAGIC_CODE_LEN + RTL_RELAY_TAG_LEN then TAG_HDR_LEN else 0
    requires f[PPPOE_TAGS + p..PPPOE_TAGS + p + 2] == Htons(PTT_RELAY_SID)
    requires var f1 := Splice(f, 0, f[PPPOE_TAGS + p + 6..PPPOE_TAGS + p + 12]);
             skb.Frame() == f1[..PPPOE_TAGS + p + offset] + f1[PPPOE_TAGS + p + 12..]
    modifies skb.head
    ensures skb.Frame() == Unrelayed(f, p, n)
  {
    hide Splice, TagsLen, Htons;
    ghost var mac := f[PPPOE_TAGS + p + 6..PPPOE_TAGS + p + 12];
    var v := (TagsLen(f) - (TAG_HDR_LEN + MAGIC_CODE_LEN + RTL_RELAY_TAG_LEN - offset)) % 0x1_0000;
    SetTagsLen(skb, v);
    if offset > 0 {
      UnrelayedPart(f, mac, p, Htons(v), Htons(PTT_RELAY_SID), Htons(n - MAGIC_CODE_LEN - RTL_RELAY_TAG_LEN));
      Write(skb, PPPOE_TAGS + p + 2, Htons(n - MAGIC_CODE_LEN - RTL_RELAY_TAG_LEN));
    } else {
      UnrelayedWhole(f, mac, p, Htons(v));
    }
  }

  method Write(skb: SkBuff, dst: nat, x: seq<byte>)
    requires skb.Valid() && dst + |x| <= skb.Len()
    modifies skb.head
    ensures skb.Frame() == Splice(old(skb.Frame()), dst, x) && |skb.Mem()| == old(|skb.Mem()|)
  {
    skb.Memcpy(dst, x);
  }

  // ----- the round trip

  /** An older relay tag as it was before the bridge added its own data to it. */
  function OlderTag(d: seq<byte>): (s: seq<byte>)
    requires |d| < 0x1_0000
  {
    if d == [] then [] else Htons(PTT_RELAY_SID) + Htons(|d|) + d
  }

  lemma RelayHead(mac: Mac, d: seq<byte>)
    requires |d| < 0xFFF8
    ensures RelayTag(mac, d)[..TAG_HDR_LEN] == Head(Tag(PTT_RELAY_SID, seq(8 + |d|, _ => 0)))
    ensures RelayTag(mac, d)[4..6] == Htons(MAGIC_CODE) && RelayTag(mac, d)[6..12] == mac && RelayTag(mac, d)[12..] == d
  {
    hide Htons;
  }

  /** Our tag, behind well-formed tags of other types, is the one the search finds. */
  lemma EchoFound(m: seq<byte>, beyond: nat -> byte, a: seq<Tag>, mac: Mac, d: seq<byte>)
    requires |m| >= PPPOE_TAGS && |d| < 0xFFF8 && Encodable(a) && forall x | x in a :: x.type_ != PTT_RELAY_SID
    requires var p, e := |Encode(a)|, |Encode(a)| + 12 + |d|;
             e <= TagsLen(m) && PPPOE_TAGS + e <= |m| && m[PPPOE_TAGS..PPPOE_TAGS + e] == Encode(a) + RelayTag(mac, d)
    ensures Relayed(m, beyond, |Encode(a)|, 8 + |d|)
  {
    hide Htons, TagsLen, RelayTag, Head, Encode, FindFrom;
    var s, p := m[PPPOE_TAGS..], |Encode(a)|;
    var t, r := Tag(PTT_RELAY_SID, seq(8 + |d|, _ => 0)), RelayTag(mac, d);
    RelayHead(mac, d);
    assert s[..p + |r|] == m[PPPOE_TAGS..PPPOE_TAGS + p + |r|];
    FrontParts(s, Encode(a), r);
    FindsFirst(s, beyond, TagsLen(m), 0, a, t);
    HeadWords(s, beyond, p, t);
    WordAt(s, beyond, p + 4, MAGIC_CODE);
  }

  lemma FrontParts(s: seq<byte>, e: seq<byte>, r: seq<byte>)
    requires |s| >= |e| + |r| && |r| >= 6 && s[..|e| + |r|] == e + r
    ensures s[..|e|] == e && s[|e|..|e| + 4] == r[..4] && s[|e| + 4..|e| + 6] == r[4..6]
  {
    assert forall k | 0 <= k < |e| + |r| :: s[k] == s[..|e| + |r|][k] == (e + r)[k];
  }

  lemma WordAt(s: seq<byte>, beyond: nat -> byte, i: nat, v: nat)
    requires v < 0x1_0000 && i + 2 <= |s| && s[i..i + 2] == Htons(v)
    ensures Word(s, beyond, i) == v
  {
    assert s[i] == s[i..i + 2][0] && s[i + 1] == s[i..i + 2][1];
  }

  lemma HeadWords(s: seq<byte>, beyond: nat -> byte, p: nat, t: Tag)
    requires t.type_ < 0x1_0000 && |t.data| < 0x1_0000 && p + 4 <= |s| && s[p..p + 4] == Head(t)
    ensures Word(s, beyond, p) == t.type_ && Word(s, beyond, p + 2) == |t.data|
  {
    hide Htons;
    assert s[p..p + 2] == s[p..p + 4][..2] == Htons(t.type_);
    assert s[p + 2..p + 4] == s[p..p + 4][2..] == Htons(|t.data|);
    WordAt(s, beyond, p, t.type_);
    WordAt(s, beyond, p + 2, |t.data|);
  }

  /** A reply g that echoes our tag between other tags, in any position, goes to the
      client whose MAC the tag carries, with its tag list, its PPPoE length and its
      size as if the bridge had never been there. */
  lemma EchoRestored(g: seq<byte>, a: seq<Tag>, mac: Mac, d: seq<byte>, b: seq<byte>, rest: seq<byte>)
    requires |d| < 0xFFF8 && Encodable(a)
    requires |g| >= PPPOE_TAGS && g[PPPOE_TAGS..] == Encode(a) + RelayTag(mac, d) + b + rest
    requires TagsLen(g) == |Encode(a) + RelayTag(mac, d) + b|
    ensures var back := Encode(a) + OlderTag(d) + b;
      |back| < 0x1_0000
          && Unrelayed(g, |Encode(a)|, 8 + |d|) == mac + g[ETH_ALEN..PPPOE_LEN] + Htons(|back|) + back + rest
  {
    hide Htons, TagsLen, RelayTag, Encode, Unrelayed, Rest, Cut, OlderTag;
    RelayHead(mac, d);
    OlderIs(d);
    var p, r := |Encode(a)|, RelayTag(mac, d);
    Assoc(Encode(a) + r, b, rest);
    AreaParts(g, Encode(a), r, b + rest);
    Assoc(d, b, rest);
    UnrelayedParts(g, p, 8 + |d|, mac, Encode(a), d + b + rest);
    assert (TagsLen(g) - Cut(8 + |d|)) % 0x1_0000 == |Encode(a) + OlderTag(d) + b|;
    Regroup(mac + g[ETH_ALEN..PPPOE_LEN] + Htons(|Encode(a) + OlderTag(d) + b|), Encode(a), Rest(8 + |d|), d, b, rest);
  }

  lemma Assoc(x: seq<byte>, y: seq<byte>, z: seq<byte>)
    ensures x + y + z == x + (y + z)
  {
  }

  lemma OlderIs(d: seq<byte>)
    requires |d| < 0xFFF8
    ensures Rest(8 + |d|) + d == OlderTag(d) && |OlderTag(d)| == 12 + |d| - Cut(8 + |d|)
  {
    hide Htons;
  }

  lemma AreaParts(g: seq<byte>, e: seq<byte>, r: seq<byte>, t: seq<byte>)
    requires |g| >= PPPOE_TAGS && g[PPPOE_TAGS..] == e + r + t && |r| >= 12
    ensures var at := PPPOE_TAGS + |e|;
            |g| >= at + 12 && g[PPPOE_TAGS..at] == e && g[at + 6..at + 12] == r[6..12] && g[at + 12..] == r[12..] + t
  {
    var s := e + r + t;
    assert s[|e| + 6..|e| + 12] == r[6..12] && s[|e| + 12..] == r[12..] + t && s[..|e|] == e;
    assert forall k | 0 <= k < |s| :: g[PPPOE_TAGS + k] == g[PPPOE_TAGS..][k] == s[k];
  }

  lemma UnrelayedParts(g: seq<byte>, p: nat, n: nat, mac: Mac, e: seq<byte>, after: seq<byte>)
    requires PPPOE_TAGS + p + 12 <= |g| && n < 0x1_0000 && g[PPPOE_TAGS + p + 6..PPPOE_TAGS + p + 12] == mac
    requires g[PPPOE_TAGS..PPPOE_TAGS + p] == e && g[PPPOE_TAGS + p + 12..] == after
    ensures Unrelayed(g, p, n)
            == mac + g[ETH_ALEN..PPPOE_LEN] + Htons((TagsLen(g) - Cut(n)) % 0x1_0000) + e + Rest(n) + after
  {
    hide Htons, TagsLen, Rest;
  }

  lemma Regroup(h: seq<byte>, e: seq<byte>, r: seq<byte>, d: seq<byte>, b: seq<byte>, rest: seq<byte>)
    ensures h + e + r + (d + b + rest) == h + (e + (r + d) + b) + rest
  {
  }

  /** What should come back to the client: the tag list it sent, except that an old
      relay tag comes first, and not at all when it was empty. */
  function ComesBack(f: seq<byte>, o: OldTag): seq<byte>
    requires |f| >= PPPOE_TAGS && PPPOE_TAGS + TagsLen(f) <= |f| && Movable(f, o) && Inside(f, o)
  {
    OlderTag(OldData(f, o)) + WithoutOld(f, o)[PPPOE_TAGS..PPPOE_TAGS + TagsLen(WithoutOld(f, o))]
  }

  lemma ComesBackWhole(f: seq<byte>, beyond: nat -> byte)
    requires |f| >= PPPOE_TAGS && PPPOE_TAGS + TagsLen(f) <= |f|
    requires Movable(f, FindOld(f, beyond)) && Inside(f, FindOld(f, beyond))
    ensures match FindOld(f, beyond)
      case NoTag => ComesBack(f, NoTag) == f[PPPOE_TAGS..PPPOE_TAGS + TagsLen(f)]
      case OldTag(p, n) =>
        var at := PPPOE_TAGS + p;
        var others := f[PPPOE_TAGS..at] + f[at + 4 + n..PPPOE_TAGS + TagsLen(f)];
        && (n > 0 ==>
              ComesBack(f, OldTag(p, n)) == f[at..at + 4 + n] + others && |ComesBack(f, OldTag(p, n))| == TagsLen(f))
        && (n == 0 ==> ComesBack(f, OldTag(p, n)) == others && |others| == TagsLen(f) - TAG_HDR_LEN)
  {
    hide Htons, FindOld, TagsLen, WithoutOld, OlderTag;
    var o := FindOld(f, beyond);
    if o.OldTag? {
      OldTagBytes(f, beyond, o.at, o.len);
      WithoutOldArea(f, o);
      OlderBytes(f, PPPOE_TAGS + o.at, o.len);
    } else {
      NothingOld(f);
      NoOlder();
    }
  }

  lemma NoOlder()
    ensures OlderTag([]) == []
  {
  }

  lemma OlderBytes(f: seq<byte>, at: nat, n: nat)
    requires at + 4 + n <= |f| && n < 0x1_0000 && f[at..at + 4] == Htons(PTT_RELAY_SID) + Htons(n)
    ensures OlderTag(f[at + 4..at + 4 + n]) == if n == 0 then [] else f[at..at + 4 + n]
  {
    hide Htons;
    assert f[at..at + 4 + n] == f[at..at + 4] + f[at + 4..at + 4 + n];
  }

  lemma NothingOld(f: seq<byte>)
    requires |f| >= PPPOE_TAGS && PPPOE_TAGS + TagsLen(f) <= |f|
    ensures WithoutOld(f, NoTag) == f
  {
  }

  lemma WithoutOldArea(f: seq<byte>, o: OldTag)
    requires |f| >= PPPOE_TAGS && PPPOE_TAGS + TagsLen(f) <= |f| && Movable(f, o) && Inside(f, o) && o.OldTag?
    ensures TagsLen(WithoutOld(f, o)) == TagsLen(f) - TAG_HDR_LEN - o.len
    ensures WithoutOld(f, o)[PPPOE_TAGS..PPPOE_TAGS + TagsLen(f) - TAG_HDR_LEN - o.len]
            == f[PPPOE_TAGS..PPPOE_TAGS + o.at] + f[PPPOE_TAGS + o.at + 4 + o.len..PPPOE_TAGS + TagsLen(f)]
  {
    var v := TagsLen(f) - TAG_HDR_LEN - o.len;
    assert Htons(v) == WithoutOld(f, o)[PPPOE_LEN..PPPOE_TAGS];
    LenBytes(WithoutOld(f, o), v);
  }

  lemma LenBytes(g: seq<byte>, v: nat)
    requires |g| >= PPPOE_TAGS && v < 0x1_0000 && g[PPPOE_LEN..PPPOE_TAGS] == Htons(v)
    ensures TagsLen(g) == v
  {
    assert g[PPPOE_LEN] == g[PPPOE_LEN..PPPOE_TAGS][0] && g[PPPOE_LEN + 1] == g[PPPOE_LEN..PPPOE_TAGS][1];
  }

  lemma OldTagBytes(f: seq<byte>, beyond: nat -> byte, p: nat, n: nat)
    requires |f| >= PPPOE_TAGS && FindOld(f, beyond) == OldTag(p, n) && PPPOE_TAGS + p + 4 <= |f|
    ensures n < 0x1_0000 && f[PPPOE_TAGS + p..PPPOE_TAGS + p + 4] == Htons(PTT_RELAY_SID) + Htons(n)
  {
    hide FindFrom, Htons;
    var s := f[PPPOE_TAGS..];
    BytesOfWord(s, beyond, p);
    BytesOfWord(s, beyond, p + 2);
    assert s[p..p + 4] == s[p..p + 2] + s[p + 2..p + 4];
    assert f[PPPOE_TAGS + p..PPPOE_TAGS + p + 4] == s[p..p + 4];
  }

  lemma BytesOfWord(s: seq<byte>, beyond: nat -> byte, i: nat)
    requires i + 2 <= |s|
    ensures s[i..i + 2] == Htons(Word(s, beyond, i))
  {
    HtonsOf(s[i], s[i + 1]);
  }

  lemma HtonsOf(hi: byte, lo: byte)
    ensures Htons(Ntohs(hi, lo)) == [hi, lo]
  {
  }

  lemma PrefixSlice(h: seq<byte>, w: seq<byte>, i: nat, j: nat)
    requires i <= j <= |w| <= |h| && h[..|w|] == w
    ensures h[i..j] == w[i..j]
  {
    assert forall k | i <= k < j :: h[k] == h[..|w|][k];
  }

  lemma ReplyParts(hdr: seq<byte>, x: seq<byte>, y: seq<byte>)
    requires |hdr| == PPPOE_LEN && |x| == 2
    ensures var r := hdr + (x + y); r[..PPPOE_LEN] == hdr && r[PPPOE_LEN..PPPOE_TAGS] == x && r[PPPOE_TAGS..] == y
  {
  }

  lemma WithTagParts(g: seq<byte>, tag: seq<byte>)
    requires |g| >= PPPOE_TAGS && PPPOE_TAGS + TagsLen(g) <= |g| && |tag| + TagsLen(g) < 0x1_0000
    ensures var w := WithTag(g, tag);
            && w[PPPOE_LEN..PPPOE_TAGS] == Htons(|tag| + TagsLen(g))
            && w[PPPOE_TAGS..] == tag + g[PPPOE_TAGS..PPPOE_TAGS + TagsLen(g)]
  {
    hide Htons, TagsLen;
    var front, len, area := g[..PPPOE_LEN], Htons(|tag| + TagsLen(g)), g[PPPOE_TAGS..PPPOE_TAGS + TagsLen(g)];
    Assoc(front + len, tag, area);
    Assoc(front, len, tag + area);
    ReplyParts(front, len, tag + area);
  }

  lemma ReplyRegion(g: seq<byte>, tag: seq<byte>, h: seq<byte>, hdr: seq<byte>)
    requires |g| >= PPPOE_TAGS && PPPOE_TAGS + TagsLen(g) <= |g| && |hdr| == PPPOE_LEN
    requires |tag| + TagsLen(g) < 0x1_0000 && |h| >= |WithTag(g, tag)| && h[..|WithTag(g, tag)|] == WithTag(g, tag)
    ensures TagsLen(h) == |tag| + TagsLen(g)
    ensures var r := hdr + h[PPPOE_LEN..PPPOE_TAGS + TagsLen(h)];
            && TagsLen(r) == |tag| + TagsLen(g) && r[..PPPOE_LEN] == hdr
            && r[PPPOE_TAGS..] == tag + g[PPPOE_TAGS..PPPOE_TAGS + TagsLen(g)]
  {
    hide Htons, TagsLen, WithTag;
    var w, v := WithTag(g, tag), TagsLen(g) + |tag|;
    WithTagParts(g, tag);
    PrefixSlice(h, w, PPPOE_LEN, PPPOE_TAGS);
    PrefixSlice(h, w, PPPOE_TAGS, |w|);
    LenBytes(h, v);
    assert h[PPPOE_LEN..PPPOE_TAGS + v] == h[PPPOE_LEN..PPPOE_TAGS] + h[PPPOE_TAGS..PPPOE_TAGS + v];
    ReplyParts(hdr, h[PPPOE_LEN..PPPOE_TAGS], h[PPPOE_TAGS..PPPOE_TAGS + v]);
    LenBytes(hdr + h[PPPOE_LEN..PPPOE_TAGS + v], v);
  }

  /** What the bridge makes of a reply whose tags are tag and then area. */
  lemma ReplyRestored(r: seq<byte>, beyond: nat -> byte, mac: Mac, d: seq<byte>, junk: seq<byte>, area: seq<byte>)
    requires |r| >= PPPOE_TAGS && |d| < 0xFFF8 && r[PPPOE_TAGS..] == RelayTag(mac, d) + junk + area
    requires TagsLen(r) == |RelayTag(mac, d) + junk + area|
    ensures Relayed(r, beyond, 0, 8 + |d|) && |r| >= PPPOE_TAGS + 12
    ensures var back := OlderTag(d) + junk + area;
      |back| < 0x1_0000 && Unrelayed(r, 0, 8 + |d|) == mac + r[ETH_ALEN..PPPOE_LEN] + Htons(|back|) + back
  {
    hide Htons, TagsLen, RelayTag, Relayed, Unrelayed;
    var t := RelayTag(mac, d);
    assert r[PPPOE_TAGS..PPPOE_TAGS + |t|] == r[PPPOE_TAGS..][..|t|] == t == Encode([]) + t;
    EchoFound(r, beyond, [], mac, d);
    assert t + junk + area == Encode([]) + t + (junk + area) + [];
    assert TagsLen(r) == |Encode([]) + t + (junk + area)|;
    EchoRestored(r, [], mac, d, junk + area, []);
    assert Encode([]) + OlderTag(d) + (junk + area) == OlderTag(d) + junk + area;
  }

  lemma SameMem(skb: SkBuff)
    requires skb.Valid() && skb.Tailroom() == 0
    ensures skb.Mem() == skb.Frame()
  {
  }

  lemma SizeCases(n: nat, bigEndian: bool)
    requires n <= 28
    ensures DataLen(8 + n, bigEndian) >= 12 + n && (DataLen(8 + n, bigEndian) == 12 + n <==> bigEndian)
  {
    if !bigEndian {
      assert (8 + n) % 256 == 8 + n;
    }
  }

  lemma Compare(h: seq<byte>, o: seq<byte>, junk: seq<byte>, area: seq<byte>)
    requires |o + junk + area| < 0x1_0000
    ensures h + Htons(|o + junk + area|) + (o + junk + area) == h + Htons(|o + area|) + (o + area) <==> junk == []
  {
    hide Htons;
    if junk == [] {
      assert o + junk + area == o + area;
    } else {
      assert |h + Htons(|o + junk + area|) + (o + junk + area)| != |h + Htons(|o + area|) + (o + area)|;
    }
  }

  /** What the client should get: its own tags, in a reply addressed to it. */
  function Expected(f: seq<byte>, o: OldTag, hdr: seq<byte>): (r: seq<byte>)
    requires |f| >= PPPOE_TAGS && PPPOE_TAGS + TagsLen(f) <= |f| && Movable(f, o) && Inside(f, o) && |hdr| == PPPOE_LEN
    requires |ComesBack(f, o)| < 0x1_0000
  {
    f[ETH_ALEN..2 * ETH_ALEN] + hdr[ETH_ALEN..] + Htons(|ComesBack(f, o)|) + ComesBack(f, o)
  }

  /** The server's reply to a frame h that left the bridge: its own header, then the
      length and the tags of h. */
  function Echo(h: seq<byte>, hdr: seq<byte>): (r: seq<byte>)
    requires |h| >= PPPOE_TAGS && PPPOE_TAGS + TagsLen(h) <= |h| && |hdr| == PPPOE_LEN
  {
    hdr + h[PPPOE_LEN..PPPOE_TAGS + TagsLen(h)]
  }

  /** What the bridge makes of such a reply, as a value. */
  lemma EchoedReply(f: seq<byte>, o: OldTag, h: seq<byte>, hdr: seq<byte>, beyond: nat -> byte, stack: nat -> byte,
                    bigEndian: bool)
    requires |f| >= PPPOE_TAGS && PPPOE_TAGS + TagsLen(f) <= |f| && Movable(f, o) && Inside(f, o) && |hdr| == PPPOE_LEN
    requires var g, d := WithoutOld(f, o), OldData(f, o);
             var size := DataLen(8 + |d|, bigEndian);
             && |g| + size < 0x1_0000 && |h| >= PPPOE_TAGS + size + TagsLen(g)
             && h[..PPPOE_TAGS + size + TagsLen(g)]
                == WithTag(g, Copied(RelayTag(f[ETH_ALEN..2 * ETH_ALEN], d), stack, size))
    ensures PPPOE_TAGS + TagsLen(h) <= |h| && |ComesBack(f, o)| < 0x1_0000
    ensures var r, n := Echo(h, hdr), 8 + |OldData(f, o)|;
            && |r| >= PPPOE_TAGS + 12 && Relayed(r, beyond, 0, n)
            && (Unrelayed(r, 0, n) == Expected(f, o, hdr) <==> bigEndian)
  {
    hide Htons, TagsLen, FindOld, WithoutOld, OldData, Copied, RelayTag, WithTag, Relayed, Unrelayed, OlderTag, Inside;
    hide DataLen, ComesBack;
    var g, d, mac := WithoutOld(f, o), OldData(f, o), f[ETH_ALEN..2 * ETH_ALEN];
    var size := DataLen(8 + |d|, bigEndian);
    SizeCases(|d|, bigEndian);
    var tag, area := Copied(RelayTag(mac, d), stack, size), g[PPPOE_TAGS..PPPOE_TAGS + TagsLen(g)];
    ReplyRegion(g, tag, h, hdr);
    var r, junk := Echo(h, hdr), tag[12 + |d|..];
    assert tag == RelayTag(mac, d) + junk;
    ReplyRestored(r, beyond, mac, d, junk, area);
    BackIs(f, o);
    assert r[ETH_ALEN..PPPOE_LEN] == hdr[ETH_ALEN..];
    Compare(mac + hdr[ETH_ALEN..], OlderTag(d), junk, area);
  }

  lemma BackIs(f: seq<byte>, o: OldTag)
    requires |f| >= PPPOE_TAGS && PPPOE_TAGS + TagsLen(f) <= |f| && Movable(f, o) && Inside(f, o)
    ensures var g := WithoutOld(f, o);
            ComesBack(f, o) == OlderTag(OldData(f, o)) + g[PPPOE_TAGS..PPPOE_TAGS + TagsLen(g)]
  {
  }

  /** A PADI or PADR goes out through the bridge, if the buffer has room for the tag as
      the host sizes it, and the server echoes its tags behind a header of its own: where
      the host is big-endian, and only there, the client gets a reply with exactly the
      tags it sent. */
  method RoundTrip(skb: SkBuff, hdr: seq<byte>, beyond: nat -> byte, stack: nat -> byte, bigEndian: bool)
    returns (sent: bool, reply: SkBuff)
    requires skb.Valid() && skb.Len() >= PPPOE_TAGS && PPPOE_TAGS + TagsLen(skb.Frame()) <= skb.Len()
    requires Inside(skb.Frame(), FindOld(skb.Mem(), beyond)) && |skb.Mem()| < 0x1_0000 && |hdr| == PPPOE_LEN
    modifies skb`tail, skb.head
    ensures var f, o := old(skb.Frame()), FindOld(old(skb.Mem()), beyond);
      && sent == (Movable(f, o) && |WithoutOld(f, o)| + DataLen(8 + |OldData(f, o)|, bigEndian) <= old(|skb.Mem()|))
      && (sent ==>
            && reply.Valid() && |ComesBack(f, o)| < 0x1_0000
            && (reply.Frame() == Expected(f, o, hdr) <==> bigEndian))
  {
    hide Htons, TagsLen, FindOld, WithoutOld, OldData, Copied, RelayTag, WithTag, Relayed, Unrelayed, Inside,
        SkBuff.Mem;
    hide DataLen, ComesBack, Echo, Expected;
    ghost var f, o := skb.Frame(), FindOld(skb.Mem(), beyond);
    sent := Insert(skb, beyond, stack, bigEndian);
    reply := skb;
    if sent {
      EchoedReply(f, o, skb.Frame(), hdr, beyond, stack, bigEndian);
      var r := Echo(skb.Frame(), hdr);
      reply := new SkBuff(r, 0, 0);
      SameMem(reply);
      var ok := Lookup(reply, beyond);
    }
  }

  /** A discovery frame with no tags, from the client of MAC 2:0:0:0:0:1. */
  const PADI: seq<byte> :=
    [255, 255, 255, 255, 255, 255, 2, 0, 0, 0, 0, 1, 0x88, 0x63, 0x11, 0x09, 0, 0, 0, 0]

  lemma NoTags(m: seq<byte>, beyond: nat -> byte)
    requires |m| >= PPPOE_TAGS && m[PPPOE_LEN] == 0 && m[PPPOE_LEN + 1] == 0
    ensures TagsLen(m) == 0 && FindOld(m, beyond) == NoTag
  {
  }

  lemma HostSize()
    ensures DataLen(8, false) == 2052
  {
  }

  lemma BareFrame(f: seq<byte>, hdr: seq<byte>)
    requires |f| == PPPOE_TAGS && TagsLen(f) == 0 && |hdr| == PPPOE_LEN
    ensures WithoutOld(f, NoTag) == f && OldData(f, NoTag) == [] && ComesBack(f, NoTag) == []
    ensures Expected(f, NoTag, hdr) == f[ETH_ALEN..2 * ETH_ALEN] + hdr[ETH_ALEN..] + [0, 0]
  {
    hide TagsLen;
    NoOlder();
    BackIs(f, NoTag);
    assert f[PPPOE_TAGS..PPPOE_TAGS] == [];
    NothingBehind(f[ETH_ALEN..2 * ETH_ALEN] + hdr[ETH_ALEN..] + Htons(0));
  }

  lemma NothingBehind(x: seq<byte>)
    ensures x + [] == x
  {
  }

  /** The failure on a little-endian host, which takes the length 8 for 2048: with less
      than 2052 bytes of tailroom the bare frame is refused, and with as many it is sent
      and does not come back as it should. */
  method LittleEndianFails(tailroom: nat, hdr: seq<byte>, beyond: nat -> byte, stack: nat -> byte)
    returns (sent: bool, reply: SkBuff)
    requires tailroom < 0xFF00 && |hdr| == PPPOE_LEN
    ensures sent <==> tailroom >= 2052
    ensures sent ==> reply.Valid() && reply.Frame() != PADI[ETH_ALEN..2 * ETH_ALEN] + hdr[ETH_ALEN..] + [0, 0]
  {
    hide FindOld, TagsLen, WithoutOld, OldData, DataLen, Expected, ComesBack, SkBuff.Mem;
    var skb := new SkBuff(PADI, 0, tailroom);
    NoTags(PADI, beyond);
    BareFrame(PADI, hdr);
    assert DataLen(8, false) == 2052 by { HostSize(); }
    NoTags(skb.Mem(), beyond);
    sent, reply := RoundTrip(skb, hdr, beyond, stack, false);
  }
}
