/** Where `update_BCNTIM` may put a new TIM element without damage to the others: its
    place is computed from two lengths and three more bytes, whatever is there. */
module BeaconPlace {
  import opened BeaconElements
  import opened BeaconTim
  import opened Octets
  import opened Wrappers

  function InsertAt(e: seq<byte>, off: nat, t: seq<byte>): seq<byte>
    requires off <= |e|
  {
    e[..off] + t + e[off..]
  }

  /** m copies of t. */
  function Times(t: seq<byte>, m: nat): (s: seq<byte>)
    ensures |s| == m * |t|
  {
    if m == 0 then [] else t + Times(t, m - 1)
  }

  // ----- words that commute with the bytes of a TIM element

  lemma {:induction false} TimesCommutes(t: seq<byte>, m: nat)
    ensures Times(t, m) + t == t + Times(t, m)
  {
    if m > 0 {
      TimesCommutes(t, m - 1);
      assert t + Times(t, m - 1) + t == t + (Times(t, m - 1) + t);
    }
  }

  lemma TimBytes(b: Bitmap)
    ensures var t := IeBytes(Tim(b));
            && (|t| == 6 || |t| == 7) && t[0] == TIM_IE && t[1] == |t| - 2 && t[2] == 0 && t[3] == 1
  {
  }

  /** A shorter word that commutes with t rotates it into itself. */
  lemma RotatedAt(w: seq<byte>, t: seq<byte>, i: nat)
    requires w + t == t + w && |w| < |t| && i < |t|
    ensures t[i] == if |w| + i < |t| then t[|w| + i] else t[|w| + i - |t|]
  {
    assert t[i] == (w + t)[|w| + i] == (t + w)[|w| + i];
    if |w| + i >= |t| {
      var j := |w| + i - |t|;
      assert w[j] == (w + t)[j] == (t + w)[j] == t[j];
    }
  }

  /** The bytes of the element agree with no rotation of themselves. */
  lemma NoRotation(b: Bitmap, w: seq<byte>)
    requires 0 < |w| < |IeBytes(Tim(b))|
    ensures w + IeBytes(Tim(b)) != IeBytes(Tim(b)) + w
  {
    hide IeBytes, Tim;
    var t := IeBytes(Tim(b));
    TimBytes(b);
    if w + t == t + w {
      RotatedAt(w, t, 0);
      RotatedAt(w, t, 1);
      RotatedAt(w, t, 2);
      RotatedAt(w, t, 3);
      assert false;
    }
  }

  /** A longer one starts with t, and what is left commutes again. */
  lemma CommutesBehind(w: seq<byte>, t: seq<byte>)
    requires w + t == t + w && |w| >= |t|
    ensures w == t + w[|t|..] && w[|t|..] + t == t + w[|t|..]
  {
    var u := w + t;
    assert u[..|t|] == t;
    assert w[..|t|] == u[..|t|];
    assert u[|t|..] == w;
    assert u[|t|..] == w[|t|..] + t;
  }

  /** So a word that commutes with them is a number of copies of them. */
  lemma {:induction false} Commutes(b: Bitmap, w: seq<byte>) returns (m: nat)
    requires w + IeBytes(Tim(b)) == IeBytes(Tim(b)) + w
    ensures w == Times(IeBytes(Tim(b)), m)
    decreases |w|
  {
    hide IeBytes, TimBody;
    var t := IeBytes(Tim(b));
    TimBytes(b);
    if w == [] {
      m := 0;
    } else if |w| < |t| {
      NoRotation(b, w);
    } else {
      CommutesBehind(w, t);
      var n := Commutes(b, w[|t|..]);
      m := n + 1;
    }
  }

  // ----- inserting bytes and inserting elements

  /** Inserting at two places gives the same bytes exactly when the bytes between them
      commute with what is inserted. */
  lemma SameInsert(e: seq<byte>, lo: nat, hi: nat, t: seq<byte>)
    requires lo <= hi <= |e|
    ensures InsertAt(e, lo, t) == InsertAt(e, hi, t) <==> t + e[lo..hi] == e[lo..hi] + t
  {
    var w, n := e[lo..hi], hi - lo + |t|;
    var x, y := InsertAt(e, lo, t), InsertAt(e, hi, t);
    assert x == e[..lo] + (t + w) + e[hi..] by { assert e[lo..] == w + e[hi..]; }
    assert y == e[..lo] + (w + t) + e[hi..] by { assert e[..hi] == e[..lo] + w; }
    assert x[lo..lo + n] == t + w && y[lo..lo + n] == w + t;
  }

  /** Inserting an element into the list inserts its bytes where the next one starts. */
  lemma ListInsert(elems: seq<Ie>, k: nat, x: Ie)
    requires k <= |elems|
    ensures |Encode(elems[..k])| <= |Encode(elems)|
    ensures Encode(elems[..k] + [x] + elems[k..]) == InsertAt(Encode(elems), |Encode(elems[..k])|, IeBytes(x))
  {
    hide Encode, IeBytes;
    EncodeSplit(elems, k);
    EncodeAppend(elems[..k] + [x], elems[k..]);
    EncodeAppend(elems[..k], [x]);
    EncodeCons([x]);
  }

  /** Some list made of the elements, in their order, and the new one has these bytes. */
  ghost predicate Survive(elems: seq<Ie>, b: Bitmap, bytes: seq<byte>) {
    exists k: nat :: k <= |elems| && bytes == Encode(elems[..k] + [Tim(b)] + elems[k..])
  }

  /** From off on the bytes are m copies of the new element, up to the start of an element. */
  ghost predicate CopiesUpTo(elems: seq<Ie>, b: Bitmap, off: nat, k: nat, m: nat) {
    var e, t := Encode(elems), IeBytes(Tim(b));
    && k <= |elems| && |Encode(elems[..k])| == off + m * |t| <= |e|
    && e[off..off + m * |t|] == Times(t, m)
  }

  lemma CopiesSurvive(elems: seq<Ie>, b: Bitmap, off: nat, k: nat, m: nat)
    requires off <= |Encode(elems)| && CopiesUpTo(elems, b, off, k, m)
    ensures Survive(elems, b, InsertAt(Encode(elems), off, IeBytes(Tim(b))))
  {
    hide Encode, IeBytes, Tim, Times, InsertAt;
    var t := IeBytes(Tim(b));
    ListInsert(elems, k, Tim(b));
    TimesCommutes(t, m);
    SameInsert(Encode(elems), off, off + m * |t|, t);
  }

  /** Where copies start at the start of an element they are elements, so they end at one. */
  lemma {:induction false} CopiesAreElements(elems: seq<Ie>, b: Bitmap, k: nat, m: nat) returns (j: nat)
    requires k <= |elems|
    requires var e, t, a := Encode(elems), IeBytes(Tim(b)), |Encode(elems[..k])|;
             a + m * |t| <= |e| && e[a..a + m * |t|] == Times(t, m)
    ensures j <= |elems| && |Encode(elems[..j])| == |Encode(elems[..k])| + m * |IeBytes(Tim(b))|
    decreases m
  {
    hide Encode, IeBytes, Tim;
    var e, t, a := Encode(elems), IeBytes(Tim(b)), |Encode(elems[..k])|;
    if m == 0 {
      j := k;
    } else {
      TimBytes(b);
      FirstCopy(e, t, a, m);
      StepOver(elems, k, t);
      j := CopiesAreElements(elems, b, k + 1, m - 1);
    }
  }

  lemma FirstCopy(e: seq<byte>, t: seq<byte>, a: nat, m: nat)
    requires m > 0 && a + m * |t| <= |e| && e[a..a + m * |t|] == Times(t, m)
    ensures a + |t| + (m - 1) * |t| == a + m * |t| && e[a..a + |t|] == t
    ensures e[a + |t|..a + |t| + (m - 1) * |t|] == Times(t, m - 1)
  {
    assert m * |t| == |t| + (m - 1) * |t|;
    assert e[a..a + m * |t|][..|t|] == e[a..a + |t|];
    assert e[a..a + m * |t|][|t|..] == e[a + |t|..a + m * |t|];
  }

  lemma StepOver(elems: seq<Ie>, k: nat, t: seq<byte>)
    requires k <= |elems| && |t| >= 2 && t[1] == |t| - 2
    requires var a := |Encode(elems[..k])|; a + |t| <= |Encode(elems)| && Encode(elems)[a..a + |t|] == t
    ensures k < |elems| && |Encode(elems[..k + 1])| == |Encode(elems[..k])| + |t|
  {
    hide Encode;
    var e, a := Encode(elems), |Encode(elems[..k])|;
    assert elems[..|elems|] == elems;
    if k < |elems| {
      EncodeAt(elems, k);
      assert e[a + 1] == t[1] by { assert e[a..a + |t|][1] == t[1]; }
    }
  }

  /** After bytes have been put in at off the list is intact in exactly these cases:
      off is the start of an element or the end, or else only copies of the new element
      lie between off and the next start. */
  lemma SurviveExactly(elems: seq<Ie>, b: Bitmap, off: nat)
    requires off <= |Encode(elems)|
    ensures Survive(elems, b, InsertAt(Encode(elems), off, IeBytes(Tim(b))))
            <==> exists k: nat, m: nat :: CopiesUpTo(elems, b, off, k, m)
  {
    hide Encode, IeBytes, Tim, Times, InsertAt, CopiesUpTo;
    var e, t := Encode(elems), IeBytes(Tim(b));
    if k: nat, m: nat :| CopiesUpTo(elems, b, off, k, m) {
      CopiesSurvive(elems, b, off, k, m);
    }
    if Survive(elems, b, InsertAt(e, off, t)) {
      var k: nat :| k <= |elems| && InsertAt(e, off, t) == Encode(elems[..k] + [Tim(b)] + elems[k..]);
      ListInsert(elems, k, Tim(b));
      var j, m := SurvivorCopies(elems, b, off, k);
    }
  }

  lemma SurvivorCopies(elems: seq<Ie>, b: Bitmap, off: nat, k: nat) returns (j: nat, m: nat)
    requires off <= |Encode(elems)| && k <= |elems| && |Encode(elems[..k])| <= |Encode(elems)|
    requires var e, t := Encode(elems), IeBytes(Tim(b)); InsertAt(e, off, t) == InsertAt(e, |Encode(elems[..k])|, t)
    ensures CopiesUpTo(elems, b, off, j, m)
  {
    hide Encode, IeBytes, Tim, Times, InsertAt;
    var e, t, a := Encode(elems), IeBytes(Tim(b)), |Encode(elems[..k])|;
    if a >= off {
      SameInsert(e, off, a, t);
      m := Commutes(b, e[off..a]);
      j := k;
    } else {
      SameInsert(e, a, off, t);
      var n := Commutes(b, e[a..off]);
      j := CopiesAreElements(elems, b, k, n);
      m := 0;
      NoCopies(e, off, t);
    }
  }

  lemma NoCopies(e: seq<byte>, off: nat, t: seq<byte>)
    requires off <= |e|
    ensures 0 * |t| == 0 && e[off..off] == Times(t, 0)
  {
  }

  // ----- the place the driver computes

  lemma BoundaryExactly(elems: seq<Ie>, off: nat)
    ensures Boundary(elems, off).Some? <==> exists k: nat :: k <= |elems| && |Encode(elems[..k])| == off
  {
    hide Boundary, Encode;
    if k: nat :| k <= |elems| && |Encode(elems[..k])| == off {
      PrefixBoundary(elems[..k], elems[k..]);
      assert elems[..k] + elems[k..] == elems;
    }
  }

  /** Does a copy of the new element stand at off already? */
  predicate StartsCopy(e: seq<byte>, off: nat, t: seq<byte>) {
    off + |t| <= |e| && e[off..off + |t|] == t
  }

  /** The other elements survive a first TIM element exactly when it is placed between two
      of them, unless a copy of it already stands at its place. */
  lemma KeptExactly(elems: seq<Ie>, b: Bitmap)
    requires HeadLen(elems) <= |Encode(elems)| && !Replaceable(elems)
    ensures var e, t, off := Encode(elems), IeBytes(Tim(b)), HeadLen(elems);
            && (Survive(elems, b, InsertAt(e, off, t)) <==> exists k: nat, m: nat :: CopiesUpTo(elems, b, off, k, m))
            && (Placed(elems) ==> Survive(elems, b, InsertAt(e, off, t)))
            && (!StartsCopy(e, off, t) ==> (Survive(elems, b, InsertAt(e, off, t)) <==> Placed(elems)))
  {
    hide Encode, IeBytes, Tim, Times, InsertAt, HeadLen, Boundary, First, Replaceable, Survive, CopiesUpTo, StartsCopy;
    var e, t, off := Encode(elems), IeBytes(Tim(b)), HeadLen(elems);
    SurviveExactly(elems, b, off);
    BoundaryExactly(elems, off);
    if Placed(elems) {
      var k: nat :| k <= |elems| && |Encode(elems[..k])| == off;
      NoCopiesUpTo(elems, b, off, k);
    }
    if !StartsCopy(e, off, t) {
      if k: nat, m: nat :| CopiesUpTo(elems, b, off, k, m) {
        CopiesStart(elems, b, off, k, m);
      }
    }
  }

  lemma NoCopiesUpTo(elems: seq<Ie>, b: Bitmap, off: nat, k: nat)
    requires off <= |Encode(elems)| && k <= |elems| && |Encode(elems[..k])| == off
    ensures CopiesUpTo(elems, b, off, k, 0)
  {
    hide Encode, IeBytes, Tim, Times;
    NoCopies(Encode(elems), off, IeBytes(Tim(b)));
  }

  lemma CopiesStart(elems: seq<Ie>, b: Bitmap, off: nat, k: nat, m: nat)
    requires CopiesUpTo(elems, b, off, k, m)
    ensures m > 0 ==> StartsCopy(Encode(elems), off, IeBytes(Tim(b)))
    ensures m == 0 ==> k <= |elems| && |Encode(elems[..k])| == off
  {
    hide Encode, IeBytes, Tim, Times;
    if m > 0 {
      FirstCopy(Encode(elems), IeBytes(Tim(b)), off, m);
    } else {
      NoCopies(Encode(elems), 0, IeBytes(Tim(b)));
    }
  }

  /** `update_BCNTIM` on a beacon without a TIM element to replace. */
  method UpdateKeeps(net: Network, b: Bitmap)
    requires net.Valid() && Reached(net.elems) && !Replaceable(net.elems)
    requires net.ieLength + |IeBytes(Tim(b))| <= MAX_IE_SZ
    modifies net`ieLength, net`elems, net.ies
    ensures FIXED_IE_LENGTH <= net.ieLength <= net.ies.Length
    ensures var elems := old(net.elems);
            var e, t, off, after := Encode(elems), IeBytes(Tim(b)), HeadLen(elems), net.ies[..net.ieLength];
            && after[..FIXED_IE_LENGTH] == old(net.fixed)
            && (Survive(elems, b, after[FIXED_IE_LENGTH..])
                <==> exists k: nat, m: nat :: CopiesUpTo(elems, b, off, k, m))
            && (!StartsCopy(e, off, t) ==> (Survive(elems, b, after[FIXED_IE_LENGTH..]) <==> Placed(elems)))
  {
    hide Encode, IeBytes, Tim, HeadLen, Placed, Replaceable, Survive, CopiesUpTo, StartsCopy;
    ghost var fixed, elems, was := net.fixed, net.elems, net.ies[..net.ieLength];
    NothingReplaced(elems);
    UpdateTim(net, b);
    KeptExactly(elems, b);
    InsertedBehind(fixed, Encode(elems), HeadLen(elems), IeBytes(Tim(b)));
  }

  lemma NothingReplaced(elems: seq<Ie>)
    requires !Replaceable(elems)
    ensures Replaced(elems) == 0 && Offset(elems) == FIXED_IE_LENGTH + HeadLen(elems)
    ensures Reached(elems) <==> HeadLen(elems) <= |Encode(elems)|
  {
  }

  lemma Parted(fixed: seq<byte>, e: seq<byte>, off: nat)
    requires off <= |e|
    ensures (fixed + e)[..|fixed| + off] == fixed + e[..off] && (fixed + e)[|fixed| + off..] == e[off..]
  {
  }

  lemma InsertedBehind(fixed: seq<byte>, e: seq<byte>, off: nat, t: seq<byte>)
    requires off <= |e|
    ensures var was, at := fixed + e, |fixed| + off;
            var after := was[..at] + t + was[at..];
            after[..|fixed|] == fixed && after[|fixed|..] == InsertAt(e, off, t)
  {
    var was, at := fixed + e, |fixed| + off;
    Parted(fixed, e, off);
    assert fixed + e[..off] + t + e[off..] == fixed + (e[..off] + t + e[off..]);
  }

  // ----- the two kinds of lists it goes by

  lemma SetBytes(body: Body)
    ensures Encode([Ie(SSID_IE, [65]), Ie(SUPPORTEDRATES_IE, [130]), Ie(48, body)])
            == [SSID_IE, 1, 65, SUPPORTEDRATES_IE, 1, 130, 48, |body|] + body
  {
    var elems := [Ie(SSID_IE, [65]), Ie(SUPPORTEDRATES_IE, [130]), Ie(48, body)];
    var c := Ie(48, body);
    assert elems[1..] == [Ie(SUPPORTEDRATES_IE, [130]), c] && elems[1..][1..] == [c];
    assert Encode([c]) == IeBytes(c) by { EncodeCons([c]); }
    EncodeCons(elems[1..]);
    EncodeCons(elems);
  }

  /** SSID, one rate and a security element, as in the 5 GHz band: no parameter set. */
  function NoParameterSet(body: Body): (elems: seq<Ie>)
    ensures |Encode(elems)| == 8 + |body|
  {
    SetBytes(body);
    [Ie(SSID_IE, [65]), Ie(SUPPORTEDRATES_IE, [130]), Ie(48, body)]
  }

  lemma PlaceInside(body: Body)
    requires |body| >= 2
    ensures var elems := NoParameterSet(body);
            && HeadLen(elems) == 9 && !Replaceable(elems) && !Placed(elems)
            && Encode(elems)[9..] == body[1..]
  {
    var elems := NoParameterSet(body);
    SetBytes(body);
    hide Encode, IeBytes;
    FirstIs(elems, SSID_IE, 0);
    FirstIs(elems, SUPPORTEDRATES_IE, 1);
    assert Boundary(elems[1..][1..], 3) == None;
    assert Boundary(elems[1..], 6) == None;
  }

  /** The place is inside the security element, which does not survive; except when that
      element happens to end with the bytes of the new one. */
  lemma InsideBreaks(b: Bitmap, body: Body)
    requires |body| >= 2
    ensures var elems := NoParameterSet(body);
            var after := InsertAt(Encode(elems), 9, IeBytes(Tim(b)));
            && !Placed(elems)
            && (!StartsCopy(body, 1, IeBytes(Tim(b))) ==> !Survive(elems, b, after))
            && (body[1..] == IeBytes(Tim(b)) ==> Survive(elems, b, after))
  {
    hide Encode, IeBytes, Tim, InsertAt, HeadLen, Replaceable, Placed, Survive, CopiesUpTo, NoParameterSet;
    var elems, t := NoParameterSet(body), IeBytes(Tim(b));
    PlaceInside(body);
    KeptExactly(elems, b);
    CopyBehind(Encode(elems), body, t);
    if body[1..] == t {
      OneCopy(elems, b);
    }
  }

  lemma CopyBehind(e: seq<byte>, body: seq<byte>, t: seq<byte>)
    requires |body| >= 1 && |e| == 8 + |body| && e[9..] == body[1..]
    ensures StartsCopy(e, 9, t) <==> StartsCopy(body, 1, t)
  {
    if 9 + |t| <= |e| {
      assert e[9..9 + |t|] == e[9..][..|t|] == body[1..][..|t|] == body[1..1 + |t|];
    }
  }

  lemma OneCopy(elems: seq<Ie>, b: Bitmap)
    requires 9 <= |Encode(elems)| && Encode(elems)[9..] == IeBytes(Tim(b))
    ensures CopiesUpTo(elems, b, 9, |elems|, 1)
  {
    hide Encode, IeBytes, Tim;
    var t := IeBytes(Tim(b));
    assert elems[..|elems|] == elems;
    assert Times(t, 1) == t + Times(t, 0) == t;
    assert Encode(elems)[9..9 + 1 * |t|] == t;
  }
}
