/** The element list of a beacon (rtw_ap.c) and the functions that edit it in place:
    on bytes in a fixed buffer, proved to be operations on a list of elements. */
module BeaconElements {
  import opened Octets
  import opened Wrappers

  type Body = s: seq<byte> | |s| < 256

  const MAX_IE_SZ := 768
  const FIXED_IE_LENGTH := 12

  datatype Ie = Ie(id: byte, body: Body)

  function IeBytes(e: Ie): (s: seq<byte>)
    ensures |s| == 2 + |e.body|
  {
    [e.id, |e.body|] + e.body
  }

  function Encode(elems: seq<Ie>): (s: seq<byte>)
  {
    if elems == [] then [] else IeBytes(elems[0]) + Encode(elems[1..])
  }

  lemma {:induction false} EncodeAppend(a: seq<Ie>, b: seq<Ie>)
    ensures Encode(a + b) == Encode(a) + Encode(b)
  {
    if a == [] {
      assert a + b == b;
    } else {
      assert (a + b)[1..] == a[1..] + b;
      EncodeAppend(a[1..], b);
    }
  }

  /** The bytes around the k-th element. */
  lemma EncodeAt(elems: seq<Ie>, k: nat)
    requires k < |elems|
    ensures Encode(elems) == Encode(elems[..k]) + IeBytes(elems[k]) + Encode(elems[k + 1..])
    ensures Encode(elems[..k + 1]) == Encode(elems[..k]) + IeBytes(elems[k])
  {
    hide IeBytes, Encode;
    EncodeSplit(elems, k + 1);
    EncodeSplit(elems[..k + 1], k);
    assert elems[..k + 1][..k] == elems[..k] && elems[..k + 1][k..] == [elems[k]];
    EncodeCons([elems[k]]);
  }

  lemma EncodeSplit(elems: seq<Ie>, k: nat)
    requires k <= |elems|
    ensures Encode(elems) == Encode(elems[..k]) + Encode(elems[k..])
  {
    hide IeBytes, Encode;
    EncodeAppend(elems[..k], elems[k..]);
    assert elems[..k] + elems[k..] == elems;
  }

  lemma EncodeCons(elems: seq<Ie>)
    requires elems != []
    ensures Encode(elems) == IeBytes(elems[0]) + Encode(elems[1..])
    ensures |elems| == 1 ==> Encode(elems) == IeBytes(elems[0])
  {
  }

  // ----- what the editors mean

  /** Where the walk of `rtw_add_bcn_ie` stops: at the first element whose id is not
      smaller, or at the end. */
  function StopAt(elems: seq<Ie>, index: byte): (k: nat)
    ensures k <= |elems|
    ensures forall i | 0 <= i < k :: elems[i].id < index
    ensures k < |elems| ==> elems[k].id >= index
  {
    if elems == [] || elems[0].id >= index then 0 else 1 + StopAt(elems[1..], index)
  }

  predicate Matches(elems: seq<Ie>, index: byte) {
    StopAt(elems, index) < |elems| && elems[StopAt(elems, index)].id == index
  }

  /** The element the edit hangs on: the match, or else the last one passed. */
  function Anchor(elems: seq<Ie>, index: byte): (a: Option<nat>)
    ensures a.Some? ==> a.value < |elems|
  {
    var k := StopAt(elems, index);
    if Matches(elems, index) then Some(k) else if k > 0 then Some(k - 1) else None
  }

  /** The list after adding: the match replaced or the element put behind the anchor;
      nothing happens without an anchor or when the anchor has no body. */
  function Added(elems: seq<Ie>, e: Ie): seq<Ie> {
    var k, a := StopAt(elems, e.id), Anchor(elems, e.id);
    if a == None || elems[a.value].body == [] then elems
    else if Matches(elems, e.id) then elems[k := e] else elems[..k] + [e] + elems[k..]
  }

  /** What `rtw_get_ie` finds: the first element with the id. */
  function First(elems: seq<Ie>, id: byte): (k: Option<nat>)
    ensures k.Some? ==> k.value < |elems| && elems[k.value].id == id && forall i | 0 <= i < k.value :: elems[i].id != id
    ensures k == None ==> forall i | 0 <= i < |elems| :: elems[i].id != id
  {
    if elems == [] then None
    else if elems[0].id == id then Some(0)
    else match First(elems[1..], id) { case None => None case Some(k) => Some(k + 1) }
  }

  function Removed(elems: seq<Ie>, id: byte): seq<Ie> {
    match First(elems, id)
    case Some(k) => if elems[k].body == [] then elems else elems[..k] + elems[k + 1..]
    case None => elems
  }

  ghost predicate Sorted(elems: seq<Ie>) {
    forall i, j | 0 <= i < j < |elems| :: elems[i].id <= elems[j].id
  }

  lemma StopAtFirst(elems: seq<Ie>, index: byte)
    ensures StopAt(elems, index) == 0 <==> elems == [] || elems[0].id >= index
  {
  }

  /** On a sorted list the walk stops at the element with the id if there is one. */
  lemma SortedMatch(elems: seq<Ie>, id: byte)
    requires Sorted(elems)
    ensures Matches(elems, id) <==> First(elems, id).Some?
    ensures Matches(elems, id) ==> First(elems, id) == Some(StopAt(elems, id))
  {
    var k := StopAt(elems, id);
    if First(elems, id).Some? {
      var f := First(elems, id).value;
      assert k <= f && elems[k].id <= elems[f].id;
    }
  }

  /** On a sorted list adding replaces or inserts exactly one element, keeps the list
      sorted, and afterwards the element is the first of its id. */
  lemma AddedSorted(elems: seq<Ie>, e: Ie)
    requires Sorted(elems)
    ensures Sorted(Added(elems, e))
    ensures var a := Anchor(elems, e.id);
      a.Some? && elems[a.value].body != [] ==>
        && First(Added(elems, e), e.id) == Some(StopAt(elems, e.id)) && Added(elems, e)[StopAt(elems, e.id)] == e
        && |Added(elems, e)| == |elems| + if First(elems, e.id) == None then 1 else 0
  {
    hide StopAt, First;
    var k, r := StopAt(elems, e.id), Added(elems, e);
    SortedMatch(elems, e.id);
    var a := Anchor(elems, e.id);
    if a.Some? && elems[a.value].body != [] {
      assert r[k] == e;
      assert forall i | 0 <= i < k :: r[i] == elems[i];
    }
  }

  /** On any list the elements in front of the place and behind it stay as they are. Nothing
      is added in front of the first element or behind an empty one. */
  lemma AddedElsewhere(elems: seq<Ie>, e: Ie)
    ensures var r, k := Added(elems, e), StopAt(elems, e.id);
            if elems == [] || elems[0].id > e.id then r == elems
            else if k < |elems| && elems[k].id == e.id then
              if elems[k].body == [] then r == elems
              else |r| == |elems| && r[k] == e && r[..k] == elems[..k] && r[k + 1..] == elems[k + 1..]
            else
              && k > 0
              && if elems[k - 1].body == [] then r == elems
                 else |r| == |elems| + 1 && r[k] == e && r[..k] == elems[..k] && r[k + 1..] == elems[k..]
  {
    hide StopAt, First;
    StopAtFirst(elems, e.id);
    var k := StopAt(elems, e.id);
    InsertSlices(elems, k, e);
    if k < |elems| { ReplaceSlices(elems, k, e); }
  }

  lemma InsertSlices(elems: seq<Ie>, k: nat, e: Ie)
    requires k <= |elems|
    ensures var r := elems[..k] + [e] + elems[k..];
            |r| == |elems| + 1 && r[k] == e && r[..k] == elems[..k] && r[k + 1..] == elems[k..]
  {
  }

  lemma ReplaceSlices(elems: seq<Ie>, k: nat, e: Ie)
    requires k < |elems|
    ensures var r := elems[k := e]; |r| == |elems| && r[k] == e && r[..k] == elems[..k] && r[k + 1..] == elems[k + 1..]
  {
  }

  /** Adding an absent element and removing it again gives back the list, unless the
      added element is empty and finds an anchor: then it went in and stays. */
  lemma AddThenRemove(elems: seq<Ie>, e: Ie)
    requires First(elems, e.id) == None
    ensures var a := Anchor(elems, e.id);
            Removed(Added(elems, e), e.id) == elems <==> e.body != [] || a == None || elems[a.value].body == []
  {
    hide StopAt, First;
    var k, a := StopAt(elems, e.id), Anchor(elems, e.id);
    if a != None && elems[a.value].body != [] {
      InsertedThenGone(elems, e, k);
    }
  }

  lemma InsertedThenGone(elems: seq<Ie>, e: Ie, k: nat)
    requires k <= |elems| && First(elems, e.id) == None
    ensures var added := elems[..k] + [e] + elems[k..];
            First(added, e.id) == Some(k) && added[..k] + added[k + 1..] == elems != added
  {
    hide First;
    var added := elems[..k] + [e] + elems[k..];
    InsertedAt(elems, e, k);
    FirstIs(added, e.id, k);
  }

  lemma InsertedAt(elems: seq<Ie>, e: Ie, k: nat)
    requires k <= |elems|
    ensures var added := elems[..k] + [e] + elems[k..];
            && added[k] == e && (forall i | 0 <= i < k :: added[i] == elems[i])
            && |added| == |elems| + 1 && added[..k] + added[k + 1..] == elems
  {
  }

  lemma FirstIs(elems: seq<Ie>, id: byte, k: nat)
    requires k < |elems| && elems[k].id == id && forall i | 0 <= i < k :: elems[i].id != id
    ensures First(elems, id) == Some(k)
  {
    hide First;
  }

  // ----- the buffer

  /** Where the k-th element starts in the buffer. */
  function Start(elems: seq<Ie>, k: nat): nat
    requires k <= |elems|
  {
    FIXED_IE_LENGTH + |Encode(elems[..k])|
  }

  /** The bytes of the k-th element in the buffer, or the end of the list. */
  lemma ElementBytes(bytes: seq<byte>, fixed: seq<byte>, elems: seq<Ie>, k: nat)
    requires |fixed| == FIXED_IE_LENGTH && bytes == fixed + Encode(elems) && k <= |elems|
    ensures k < |elems| ==>
      var o := Start(elems, k);
      && Start(elems, k + 1) == o + 2 + |elems[k].body| <= |bytes|
      && bytes[o] == elems[k].id && bytes[o + 1] == |elems[k].body|
    ensures k == |elems| ==> Start(elems, k) == |bytes|
  {
    hide Encode;
    if k < |elems| {
      EncodeAt(elems, k);
      Middle(fixed, Encode(elems[..k]), IeBytes(elems[k]), Encode(elems[k + 1..]));
    } else {
      assert elems[..k] == elems;
    }
  }

  lemma Middle(f: seq<byte>, x: seq<byte>, y: seq<byte>, z: seq<byte>)
    requires |y| >= 2
    ensures (f + (x + y + z))[|f| + |x|] == y[0] && (f + (x + y + z))[|f| + |x| + 1] == y[1]
  {
  }

  lemma Ends(f: seq<byte>, x: seq<byte>, y: seq<byte>, z: seq<byte>, m: seq<byte>)
    ensures var b := f + (x + y + z); b[..|f| + |x|] + m + b[|f| + |x| + |y|..] == f + (x + m + z)
  {
    var b := f + (x + y + z);
    assert b[..|f| + |x|] == f + x && b[|f| + |x| + |y|..] == z;
  }

  /** Replacing the bytes of elements lo..hi by those of mid is editing the list. */
  lemma EditedBytes(bytes: seq<byte>, fixed: seq<byte>, elems: seq<Ie>, lo: nat, hi: nat, mid: seq<Ie>)
    requires |fixed| == FIXED_IE_LENGTH && bytes == fixed + Encode(elems) && lo <= hi <= |elems|
    ensures FIXED_IE_LENGTH <= Start(elems, lo) <= Start(elems, hi) <= |bytes|
    ensures bytes[..Start(elems, lo)] + Encode(mid) + bytes[Start(elems, hi)..]
            == fixed + Encode(elems[..lo] + mid + elems[hi..])
  {
    hide Encode;
    EncodeSplit(elems, hi);
    EncodeSplit(elems[..hi], lo);
    assert elems[..hi][..lo] == elems[..lo];
    EncodeAppend(elems[..lo] + mid, elems[hi..]);
    EncodeAppend(elems[..lo], mid);
    Ends(fixed, Encode(elems[..lo]), Encode(elems[..hi][lo..]), Encode(elems[hi..]), Encode(mid));
  }

  /** `WLAN_BSSID_EX`: the fixed fields and the element list of a beacon. */
  class Network {
    const ies: array<byte>
    var ieLength: nat
    ghost var fixed: seq<byte>
    ghost var elems: seq<Ie>

    ghost predicate Valid()
      reads this, ies
    {
      && ies.Length == MAX_IE_SZ && ieLength <= MAX_IE_SZ && |fixed| == FIXED_IE_LENGTH
      && ies[..ieLength] == fixed + Encode(elems)
    }

    constructor (fixed: seq<byte>, ghost elems: seq<Ie>, bytes: seq<byte>)
      requires |fixed| == FIXED_IE_LENGTH && bytes == Encode(elems) && |fixed| + |bytes| <= MAX_IE_SZ
      ensures Valid() && this.fixed == fixed && this.elems == elems && fresh(ies)
    {
      var content := fixed + bytes;
      ies := new byte[MAX_IE_SZ](i requires 0 <= i => if i < |content| then content[i] else 0);
      ieLength := |content|;
      this.fixed, this.elems := fixed, elems;
    }

    /** `rtw_get_ie` behind the fixed fields: where the first element with the id
        starts, and how long its body is. */
    method GetIe(index: byte) returns (p: Option<nat>, len: nat)
      requires Valid()
      ensures match First(elems, index)
        case None => p == None
        case Some(k) => p == Some(Start(elems, k)) && len == |elems[k].body|
    {
      hide Encode, First, Start;
      len := 0;
      var i := FIXED_IE_LENGTH;
      ghost var k := 0;
      StartAtZero(elems);
      while i < ieLength
        invariant k <= |elems| && i == Start(elems, k) <= ieLength
        invariant forall j | 0 <= j < k :: elems[j].id != index
        decreases |elems| - k
      {
        ElementBytes(ies[..ieLength], fixed, elems, k);
        if ies[i] == index {
          return Some(i), ies[i + 1];
        }
        i := i + ies[i + 1] + 2;
        k := k + 1;
      }
      if k < |elems| { ElementBytes(ies[..ieLength], fixed, elems, k); }
      return None, 0;
    }

    /** The editing all functions share: n bytes at dst give way to x, the bytes behind
        them are backed up and copied back, and the length is set anew. */
    method Edit(dst: nat, n: nat, x: seq<byte>)
      requires ies.Length == MAX_IE_SZ && dst + n <= ieLength <= MAX_IE_SZ && ieLength - n + |x| <= MAX_IE_SZ
      modifies this`ieLength, ies
      ensures ieLength == old(ieLength) - n + |x|
      ensures ies[..ieLength] == old(ies[..dst]) + x + old(ies[dst + n..ieLength])
    {
      var backup := ies[dst + n..ieLength];
      var after := dst + |x|;
      forall i | 0 <= i < |x| {
        ies[dst + i] := x[i];
      }
      forall i | 0 <= i < |backup| {
        ies[after + i] := backup[i];
      }
      ieLength := after + |backup|;
    }

    /** The list with elements lo..hi replaced by mid fits the buffer. */
    method EditList(ghost lo: nat, ghost hi: nat, ghost mid: seq<Ie>, dst: nat, n: nat, x: seq<byte>)
      requires Valid() && lo <= hi <= |elems| && dst == Start(elems, lo) && dst + n == Start(elems, hi)
              && x == Encode(mid)
      requires FIXED_IE_LENGTH + |Encode(elems[..lo] + mid + elems[hi..])| <= MAX_IE_SZ
      modifies this`ieLength, this`elems, ies
      ensures Valid() && elems == old(elems)[..lo] + mid + old(elems)[hi..]
    {
      hide Encode, Start;
      EditedBytes(ies[..ieLength], fixed, elems, lo, hi, mid);
      EditedLength(ies[..ieLength], dst, dst + n, x, fixed + Encode(elems[..lo] + mid + elems[hi..]));
      assert ies[..ieLength][..dst] == ies[..dst] && ies[..ieLength][dst + n..] == ies[dst + n..ieLength];
      Edit(dst, n, x);
      elems := elems[..lo] + mid + elems[hi..];
    }

    /** The walk of `rtw_add_bcn_ie` to its anchor. */
    method FindAnchor(index: byte) returns (p: Option<nat>, ielen: nat, matched: bool)
      requires Valid()
      ensures matched == Matches(elems, index)
      ensures match Anchor(elems, index)
        case None => p == None
        case Some(a) =>
          && p == Some(Start(elems, a)) && ielen == |elems[a].body|
          && Start(elems, a + 1) == Start(elems, a) + 2 + ielen <= ieLength
    {
      hide Encode, Start, StopAt;
      p, ielen, matched := None, 0, false;
      var i := FIXED_IE_LENGTH;
      ghost var k := 0;
      StartAtZero(elems);
      while i < ieLength
        invariant k <= |elems| && i == Start(elems, k) <= ieLength && !matched
        invariant forall j | 0 <= j < k :: elems[j].id < index
        invariant k == 0 ==> p == None
        invariant k > 0 ==> p == Some(Start(elems, k - 1)) && ielen == |elems[k - 1].body| && i == p.value + 2 + ielen
        decreases |elems| - k
      {
        ElementBytes(ies[..ieLength], fixed, elems, k);
        if ies[i] > index {
          StopIs(elems, index, k);
          return;
        } else if ies[i] == index {
          StopIs(elems, index, k);
          return Some(i), ies[i + 1], true;
        }
        p, ielen := Some(i), ies[i + 1];
        i := i + ies[i + 1] + 2;
        k := k + 1;
      }
      ElementBytes(ies[..ieLength], fixed, elems, k);
      StopIs(elems, index, k);
    }

    /** `rtw_add_bcn_ie`. */
    method AddIe(index: byte, data: Body)
      requires Valid() && FIXED_IE_LENGTH + |Encode(Added(elems, Ie(index, data)))| <= MAX_IE_SZ
      modifies this`ieLength, this`elems, ies
      ensures Valid() && elems == Added(old(elems), Ie(index, data))
    {
      hide Encode, Start, StopAt, IeBytes;
      var p, ielen, matched := FindAnchor(index);
      if p == None || ielen == 0 {
        return;
      }
      ghost var k := StopAt(elems, index);
      var e := Ie(index, data);
      EncodeCons([e]);
      if matched {
        assert elems[..k] + [e] + elems[k + 1..] == elems[k := e];
        EditList(k, k + 1, [e], p.value, ielen + 2, IeBytes(e));
      } else {
        EditList(k, k, [e], p.value + ielen + 2, 0, IeBytes(e));
      }
    }

    /** `rtw_remove_bcn_ie`. */
    method RemoveIe(index: byte)
      requires Valid()
      modifies this`ieLength, this`elems, ies
      ensures Valid() && elems == Removed(old(elems), index)
    {
      hide Encode, First, Start;
      var p, ielen := GetIe(index);
      if p == None || ielen == 0 {
        return;
      }
      ghost var k := First(elems, index).value;
      ElementBytes(ies[..ieLength], fixed, elems, k);
      assert elems[..k] + [] + elems[k + 1..] == elems[..k] + elems[k + 1..];
      RemovedShorter(elems, k);
      EditList(k, k + 1, [], p.value, ielen + 2, []);
    }

    /** Adding an absent, non-empty element and removing it restores every byte. */
    method AddAndRemove(index: byte, data: Body)
      requires Valid() && FIXED_IE_LENGTH + |Encode(Added(elems, Ie(index, data)))| <= MAX_IE_SZ
      requires First(elems, index) == None && data != []
      modifies this`ieLength, this`elems, ies
      ensures Valid() && ieLength == old(ieLength) && ies[..ieLength] == old(ies[..ieLength])
    {
      hide Encode, Added, Removed, First;
      AddThenRemove(elems, Ie(index, data));
      AddIe(index, data);
      RemoveIe(index);
    }
  }

  lemma EditedLength(bytes: seq<byte>, lo: nat, hi: nat, x: seq<byte>, r: seq<byte>)
    requires lo <= hi <= |bytes| && bytes[..lo] + x + bytes[hi..] == r
    ensures |r| == |bytes| - (hi - lo) + |x|
  {
  }

  lemma StopIs(elems: seq<Ie>, index: byte, k: nat)
    requires k <= |elems| && (forall j | 0 <= j < k :: elems[j].id < index) && (k < |elems| ==> elems[k].id >= index)
    ensures StopAt(elems, index) == k
  {
    hide StopAt;
  }

  lemma RemovedShorter(elems: seq<Ie>, k: nat)
    requires k < |elems|
    ensures |Encode(elems[..k] + elems[k + 1..])| <= |Encode(elems)| && Encode([]) == []
  {
    EncodeAt(elems, k);
    EncodeAppend(elems[..k], elems[k + 1..]);
  }

  lemma StartAtZero(elems: seq<Ie>)
    ensures Start(elems, 0) == FIXED_IE_LENGTH
  {
  }
}
