/** Group frames of an access point while stations sleep (rtw_xmit.c, rtw_ap.c): they are
    buffered, go out in batches of at most six after a beacon or all at once when the
    last station wakes, and bit 0 of the TIM bitmap tells of them. */
module BroadcastDrain {

  const HIQ_XMIT_COUNTS := 6

  /** A frame as it is handed to the hardware: with its more-data bit, and on the high
      queue or not. */
  datatype Sent<T> = Sent(frame: T, mdata: bool, high: bool)

  function Min(a: nat, b: nat): nat {
    if a < b then a else b
  }

  /** One batch: only the last frame says that no more data follows. */
  function Batch<T>(frames: seq<T>, hiq: T -> bool): (s: seq<Sent<T>>)
    ensures |s| == |frames|
  {
    seq(|frames|, i requires 0 <= i < |frames| => Sent(frames[i], i < |frames| - 1, hiq(frames[i])))
  }

  /** All batches that empty the queue. */
  function Batches<T>(frames: seq<T>, hiq: T -> bool): (s: seq<Sent<T>>)
    ensures |s| == |frames|
  {
    var n := Min(HIQ_XMIT_COUNTS, |frames|);
    if frames == [] then [] else Batch(frames[..n], hiq) + Batches(frames[n..], hiq)
  }

  /** Every queued frame is sent once, in order, and the more-data bit is clear exactly
      on every sixth frame and on the last. */
  lemma {:induction false} BatchesAt<T>(frames: seq<T>, hiq: T -> bool, i: nat)
    requires i < |frames|
    ensures var s := Batches(frames, hiq)[i];
            && s.frame == frames[i] && (s.high <==> hiq(frames[i]))
            && (!s.mdata <==> i % 6 == 5 || i == |frames| - 1)
  {
    var n := Min(HIQ_XMIT_COUNTS, |frames|);
    if i >= n {
      BatchesAt(frames[n..], hiq, i - n);
      assert Batches(frames, hiq)[i] == Batches(frames[n..], hiq)[i - n];
      assert n == 6 && (i - 6) % 6 == i % 6;
    } else {
      assert Batches(frames, hiq)[i] == Batch(frames[..n], hiq)[i];
    }
  }

  /** The frames alone. */
  function Frames<T>(s: seq<Sent<T>>): (fs: seq<T>)
    ensures |fs| == |s|
  {
    seq(|s|, i requires 0 <= i < |s| => s[i].frame)
  }

  lemma FramesAppend<T>(s: seq<Sent<T>>, t: seq<Sent<T>>)
    ensures Frames(s + t) == Frames(s) + Frames(t)
  {
  }

  lemma FramesBatch<T>(frames: seq<T>, hiq: T -> bool)
    ensures Frames(Batch(frames, hiq)) == frames
  {
  }

  /** What can happen: a group frame to send, the work behind a beacon, a station that
      goes to sleep or wakes up. */
  datatype Event<T> = Offer(frame: T) | Beacon | Sleeps(aid: nat) | Wakes(aid: nat)

  function Offered<T>(es: seq<Event<T>>): seq<T> {
    if es == [] then []
    else Offered(es[..|es|-1]) + if es[|es|-1].Offer? then [es[|es|-1].frame] else []
  }

  class Ap<T> {
    const wifiSpec: bool
    const hasBmcSta: bool
    const hiqFilter: T -> bool
    var sleepQ: seq<T>
    var sleepqLen: int
    /** Bit 0 of `tim_bitmap` and of `sta_dz_bitmap`, and the other bits of the latter. */
    var timBit0: bool
    var dzBit0: bool
    var asleep: set<nat>
    /** Frames handed to the hardware, and how often the TIM element was refreshed. */
    var sent: seq<Sent<T>>
    var timUpdates: nat

    /** The length is right, and while frames wait both bits say so. */
    predicate Valid()
      reads this
    {
      sleepqLen == |sleepQ| && (sleepQ != [] ==> timBit0 && dzBit0)
    }

    constructor (wifiSpec: bool, hasBmcSta: bool, hiqFilter: T -> bool)
      ensures Valid() && sleepQ == [] && sent == [] && this.hiqFilter == hiqFilter
      ensures this.wifiSpec == wifiSpec && this.hasBmcSta == hasBmcSta && timUpdates == 0
    {
      this.wifiSpec, this.hasBmcSta, this.hiqFilter := wifiSpec, hasBmcSta, hiqFilter;
      sleepQ, sleepqLen, timBit0, dzBit0, asleep, sent, timUpdates := [], 0, false, false, {}, [], 0;
    }

    /** The group branch of `xmitframe_enqueue_for_sleeping_sta`; a frame that is not
        queued goes to the hardware at once. */
    method Offer(frame: T)
      requires Valid()
      modifies this
      ensures Valid() && asleep == old(asleep)
      ensures old(dzBit0) || asleep != {} ==>
        && sleepQ == old(sleepQ) + [frame] && sent == old(sent) && timBit0 && dzBit0
        && timUpdates == old(timUpdates) + if old(timBit0) then 0 else 1
      ensures !old(dzBit0) && asleep == {} ==>
        && sleepQ == old(sleepQ) == [] && Frames(sent) == Frames(old(sent)) + [frame]
        && sent == old(sent) + [Sent(frame, false, false)]
        && timUpdates == old(timUpdates) && timBit0 == old(timBit0) && dzBit0 == old(dzBit0)
    {
      if dzBit0 || asleep != {} {
        sleepQ := sleepQ + [frame];
        sleepqLen := sleepqLen + 1;
        var updateTim := !timBit0;
        timBit0, dzBit0 := true, true;
        if updateTim { timUpdates := timUpdates + 1; }
      } else {
        FramesAppend(sent, [Sent(frame, false, false)]);
        sent := sent + [Sent(frame, false, false)];
      }
    }

    /** `stop_sta_xmit`. */
    method Sleep(aid: nat)
      requires Valid()
      modifies this`asleep
      ensures Valid() && asleep == old(asleep) + {aid}
    {
      asleep := asleep + {aid};
    }

    /** The end of `wakeup_sta_to_xmit`: when nobody sleeps any more everything goes out. */
    method Wake(aid: nat)
      requires Valid()
      modifies this
      ensures Valid() && asleep == old(asleep) - {aid}
      ensures !hasBmcSta || asleep != {} ==>
        && sleepQ == old(sleepQ) && sent == old(sent) && timBit0 == old(timBit0) && dzBit0 == old(dzBit0)
        && timUpdates == old(timUpdates)
      ensures hasBmcSta && asleep == {} ==>
        && timUpdates == old(timUpdates) + if old(timBit0) then 1 else 0
      ensures hasBmcSta && asleep == {} ==>
        && sleepQ == [] && Frames(sent) == Frames(old(sent)) + old(sleepQ) && !timBit0 && !dzBit0
        && forall i | |old(sent)| <= i < |sent| :: !sent[i].high && (sent[i].mdata <==> i < |sent| - 1)
    {
      asleep := asleep - {aid};
      if hasBmcSta && asleep == {} {
        Flush();
        if timBit0 { timUpdates := timUpdates + 1; }
        timBit0, dzBit0 := false, false;
      }
    }

    /** The loop of `wakeup_sta_to_xmit` over the sleeping queue. */
    method Flush()
      requires Valid()
      modifies this`sleepQ, this`sleepqLen, this`sent
      ensures Valid() && sleepQ == [] && |sent| == |old(sent)| + |old(sleepQ)|
      ensures Frames(sent) == Frames(old(sent)) + old(sleepQ)
      ensures forall i | |old(sent)| <= i < |sent| :: !sent[i].high && (sent[i].mdata <==> i < |sent| - 1)
    {
      ghost var q, before := sleepQ, sent;
      assert q[..0] == [];
      while sleepQ != []
        invariant Valid() && |sleepQ| <= |q| && sleepQ == q[|q| - |sleepQ|..]
        invariant |sent| == |before| + |q| - |sleepQ|
        invariant Frames(sent) == Frames(before) + q[..|q| - |sleepQ|]
        invariant forall i | |before| <= i < |sent| :: !sent[i].high && (sent[i].mdata <==> i < |before| + |q| - 1)
        decreases |sleepQ|
      {
        ghost var done := |q| - |sleepQ|;
        var frame := sleepQ[0];
        sleepQ := sleepQ[1..];
        sleepqLen := sleepqLen - 1;
        FramesAppend(sent, [Sent(frame, sleepqLen > 0, false)]);
        sent := sent + [Sent(frame, sleepqLen > 0, false)];
        assert q[..done + 1] == q[..done] + [frame];
      }
    }

    /** The loop over the sleeping queue: at most six frames. */
    method SendBatch()
      requires Valid() && sleepqLen > 0
      modifies this`sleepQ, this`sleepqLen, this`sent
      ensures var n := Min(HIQ_XMIT_COUNTS, |old(sleepQ)|);
        Valid() && sleepQ == old(sleepQ)[n..] && sent == old(sent) + Batch(old(sleepQ)[..n], hiqFilter)
    {
      ghost var q, before, n := sleepQ, sent, Min(HIQ_XMIT_COUNTS, |sleepQ|);
      var txCounts := 0;
      while sleepQ != [] && txCounts != HIQ_XMIT_COUNTS
        invariant Valid() && txCounts <= n && sleepQ == q[txCounts..]
        invariant sent == before + Batch(q[..n], hiqFilter)[..txCounts]
        decreases |sleepQ|
      {
        var frame := sleepQ[0];
        sleepQ := sleepQ[1..];
        sleepqLen := sleepqLen - 1;
        txCounts := txCounts + 1;
        var mdata := sleepqLen > 0;
        if txCounts == HIQ_XMIT_COUNTS {
          mdata := false;
        }
        sent := sent + [Sent(frame, mdata, hiqFilter(frame))];
        assert Batch(q[..n], hiqFilter)[txCounts - 1] == Sent(frame, mdata, hiqFilter(frame));
      }
    }

    /** `rtw_ap_bmc_frames_hdl`. */
    method BmcFramesHdl()
      requires Valid()
      modifies this
      ensures Valid()
      ensures wifiSpec && hasBmcSta && old(sleepQ) != [] ==>
        var n := Min(HIQ_XMIT_COUNTS, |old(sleepQ)|);
        && sleepQ == old(sleepQ)[n..] && sent == old(sent) + Batch(old(sleepQ)[..n], hiqFilter)
        && timBit0 && dzBit0 == old(dzBit0) && timUpdates == old(timUpdates) + 1
      ensures wifiSpec && hasBmcSta && old(sleepQ) == [] ==>
        sleepQ == [] && sent == old(sent) && !timBit0 && !dzBit0
            && timUpdates == old(timUpdates) + if old(timBit0) then 1 else 0
      ensures asleep == old(asleep) && Frames(sent) + sleepQ == Frames(old(sent)) + old(sleepQ)
      ensures !wifiSpec || !hasBmcSta ==>
        sleepQ == old(sleepQ) && sent == old(sent) && timBit0 == old(timBit0) && dzBit0 == old(dzBit0)
            && timUpdates == old(timUpdates)
    {
      if !wifiSpec || !hasBmcSta {
        return;
      }
      if timBit0 && sleepqLen > 0 {
        timUpdates := timUpdates + 1;
        ghost var q, before := sleepQ, sent;
        SendBatch();
        BatchOut(before, q, hiqFilter);
      } else if sleepqLen == 0 {
        var updateTim := timBit0;
        timBit0, dzBit0 := false, false;
        if updateTim {
          timUpdates := timUpdates + 1;
        }
      }
    }
  }

  /** A batch takes frames from the queue to the hardware and changes nothing else. */
  lemma BatchOut<T>(before: seq<Sent<T>>, q: seq<T>, hiq: T -> bool)
    ensures var n := Min(HIQ_XMIT_COUNTS, |q|);
            Frames(before + Batch(q[..n], hiq)) + q[n..] == Frames(before) + q
  {
    var n := Min(HIQ_XMIT_COUNTS, |q|);
    FramesAppend(before, Batch(q[..n], hiq));
    FramesBatch(q[..n], hiq);
    assert q == q[..n] + q[n..];
  }

  /** Whatever the order of frames, beacons, stations falling asleep and waking up: the
      frames given to the hardware and then those still waiting are exactly the frames
      offered, once each and in the order they came. */
  method Run<T>(ap: Ap<T>, es: seq<Event<T>>)
    requires ap.Valid() && ap.sent == [] && ap.sleepQ == []
    modifies ap
    ensures ap.Valid() && Frames(ap.sent) + ap.sleepQ == Offered(es)
  {
    assert es[..0] == [];
    for i := 0 to |es|
      invariant ap.Valid() && Frames(ap.sent) + ap.sleepQ == Offered(es[..i])
    {
      assert es[..i + 1][..i] == es[..i];
      match es[i]
      case Offer(f) => ap.Offer(f);
      case Beacon => ap.BmcFramesHdl();
      case Sleeps(aid) => ap.Sleep(aid);
      case Wakes(aid) => ap.Wake(aid);
    }
    assert es[..|es|] == es;
  }

  /** With nothing in between, n waiting frames take ceil(n / 6) calls; they go out once
      each and in order, and only the call after that clears bit 0 of the bitmap. */
  method DrainAll<T>(ap: Ap<T>) returns (calls: nat)
    requires ap.Valid() && ap.wifiSpec && ap.hasBmcSta
    modifies ap
    ensures calls == (|old(ap.sleepQ)| + HIQ_XMIT_COUNTS - 1) / HIQ_XMIT_COUNTS
    ensures ap.sleepQ == [] && ap.sent == old(ap.sent) + Batches(old(ap.sleepQ), ap.hiqFilter)
    ensures !ap.timBit0 && !ap.dzBit0
    ensures ap.timUpdates == old(ap.timUpdates) + calls + if old(ap.timBit0) then 1 else 0
  {
    ghost var q, before := ap.sleepQ, ap.sent;
    calls := 0;
    assert q[0..] == q;
    while ap.sleepQ != []
      invariant ap.Valid() && ap.timBit0 == old(ap.timBit0) && ap.timUpdates == old(ap.timUpdates) + calls
      invariant Min(HIQ_XMIT_COUNTS * calls, |q|) <= |q| && ap.sleepQ == q[Min(HIQ_XMIT_COUNTS * calls, |q|)..]
      invariant HIQ_XMIT_COUNTS * calls < |q| + HIQ_XMIT_COUNTS
      invariant ap.sent + Batches(ap.sleepQ, ap.hiqFilter) == before + Batches(q, ap.hiqFilter)
      decreases |ap.sleepQ|
    {
      ap.BmcFramesHdl();
      calls := calls + 1;
    }
    ap.BmcFramesHdl();
  }
}
