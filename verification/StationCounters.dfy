/** BSS-wide counters against per-station marks (rtw_ap.c): what stations joining,
    re-joining and leaving do to the counters, to the HT operation mode and to the
    beacon. */
module StationCounters {

  /** What a station can be counted for; each has a mark in `sta_info` and a counter
      in `mlme_priv`. */
  datatype Mark = NoShortPreamble | NonErp | NoShortSlot | NoHt | NoGreenfield | Ht20Mhz

  /** The capabilities a station shows when it joins. */
  datatype Caps = Caps(shortPreamble: bool, nonErp: bool, shortSlot: bool, ht: bool, greenfield: bool, width40: bool)

  /** The parts of the beacon that `update_beacon` brings up to date: all of it, the ERP
      element, or the two HT elements. */
  datatype Refresh = Refresh(whole: bool, erpInfo: bool, ht: bool)

  // ----- the HT operation mode

  /** `ht_op_mode` by its disjoint bit fields: bits 0 and 1, bit 2, bit 4, and the bits
      nothing here writes. */
  datatype HtMode = HtMode(opMode: OpMode, nonGfPresent: bool, nonHtPresent: bool, rest: nat)

  datatype OpMode = Pure | MayBeLegacyStas | Ht20MhzStaAssoced | Mixed

  /** The fields say exactly what the counters say; the four modes are those of the HT
      protection field, section 8.4.2.59 of IEEE Std 802.11-2012. */
  predicate Describes(mode: HtMode, noGf: bool, noHt: bool, narrow: bool, olbc: bool) {
    && (mode.nonGfPresent <==> noGf) && (mode.nonHtPresent <==> noHt || olbc)
    && (mode.opMode == Mixed <==> noHt)
    && (mode.opMode == Ht20MhzStaAssoced <==> !noHt && narrow)
    && (mode.opMode == MayBeLegacyStas <==> !noHt && !narrow && olbc)
    && (mode.opMode == Pure <==> !noHt && !narrow && !olbc)
  }

  /** The body of `rtw_ht_operation_update`: the new mode and how many fields changed. */
  method UpdatedMode(was: HtMode, noGf: bool, noHt: bool, narrow: bool, olbc: bool) returns (mode: HtMode, changes: nat)
    ensures Describes(mode, noGf, noHt, narrow, olbc) && mode.rest == was.rest
    ensures mode.opMode == Mixed <==> noHt
    ensures mode.opMode == Ht20MhzStaAssoced <==> !noHt && narrow
    ensures mode.opMode == MayBeLegacyStas <==> !noHt && !narrow && olbc
    ensures mode.opMode == Pure <==> !noHt && !narrow && !olbc
    ensures changes == 0 <==> mode == was
  {
    mode, changes := was, 0;
    if !mode.nonGfPresent && noGf {
      mode, changes := mode.(nonGfPresent := true), changes + 1;
    } else if mode.nonGfPresent && !noGf {
      mode, changes := mode.(nonGfPresent := false), changes + 1;
    }
    if !mode.nonHtPresent && (noHt || olbc) {
      mode, changes := mode.(nonHtPresent := true), changes + 1;
    } else if mode.nonHtPresent && !noHt && !olbc {
      mode, changes := mode.(nonHtPresent := false), changes + 1;
    }
    var newMode :=
      if noHt then Mixed else if narrow then Ht20MhzStaAssoced else if olbc then MayBeLegacyStas else Pure;
    if mode.opMode != newMode {
      mode, changes := mode.(opMode := newMode), changes + 1;
    }
  }

  // ----- marks

  /** The marks of a station that had was and joins with caps: all follow what it shows
      but greenfield and width, which an HT station only ever gains. */
  ghost function After(was: set<Mark>, c: Caps): (now: set<Mark>)
    ensures NoShortPreamble in now <==> !c.shortPreamble
    ensures NonErp in now <==> c.nonErp
    ensures NoShortSlot in now <==> !c.shortSlot
    ensures NoHt in now <==> !c.ht
    ensures NoGreenfield in now <==> NoGreenfield in was || (c.ht && !c.greenfield)
    ensures Ht20Mhz in now <==> Ht20Mhz in was || (c.ht && !c.width40)
  {
    (if c.shortPreamble then {} else {NoShortPreamble}) + (if c.nonErp then {NonErp} else {})
    + (if c.shortSlot then {} else {NoShortSlot}) + (if c.ht then {} else {NoHt})
    + (if c.ht && !c.greenfield then {NoGreenfield} else {}) + (if c.ht && !c.width40 then {Ht20Mhz} else {})
    + was * {NoGreenfield, Ht20Mhz}
  }

  /** Sets with the same six members are the same set. */
  lemma SameMarks(a: set<Mark>, b: set<Mark>)
    requires (NoShortPreamble in a <==> NoShortPreamble in b) && (NonErp in a <==> NonErp in b)
            && (NoShortSlot in a <==> NoShortSlot in b)
    requires (NoHt in a <==> NoHt in b) && (NoGreenfield in a <==> NoGreenfield in b)
            && (Ht20Mhz in a <==> Ht20Mhz in b)
    ensures a == b
  {
    forall m: Mark ensures m in a <==> m in b {
      match m case NoShortPreamble => case NonErp => case NoShortSlot =>
              case NoHt => case NoGreenfield => case Ht20Mhz =>
    }
  }

  datatype Event = Join(who: nat, caps: Caps) | Leave(who: nat) | Overlap(olbcHt: bool)

  /** The marks of one station after a run, from its own joins and leaves alone. */
  ghost function History(events: seq<Event>, who: nat): set<Mark> {
    if events == [] then {}
    else
      var before := History(events[..|events|-1], who);
      match events[|events|-1]
      case Join(w, c) => if w == who then After(before, c) else before
      case Leave(w) => if w == who then {} else before
      case Overlap(_) => before
  }

  /** Whether a legacy network was last seen nearby. */
  ghost function OlbcAfter(events: seq<Event>): bool {
    if events == [] then false
    else if events[|events|-1].Overlap? then events[|events|-1].olbcHt
    else OlbcAfter(events[..|events|-1])
  }

  /** And whether one had been when a station last joined or left. */
  ghost function OlbcUsed(events: seq<Event>): bool {
    if events == [] then false
    else if events[|events|-1].Overlap? then OlbcUsed(events[..|events|-1])
    else OlbcAfter(events[..|events|-1])
  }

  /** The stations below n whose history leaves them with the mark. */
  ghost function MarkedAfter(events: seq<Event>, n: nat, m: Mark): set<nat> {
    set who: nat | who < n && m in History(events, who)
  }

  // ----- counting

  class Station {
    var marks: set<Mark>

    constructor ()
      ensures marks == {}
    {
      marks := {};
    }
  }

  ghost function With(assoc: set<Station>, m: Mark): set<Station>
    reads assoc`marks
  {
    set s | s in assoc && m in s.marks
  }

  class Ap {
    var num: map<Mark, nat>
    var htOpMode: HtMode
    var olbcHt: bool
    const htOption: bool
    const supWidth: bool
    /** The wireless mode is beyond 802.11b. */
    const above11b: bool
    ghost var assoc: set<Station>

    /** Each counter is the number of associated stations with its mark. */
    ghost predicate Counted()
      reads this, assoc`marks
    {
      forall m: Mark :: m in num && num[m] == |With(assoc, m)|
    }

    /** The operation mode is what the counters and olbc_ht say. */
    predicate ModeRight()
      requires forall m: Mark :: m in num
      reads this
    {
      htOption ==> Describes(htOpMode, num[NoGreenfield] > 0, num[NoHt] > 0, supWidth && num[Ht20Mhz] > 0, olbcHt)
    }

    /** `start_ap_mode`. */
    constructor (htOption: bool, supWidth: bool, above11b: bool)
      ensures Counted() && ModeRight() && assoc == {} && forall m: Mark :: num[m] == 0
      ensures htOpMode == HtMode(Pure, false, false, 0) && !olbcHt
      ensures this.htOption == htOption && this.supWidth == supWidth
    {
      num := map[NoShortPreamble := 0, NonErp := 0, NoShortSlot := 0, NoHt := 0, NoGreenfield := 0, Ht20Mhz := 0];
      htOpMode, olbcHt := HtMode(Pure, false, false, 0), false;
      this.htOption, this.supWidth, this.above11b := htOption, supWidth, above11b;
      assoc := {};
      new;
      forall m: Mark ensures m in num && num[m] == 0 && With({}, m) == {} {
        match m case NoShortPreamble => case NonErp => case NoShortSlot =>
                case NoHt => case NoGreenfield => case Ht20Mhz =>
      }
    }

    /** A mark the station lacks is set and counted; the result says whether it is the
        first one. */
    method SetMark(s: Station, m: Mark) returns (first: bool)
      requires Counted() && s in assoc
      modifies this`num, s`marks
      ensures Counted() && s.marks == old(s.marks) + {m}
      ensures forall g: Mark | g != m :: num[g] == old(num[g])
      ensures num[m] >= old(num[m]) && first == (old(num[m]) == 0 && num[m] > 0)
    {
      ghost var was := With(assoc, m);
      first := false;
      if m !in s.marks {
        s.marks := s.marks + {m};
        num := num[m := num[m] + 1];
        first := num[m] == 1;
        assert With(assoc, m) == was + {s};
        assert forall g: Mark | g != m :: With(assoc, g) == old(With(assoc, g));
      }
    }

    /** A mark the station has is cleared and no longer counted; the result says
        whether it was the last one. The counter cannot run below zero. */
    method ClearMark(s: Station, m: Mark) returns (last: bool)
      requires Counted() && s in assoc
      modifies this`num, s`marks
      ensures Counted() && s.marks == old(s.marks) - {m}
      ensures forall g: Mark | g != m :: num[g] == old(num[g])
      ensures num[m] <= old(num[m]) && last == (old(num[m]) > 0 && num[m] == 0)
    {
      ghost var was := With(assoc, m);
      last := false;
      if m in s.marks {
        assert s in was;
        s.marks := s.marks - {m};
        num := num[m := num[m] - 1];
        last := num[m] == 0;
        assert With(assoc, m) == was - {s};
        assert forall g: Mark | g != m :: With(assoc, g) == old(With(assoc, g));
      }
    }

    /** `rtw_ht_operation_update`. */
    method HtOperationUpdate() returns (changes: nat)
      requires Counted()
      modifies this`htOpMode
      ensures ModeRight() && htOpMode.rest == old(htOpMode).rest
      ensures htOption ==>
                && (htOpMode.opMode == Mixed <==> num[NoHt] > 0)
                && (htOpMode.opMode == Ht20MhzStaAssoced <==> num[NoHt] == 0 && supWidth && num[Ht20Mhz] > 0)
                && (htOpMode.opMode == MayBeLegacyStas <==>
                      num[NoHt] == 0 && !(supWidth && num[Ht20Mhz] > 0) && olbcHt)
      ensures changes == 0 <==> htOpMode == old(htOpMode)
      ensures !htOption ==> changes == 0
    {
      if !htOption {
        return 0;
      }
      htOpMode, changes :=
        UpdatedMode(htOpMode, num[NoGreenfield] > 0, num[NoHt] > 0, supWidth && num[Ht20Mhz] > 0, olbcHt);
    }

    /** Sets or clears a mark as the station shows it; the result says whether the first
        such station came or the last one went. */
    method Follow(s: Station, m: Mark, shown: bool) returns (turned: bool)
      requires Counted() && s in assoc
      modifies this`num, s`marks
      ensures Counted() && s.marks == (if shown then old(s.marks) + {m} else old(s.marks) - {m})
      ensures forall g: Mark | g != m :: num[g] == old(num[g])
      ensures turned == ((old(num[m]) > 0) != (num[m] > 0))
    {
      if shown {
        turned := SetMark(s, m);
      } else {
        turned := ClearMark(s, m);
      }
    }

    /** A counter went from none to some or from some to none. */
    twostate predicate Turned(m: Mark)
      requires old(forall g: Mark :: g in num) && forall g: Mark :: g in num
      reads this
    {
      (old(num[m]) > 0) != (num[m] > 0)
    }

    /** The three marks both calls treat alike, and the beacon parts they refresh. */
    method FollowLegacy(s: Station, noShortPreamble: bool, nonErp: bool, noShortSlot: bool) returns (r: Refresh)
      requires Counted() && s in assoc
      modifies this`num, s`marks
      ensures Counted() && forall g: Mark | g != NoShortPreamble && g != NonErp && g != NoShortSlot ::
                num[g] == old(num[g])
      ensures NoShortPreamble in s.marks <==> noShortPreamble
      ensures NonErp in s.marks <==> nonErp
      ensures NoShortSlot in s.marks <==> noShortSlot
      ensures forall g: Mark | g != NoShortPreamble && g != NonErp && g != NoShortSlot ::
                g in s.marks <==> g in old(s.marks)
      ensures r.whole == (above11b && (Turned(NoShortPreamble) || Turned(NoShortSlot)))
      ensures r.erpInfo == Turned(NonErp) && !r.ht
    {
      hide With;
      var preamble := Follow(s, NoShortPreamble, noShortPreamble);
      var erp := Follow(s, NonErp, nonErp);
      var slot := Follow(s, NoShortSlot, noShortSlot);
      r := Refresh(above11b && (preamble || slot), erp, false);
    }

    /** The HT marks of a joining station. */
    method FollowHt(s: Station, c: Caps)
      requires Counted() && s in assoc
      modifies this`num, s`marks
      ensures Counted() && forall g: Mark | g != NoHt && g != NoGreenfield && g != Ht20Mhz ::
                num[g] == old(num[g]) && (g in s.marks <==> g in old(s.marks))
      ensures NoHt in s.marks <==> !c.ht
      ensures NoGreenfield in s.marks <==> NoGreenfield in old(s.marks) || (c.ht && !c.greenfield)
      ensures Ht20Mhz in s.marks <==> Ht20Mhz in old(s.marks) || (c.ht && !c.width40)
    {
      hide Counted, With;
      if c.ht {
        var _ := ClearMark(s, NoHt);
        if !c.greenfield {
          var _ := SetMark(s, NoGreenfield);
        }
        if !c.width40 {
          var _ := SetMark(s, Ht20Mhz);
        }
      } else {
        var _ := SetMark(s, NoHt);
      }
    }

    /** The HT marks of a leaving station. */
    method ClearHt(s: Station)
      requires Counted() && s in assoc
      modifies this`num, s`marks
      ensures Counted() && forall g: Mark | g != NoHt && g != NoGreenfield && g != Ht20Mhz ::
                num[g] == old(num[g]) && (g in s.marks <==> g in old(s.marks))
      ensures NoHt !in s.marks && NoGreenfield !in s.marks && Ht20Mhz !in s.marks
    {
      hide Counted, With;
      var _ := ClearMark(s, NoGreenfield);
      var _ := ClearMark(s, NoHt);
      var _ := ClearMark(s, Ht20Mhz);
    }

    /** `bss_cap_update_on_sta_join`. */
    method StaJoin(s: Station, c: Caps) returns (r: Refresh, beaconUpdated: bool)
      requires Counted() && (s in assoc || s.marks == {})
      modifies this`num, this`htOpMode, this`assoc, s`marks
      ensures Counted() && ModeRight() && assoc == old(assoc) + {s} && (!htOption ==> htOpMode == old(htOpMode))
      ensures htOption ==>
                && (htOpMode.opMode == Mixed <==> num[NoHt] > 0)
                && (htOpMode.opMode == Ht20MhzStaAssoced <==> num[NoHt] == 0 && supWidth && num[Ht20Mhz] > 0)
                && (htOpMode.opMode == MayBeLegacyStas <==>
                      num[NoHt] == 0 && !(supWidth && num[Ht20Mhz] > 0) && olbcHt)
      ensures s.marks == After(old(s.marks), c)
      ensures r.whole == (above11b && (Turned(NoShortPreamble) || Turned(NoShortSlot))) && r.erpInfo == Turned(NonErp)
      ensures r.ht == (htOpMode != old(htOpMode)) && beaconUpdated == (r.whole || r.erpInfo)
    {
      hide With, After;
      Associate(s);
      r := FollowLegacy(s, !c.shortPreamble, c.nonErp, !c.shortSlot);
      FollowHt(s, c);
      SameMarks(s.marks, After(old(s.marks), c));
      var changes := HtOperationUpdate();
      r := r.(ht := changes > 0);
      beaconUpdated := r.whole || r.erpInfo;
    }

    /** `bss_cap_update_on_sta_leave`. */
    method StaLeave(s: Station) returns (r: Refresh, beaconUpdated: bool)
      requires Counted() && (s in assoc || s.marks == {})
      modifies this`num, this`htOpMode, this`assoc, s`marks
      ensures Counted() && ModeRight() && assoc == old(assoc) - {s} && (!htOption ==> htOpMode == old(htOpMode))
      ensures s.marks == {}
      ensures htOption ==>
                && (htOpMode.opMode == Mixed <==> num[NoHt] > 0)
                && (htOpMode.opMode == Ht20MhzStaAssoced <==> num[NoHt] == 0 && supWidth && num[Ht20Mhz] > 0)
                && (htOpMode.opMode == MayBeLegacyStas <==>
                      num[NoHt] == 0 && !(supWidth && num[Ht20Mhz] > 0) && olbcHt)
      ensures r.whole == (above11b && (Turned(NoShortPreamble) || Turned(NoShortSlot))) && r.erpInfo == Turned(NonErp)
      ensures r.ht == (htOpMode != old(htOpMode)) && beaconUpdated == (r.whole || r.erpInfo)
    {
      hide With;
      Associate(s);
      r := FollowLegacy(s, false, false, false);
      ClearHt(s);
      SameMarks(s.marks, {});
      var changes := HtOperationUpdate();
      r := r.(ht := changes > 0);
      beaconUpdated := r.whole || r.erpInfo;
      Dissociate(s);
    }

    /** A station without marks takes part in the counting without changing it. */
    ghost method Associate(s: Station)
      requires Counted() && (s in assoc || s.marks == {})
      modifies this`assoc
      ensures Counted() && assoc == old(assoc) + {s}
    {
      assoc := assoc + {s};
      assert forall m: Mark :: With(assoc, m) == old(With(assoc, m));
    }

    ghost method Dissociate(s: Station)
      requires Counted() && s.marks == {}
      modifies this`assoc
      ensures Counted() && assoc == old(assoc) - {s}
    {
      assoc := assoc - {s};
      assert forall m: Mark :: With(assoc, m) == old(With(assoc, m));
    }
  }

  /** The stations a set of numbers stands for are as many as the numbers. */
  lemma {:induction false} ImageSize(stations: seq<Station>, numbers: set<nat>, image: set<Station>)
    requires forall i, j | 0 <= i < j < |stations| :: stations[i] != stations[j]
    requires forall i | i in numbers :: i < |stations| && stations[i] in image
    requires forall s | s in image :: exists i: nat :: i in numbers && i < |stations| && stations[i] == s
    ensures |image| == |numbers|
    decreases numbers
  {
    if numbers == {} {
      assert image == {};
    } else {
      var i :| i in numbers;
      var s := stations[i];
      ImageSize(stations, numbers - {i}, image - {s});
      assert |image - {s}| == |image| - 1 && |numbers - {i}| == |numbers| - 1;
    }
  }

  method NewStations(n: nat) returns (stations: seq<Station>)
    ensures |stations| == n && forall k: nat | k < n :: fresh(stations[k]) && stations[k].marks == {}
    ensures forall i, j | 0 <= i < j < n :: stations[i] != stations[j]
  {
    stations := [];
    for i := 0 to n
      invariant |stations| == i && forall k: nat | k < i :: fresh(stations[k]) && stations[k].marks == {}
      invariant forall k, j | 0 <= k < j < i :: stations[k] != stations[j]
    {
      var s := new Station();
      stations := stations + [s];
    }
  }

  /** The mode is the one of the counters and of the networks seen up to the last join or leave. */
  ghost predicate ModeAfter(ap: Ap, events: seq<Event>)
    requires forall m: Mark :: m in ap.num
    reads ap
  {
    if ap.htOption then Describes(ap.htOpMode, ap.num[NoGreenfield] > 0, ap.num[NoHt] > 0,
                                  ap.supWidth && ap.num[Ht20Mhz] > 0, OlbcUsed(events))
    else ap.htOpMode == HtMode(Pure, false, false, 0)
  }

  /** The stations and the access point are where the events have led them. */
  ghost predicate Led(ap: Ap, stations: seq<Station>, events: seq<Event>)
    reads ap, stations, ap.assoc`marks
  {
    && (forall k: nat | k < |stations| :: stations[k].marks == History(events, k))
    && (forall k: nat | k < |stations| :: stations[k] in ap.assoc || stations[k].marks == {})
    && (forall s | s in ap.assoc :: s in stations)
    && ap.Counted() && ap.olbcHt == OlbcAfter(events) && ModeAfter(ap, events)
  }

  method Happen(ap: Ap, stations: seq<Station>, ghost before: seq<Event>, e: Event)
    requires Led(ap, stations, before) && (e.Overlap? || e.who < |stations|)
    requires forall i, j | 0 <= i < j < |stations| :: stations[i] != stations[j]
    modifies ap, stations
    ensures Led(ap, stations, before + [e])
  {
    hide With, After, Describes;
    assert (before + [e])[..|before|] == before;
    match e
    case Join(who, caps) => var _, _ := ap.StaJoin(stations[who], caps);
    case Leave(who) => var _, _ := ap.StaLeave(stations[who]);
    case Overlap(olbcHt) => ap.olbcHt := olbcHt;
  }

  method Drive(events: seq<Event>, n: nat, htOption: bool, supWidth: bool, above11b: bool)
    returns (ap: Ap, ghost stations: seq<Station>)
    requires forall e | e in events :: e.Overlap? || e.who < n
    ensures ap.htOption == htOption && ap.supWidth == supWidth && Led(ap, stations, events)
    ensures |stations| == n && forall i, j | 0 <= i < j < n :: stations[i] != stations[j]
  {
    hide With, Describes;
    ap := new Ap(htOption, supWidth, above11b);
    var all := NewStations(n);
    for i := 0 to |events|
      invariant fresh(ap) && ap.htOption == htOption && ap.supWidth == supWidth
      invariant (forall k: nat | k < n :: fresh(all[k])) && Led(ap, all, events[..i])
    {
      assert events[i] in events && events[..i + 1] == events[..i] + [events[i]];
      Happen(ap, all, events[..i], events[i]);
    }
    assert events[..|events|] == events;
    stations := all;
  }

  /** Any run of joins, re-joins with other capabilities and leaves from start-up, with
      legacy networks nearby coming and going: every counter is the number of stations
      whose own history leaves them with its mark, and the operation mode is the one these
      stations and the networks seen up to the last join or leave call for. */
  method Run(events: seq<Event>, n: nat, htOption: bool, supWidth: bool, above11b: bool) returns (ap: Ap)
    requires forall e | e in events :: e.Overlap? || e.who < n
    ensures forall m: Mark :: m in ap.num && ap.num[m] == |MarkedAfter(events, n, m)|
    ensures htOption ==> var noHt, narrow := MarkedAfter(events, n, NoHt) != {},
                supWidth && MarkedAfter(events, n, Ht20Mhz) != {};
              && (ap.htOpMode.opMode == Mixed <==> noHt)
              && (ap.htOpMode.opMode == Ht20MhzStaAssoced <==> !noHt && narrow)
              && (ap.htOpMode.opMode == MayBeLegacyStas <==> !noHt && !narrow && OlbcUsed(events))
              && (ap.htOpMode.nonGfPresent <==> MarkedAfter(events, n, NoGreenfield) != {})
              && (ap.htOpMode.nonHtPresent <==> noHt || OlbcUsed(events))
    ensures !htOption ==> ap.htOpMode == HtMode(Pure, false, false, 0)
  {
    hide With, History, OlbcUsed, Describes;
    ghost var stations: seq<Station>;
    ap, stations := Drive(events, n, htOption, supWidth, above11b);
    forall m: Mark ensures m in ap.num && ap.num[m] == |MarkedAfter(events, n, m)| {
      CountIs(ap, stations, events, m);
    }
    if htOption {
      ModeOfSets(ap.htOpMode, MarkedAfter(events, n, NoGreenfield), MarkedAfter(events, n, NoHt),
          MarkedAfter(events, n, Ht20Mhz), supWidth, OlbcUsed(events));
    }
  }

  lemma ModeOfSets(mode: HtMode, noGf: set<nat>, noHt: set<nat>, narrow: set<nat>, supWidth: bool, olbc: bool)
    requires Describes(mode, |noGf| > 0, |noHt| > 0, supWidth && |narrow| > 0, olbc)
    ensures mode.opMode == Mixed <==> noHt != {}
    ensures mode.opMode == Ht20MhzStaAssoced <==> noHt == {} && supWidth && narrow != {}
    ensures mode.opMode == MayBeLegacyStas <==> noHt == {} && !(supWidth && narrow != {}) && olbc
    ensures mode.nonGfPresent <==> noGf != {}
    ensures mode.nonHtPresent <==> noHt != {} || olbc
  {
  }

  lemma CountIs(ap: Ap, stations: seq<Station>, events: seq<Event>, m: Mark)
    requires ap.Counted() && forall i, j | 0 <= i < j < |stations| :: stations[i] != stations[j]
    requires forall k: nat | k < |stations| ::
               stations[k].marks == History(events, k) && (stations[k] in ap.assoc || stations[k].marks == {})
    requires forall s | s in ap.assoc :: s in stations
    ensures m in ap.num && ap.num[m] == |MarkedAfter(events, |stations|, m)|
  {
    ImageSize(stations, MarkedAfter(events, |stations|, m), With(ap.assoc, m));
  }
}
