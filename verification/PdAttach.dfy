/** The attach phase. A port that waits for something always has a timer running or
    work queued, so it is never left waiting for nothing; and it only attaches after
    the CC lines have read the same for `N_DEBOUNCE_CNT` repetitions, except for a
    sink that has just been through a role trial. */
module PdAttach {
  import opened PdPort
  import opened PdFrame
  import PdAttained
  import PdHardReset
  import PdSourceCaps

  predicate Polls(s: ConnState) {
    s.AttachWaitSink? || s.AttachWaitSource? || s.AttachTrySrc? || s.AttachTrySnk?
  }

  /** Something will make the work function run this state's handler again. */
  predicate Awake(c: Chip) {
    && (Polls(c.connState) ==> c.timerMux != T_DISABLED)
    && (c.connState.AttachedSource? ==> c.workContinue.On?)
    && (c.connState.AttachedSink? ==> c.workContinue.On? || c.timerState != T_DISABLED)
    && (!PolicyExit(c.connState) ==> c.isCcConnected.Off?)
  }

  // ----- what the port has read from the CC lines

  type Reading = (int, int)

  /** The handlers that read the CC lines to debounce them. */
  predicate Reads(c: Chip, e: Env, v: Events) {
    match c.connState
    case Unattached | AttachTrySrc | AttachTrySnk => v.cc && c.ccState != NO_CC
    case AttachWaitSource => v.timerMux
    case AttachWaitSink =>
      && v.timerMux
      && !(e.vbus && (c.tryRoleComplete.On? || (c.role.RoleDrp? && c.tryRole.RoleDfp?)))
    case _ => false
  }

  function NewReadings(c: Chip, e: Env): seq<Reading> {
    var v := Observed(c, e);
    if v.Any() && Reads(Settle(Collect(c, e), e, v), e, v) then [(e.cc1, e.cc2)] else []
  }

  /** All readings of a run, the latest last. */
  function Readings(c: Chip, ts: seq<Turn>): seq<Reading> {
    if ts == [] then [] else
      var before, t := ts[..|ts|-1], ts[|ts|-1];
      Readings(c, before) + if t.Own? then NewReadings(Run(c, before), t.env) else []
  }

  /** The last n readings all gave r. */
  ghost predicate Steady(rs: seq<Reading>, n: int, r: Reading) {
    n <= |rs| && forall k :: 0 <= k && |rs| - n <= k < |rs| ==> rs[k] == r
  }

  predicate OneLine(r: Reading, level: int) {
    (r.0 == level && r.1 == CC_OPEN) || (r.1 == level && r.0 == CC_OPEN)
  }

  const STEADY := N_DEBOUNCE_CNT + 2

  ghost predicate Debounced(c: Chip, rs: seq<Reading>) {
    && (c.connState.AttachWaitSink? || c.connState.AttachWaitSource? ==>
          0 <= c.debounceCnt <= N_DEBOUNCE_CNT && Steady(rs, c.debounceCnt + 1, (c.cc1, c.cc2)))
    && (c.connState.AttachedSource? ==> Steady(rs, STEADY, (c.cc1, c.cc2)) && OneLine((c.cc1, c.cc2), CC_RD))
    && (c.connState.AttachedSink? ==>
          c.tryRoleComplete.On? || (Steady(rs, STEADY, (c.cc1, c.cc2)) && OneLine((c.cc1, c.cc2), CC_RP)))
  }

  // ----- one run of the work function

  /** What interrupts, timers and the detach check leave of an attach state. */
  ghost predicate Untouched(c: Chip, d: Chip) {
    || PolicyExit(d.connState) || (d.connState.Unattached? && d.isCcConnected.Off?)
    || (d.connState == c.connState && d.cc1 == c.cc1 && d.cc2 == c.cc2 && d.debounceCnt == c.debounceCnt
        && d.tryRoleComplete == c.tryRoleComplete && d.isCcConnected == c.isCcConnected)
  }

  /** The timers, work flag and connection an attach state relies on. */
  ghost predicate Relies(c: Chip, d: Chip) {
    PolicyExit(d.connState)
    || (d.connState == c.connState && d.cc1 == c.cc1 && d.cc2 == c.cc2 && d.debounceCnt == c.debounceCnt
        && d.tryRoleComplete == c.tryRoleComplete && d.isCcConnected == c.isCcConnected
        && d.timerMux == c.timerMux && d.timerState == c.timerState && d.workContinue == c.workContinue)
  }

  lemma AlertedRelies(c: Chip, e: Env)
    ensures Relies(c, Alerted(c, e))
    ensures PolicyExit(c.connState) ==> PolicyExit(Alerted(c, e).connState)
    ensures Alerted(c, e).wire.owed == c.wire.owed && Alerted(c, e).wire.sinkAttach == c.wire.sinkAttach
  {
  }

  lemma AlertRelies(c: Chip, e: Env)
    requires PdHardReset.Idle(c)
    ensures Relies(c, TcpcAlert(c, e)) && PdHardReset.Idle(TcpcAlert(c, e))
  {
    hide Alerted;
    AlertedRelies(c, e);
  }

  lemma CollectUntouched(c: Chip, e: Env)
    requires PdHardReset.Idle(c)
    ensures Untouched(c, Collect(c, e))
    ensures PdHardReset.Idle(Collect(c, e))
    ensures var m, v := Collect(c, e), Observed(c, e);
            PolicyExit(m.connState) || m.connState.Unattached? || (
              && (v.work <==> c.workContinue.On?)
              && m.timerMux == (if v.timerMux then T_DISABLED else c.timerMux)
              && m.timerState == (if v.timerState then T_DISABLED else c.timerState))
  {
    hide TcpcAlert;
    AlertRelies(Expire(c, e), e);
  }

  lemma SettleUntouched(c: Chip, e: Env, v: Events)
    ensures Untouched(c, Settle(c, e, v))
    ensures var d := Settle(c, e, v);
            PolicyExit(d.connState) || d.connState.Unattached?
            || (d.timerMux == c.timerMux && d.timerState == c.timerState)
  {
    assert Untouched(c, TryDetach(c, e));
  }

  /** Between the interrupts and the handler: the timer may have just run out. */
  predicate AwakeMid(c: Chip, v: Events) {
    && (Polls(c.connState) ==> c.timerMux != T_DISABLED || v.timerMux)
    && (!PolicyExit(c.connState) ==> c.isCcConnected.Off?)
  }

  ghost predicate AttachInv(c: Chip, rs: seq<Reading>) { Awake(c) && Debounced(c, rs) }

  ghost predicate AttachMid(c: Chip, v: Events, rs: seq<Reading>) { AwakeMid(c, v) && Debounced(c, rs) }

  function Taken(c: Chip, e: Env, v: Events): seq<Reading> {
    if Reads(c, e, v) then [(e.cc1, e.cc2)] else []
  }

  lemma SteadyMore(rs: seq<Reading>, n: int, r: Reading)
    requires n >= 0 && Steady(rs, n, r)
    ensures Steady(rs + [r], n + 1, r)
  {
  }

  lemma WaitSinkKeeps(c: Chip, e: Env, v: Events, rs: seq<Reading>)
    requires c.connState.AttachWaitSink? && AttachMid(c, v, rs)
    ensures AttachInv(HandleAttachWaitSink(c, e, v), rs + Taken(c, e, v))
  {
    SteadyMore(rs, c.debounceCnt + 1, (c.cc1, c.cc2));
    assert rs + [] == rs;
  }

  lemma WaitSourceKeeps(c: Chip, e: Env, v: Events, rs: seq<Reading>)
    requires c.connState.AttachWaitSource? && AttachMid(c, v, rs)
    ensures AttachInv(HandleAttachWaitSource(c, e, v), rs + Taken(c, e, v))
  {
    SteadyMore(rs, c.debounceCnt + 1, (c.cc1, c.cc2));
    assert rs + [] == rs;
  }

  lemma UnattachedKeeps(c: Chip, e: Env, v: Events, rs: seq<Reading>)
    requires c.connState.Unattached? && AttachMid(c, v, rs)
    ensures AttachInv(HandleUnattached(c, e, v), rs + Taken(c, e, v))
  {
  }

  lemma AttachedKeeps(c: Chip, e: Env, v: Events, rs: seq<Reading>)
    requires AttachMid(c, v, rs)
    ensures c.connState.AttachedSource? ==> AttachInv(HandleAttachedSource(c), rs + Taken(c, e, v))
    ensures c.connState.AttachedSink? ==> AttachInv(HandleAttachedSink(c, e, v), rs + Taken(c, e, v))
    ensures AttachInv(SetStateUnattached(c), rs + Taken(c, e, v))
  {
    assert rs + [] == rs;
  }

  lemma TryAttachKeeps(c: Chip, e: Env, v: Events, rs: seq<Reading>)
    requires AttachMid(c, v, rs)
    ensures c.connState.AttachTrySrc? ==> AttachInv(HandleTryAttach(c, e, v, RoleDfp), rs + Taken(c, e, v))
    ensures c.connState.AttachTrySnk? ==> AttachInv(HandleTryAttach(c, e, v, RoleUfp), rs + Taken(c, e, v))
  {
    assert rs + [] == rs;
  }

  lemma DispatchKeeps(c: Chip, e: Env, v: Events, rs: seq<Reading>)
    requires AttachMid(c, v, rs)
    ensures AttachInv(Dispatch(c, e, v), rs + Taken(c, e, v))
  {
    hide AttachMid;
    if !AttachHandled(c.connState) {
      hide Dispatch;
      DispatchFramed(c, e, v);
    } else if c.connState.AttachWaitSink? {
      WaitSinkKeeps(c, e, v, rs);
    } else if c.connState.AttachWaitSource? {
      WaitSourceKeeps(c, e, v, rs);
    } else if c.connState.Unattached? {
      UnattachedKeeps(c, e, v, rs);
    } else {
      AttachedKeeps(c, e, v, rs);
      TryAttachKeeps(c, e, v, rs);
    }
  }

  lemma StepKeeps(c: Chip, e: Env, rs: seq<Reading>)
    requires PdHardReset.Idle(c) && AttachInv(c, rs)
    ensures AttachInv(Step(c, e), rs + NewReadings(c, e))
  {
    hide Collect, Observed, Settle, Dispatch, Reads, PdHardReset.Idle;
    var m, v := Collect(c, e), Observed(c, e);
    CollectUntouched(c, e);
    if v.Any() {
      SettleUntouched(m, e, v);
      DispatchKeeps(Settle(m, e, v), e, v, rs);
    } else {
      assert rs + [] == rs;
    }
  }

  /** In every run from probe a port in an attach state is awake, and the readings it
      debounces, or attached after, are the last ones it took. */
  lemma {:induction false} NeverAsleep(role: Role, tryRole: Role, ts: seq<Turn>)
    ensures var c := Probe(role, tryRole); AttachInv(Run(c, ts), Readings(c, ts))
  {
    var c := Probe(role, tryRole);
    if ts != [] {
      var before, t := ts[..|ts|-1], ts[|ts|-1];
      NeverAsleep(role, tryRole, before);
      PdHardReset.HardResetsBounded(role, tryRole, before);
      hide Step, NewReadings;
      match t
      case Own(e) => StepKeeps(Run(c, before), e, Readings(c, before));
      case Foreign => assert Readings(c, before) + [] == Readings(c, before);
    }
  }

  /** However the lines bounce: a port found attached as a source has read `CC_RD` on one
      line and nothing on the other 35 times in a row, and so has a sink with `CC_RP`
      unless it came from a role trial. */
  lemma AttachIsDebounced(role: Role, tryRole: Role, ts: seq<Turn>)
    ensures var c := Probe(role, tryRole);
            var d, rs := Run(c, ts), Readings(c, ts);
            && (d.connState.AttachedSource? ==>
                  |rs| >= 35 && OneLine(rs[|rs|-1], CC_RD) && Steady(rs, 35, rs[|rs|-1]))
            && (d.connState.AttachedSink? && d.tryRoleComplete.Off? ==>
                  |rs| >= 35 && OneLine(rs[|rs|-1], CC_RP) && Steady(rs, 35, rs[|rs|-1]))
  {
    hide Run, Readings;
    NeverAsleep(role, tryRole, ts);
  }

  // ----- the way out of the wait

  /** The debounce timer runs out, the lines read r, and nothing else happens. */
  predicate Ticks(e: Env, r: Reading) {
    PdSourceCaps.Deaf(e) && e.muxTimer && (e.cc1, e.cc2) == r
  }

  ghost predicate Waits(c: Chip, r: Reading, n: int) {
    && c.connState.AttachWaitSource? && c.timerMux != T_DISABLED && c.isCcConnected.Off?
    && (c.cc1, c.cc2) == r && c.debounceCnt == n
  }

  /** Where a wait ends, as the steady reading and the role configuration say. */
  function Outcome(c: Chip, r: Reading): ConnState {
    if !OneLine(r, CC_RD) then Unattached
    else if c.role.RoleDrp? && c.tryRole.RoleUfp? && c.tryRoleComplete.Off? then AttachTrySnk
    else AttachedSource
  }

  ghost predicate SameRoles(c: Chip, d: Chip) {
    d.role == c.role && d.tryRole == c.tryRole && d.tryRoleComplete == c.tryRoleComplete
  }

  lemma WaitTick(c: Chip, e: Env, r: Reading, n: int)
    requires Waits(c, r, n) && Ticks(e, r)
    ensures n < N_DEBOUNCE_CNT ==> Waits(Step(c, e), r, n + 1) && SameRoles(c, Step(c, e))
    ensures n == N_DEBOUNCE_CNT ==> Step(c, e).connState == Outcome(c, r)
  {
    var m, v := Collect(c, e), Observed(c, e);
    assert TcpcAlert(Expire(c, e), e) == AlertRetryFail(Expire(c, e), e);
    assert v.timerMux && !v.rx && Settle(m, e, v) == m;
    hide Collect, Observed, Settle;
  }

  lemma {:induction false} WaitTicks(c: Chip, es: seq<Env>, r: Reading)
    requires Waits(c, r, 0) && |es| <= N_DEBOUNCE_CNT && forall e | e in es :: Ticks(e, r)
    ensures Waits(PdAttained.Play(c, es), r, |es|) && SameRoles(c, PdAttained.Play(c, es))
  {
    hide Step, Waits, Ticks;
    if es != [] {
      assert es[|es|-1] in es;
      WaitTicks(c, es[..|es|-1], r);
      WaitTick(PdAttained.Play(c, es[..|es|-1]), es[|es|-1], r, |es| - 1);
    }
  }

  /** Lines that stay still end the wait at the 34th repetition, and how it ends is
      decided by the reading alone, but for the trial of a port that prefers to be a sink. */
  lemma WaitEnds(c: Chip, es: seq<Env>, r: Reading)
    requires Waits(c, r, 0) && |es| == 34 && forall e | e in es :: Ticks(e, r)
    ensures forall k :: 0 <= k < 34 ==> PdAttained.Play(c, es[..k]).connState.AttachWaitSource?
    ensures PdAttained.Play(c, es).connState == Outcome(c, r)
  {
    hide Step, PdAttained.Play, Ticks;
    forall k | 0 <= k < 34
      ensures PdAttained.Play(c, es[..k]).connState.AttachWaitSource?
    {
      WaitTicks(c, es[..k], r);
    }
    WaitTicks(c, es[..33], r);
    WaitTick(PdAttained.Play(c, es[..33]), es[33], r, 33);
    PdAttained.PlayThen(c, es[..33], [es[33]]);
    PdAttained.PlayOne(PdAttained.Play(c, es[..33]), es[33]);
    assert es[..33] + [es[33]] == es;
  }
}
