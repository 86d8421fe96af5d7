/** What resets, the CC lines and VBUS make a port do, in the fields of the port and of
    the readings alone: how it attaches, how a role trial ends, and how it detaches. */
module PdExits {
  import opened PdPort
  import opened PdMessages

  lemma ResetCollect(c: Chip, e: Env)
    requires e.hardReset && !(e.hardSent && c.wire.owed > 0)
    ensures var g := Gathered(c, e);
            Collect(c, e) == g.(connState := if c.source.On? then SrcTransitionDefault else SnkTransitionDefault,
                                subState := 0, wire := g.wire.(heard := On))
  {
    hide TcpcAlert, TxNow;
    ResetAlerted(Expire(c, e), e);
    TxOfFields(Expire(c, e), c, e);
  }

  lemma ResetAlerted(c: Chip, e: Env)
    requires e.hardReset && !(e.hardSent && c.wire.owed > 0)
    ensures TcpcAlert(c, e)
            == c.(txState := TxNow(c, e), ccState := if e.toggleDone then e.toggled else c.ccState,
                  connState := if c.source.On? then SrcTransitionDefault else SnkTransitionDefault, subState := 0,
                  workContinue := On, wire := c.wire.(heard := On))
  {
  }

  lemma ResetObserved(c: Chip, e: Env)
    requires e.hardReset && !(e.hardSent && c.wire.owed > 0)
    ensures var v := Observed(c, e);
            && v.rx == e.received && v.timerState == StateDue(c, e) && v.timerMux == MuxDue(c, e) && v.reset
            && v.cc == CcEvent(c, e) && v.delayCc == c.delayCc.On?
  {
    hide TcpcAlert;
    AlertedTimers(Expire(c, e), e);
  }

  lemma AlertedTimers(c: Chip, e: Env)
    requires !(e.hardSent && c.wire.owed > 0)
    ensures var d := TcpcAlert(c, e);
            d.timerState == c.timerState && d.timerMux == c.timerMux && d.delayCc == c.delayCc
  {
  }

  /** A hard reset received: the port restores its defaults in its own role, whatever
      state it was in, and begins to do so in the same run. */
  lemma HardResetHeard(c: Chip, e: Env)
    requires e.hardReset && !(e.hardSent && c.wire.owed > 0) && !SoftReset(e)
    requires c.isCcConnected.On? ==> c.delayCc.Off? && !CcEvent(c, e)
    ensures var d := Step(c, e);
            && d.isPdConnected.Off? && d.hardrstCount == c.hardrstCount
            && (c.source.On? ==> d.connState.SrcTransitionDefault? && d.subState == 1 && d.timerState == 830)
            && (c.source.Off? ==> d.timerMux == 5000)
            && (c.source.Off? && !e.vbus ==>
                  d.connState.SnkTransitionDefault? && d.subState == 2 && d.timerState == 1275)
            && (c.source.Off? && e.vbus && !StateDue(c, e) ==>
                  d.connState.SnkTransitionDefault? && d.subState == 1 && d.timerState == 685)
            && (c.source.Off? && e.vbus && StateDue(c, e) ==> d.connState.SnkStartup?)
  {
    hide TryDetach, Collect, Observed;
    ResetCollect(c, e);
    ResetObserved(c, e);
  }

  lemma SentCollect(c: Chip, e: Env)
    requires e.hardSent && c.wire.owed > 0 && !e.hardReset
    ensures var g, m := Gathered(c, e), Collect(c, e);
            && m.hardrstCount == c.hardrstCount && m.isCcConnected == c.isCcConnected && m.source == c.source
            && (c.retry.Off? ==> m.retry.On? && m.subState == 0 && m.txState == g.txState
                                 && m.connState == if c.source.On? then SrcTransitionDefault else SnkTransitionDefault)
            && (c.retry.On? ==> m.retry.Off? && m.connState == c.connState && m.subState == c.subState
                                && m.txState.TxSuccess?)
            && m.wire.owed == c.wire.owed - 1
  {
  }

  lemma SentObserved(c: Chip, e: Env)
    requires e.hardSent && c.wire.owed > 0 && !e.hardReset
    ensures var v := Observed(c, e);
            && v.rx == e.received && v.cc == CcEvent(c, e) && v.delayCc == c.delayCc.On?
            && (c.retry.Off? ==> v.work) && (c.retry.On? ==> v.tx)
  {
  }

  /** The chip reports a hard reset sent. With the shared flag clear the port restores its
      defaults as if it had received one, and its counter stays; with the flag set a port
      that was sending it counts it first. Either way the flag flips. */
  lemma HardSentRaised(c: Chip, e: Env)
    requires e.hardSent && c.wire.owed > 0 && !e.hardReset && !SoftReset(e)
    requires c.isCcConnected.On? ==> c.delayCc.Off? && !CcEvent(c, e)
    ensures var d := Step(c, e);
            && (c.retry.Off? ==>
                  && d.retry.On? && d.hardrstCount == c.hardrstCount && d.isPdConnected.Off?
                  && (c.source.On? ==> d.connState.SrcTransitionDefault? && d.subState == 1 && d.timerState == 830)
                  && (c.source.Off? && !e.vbus ==> d.connState.SnkTransitionDefault? && d.timerState == 1275))
            && (c.retry.On? && c.connState.SrcSendHardrst? && c.subState == 1 ==>
                  d.retry.Off? && d.connState.SrcTransitionDefault? && d.hardrstCount == c.hardrstCount + 1)
            && (c.retry.On? && c.connState.SnkSendHardrst? && c.subState == 1 ==>
                  d.retry.Off? && d.connState.SnkTransitionDefault? && d.hardrstCount == c.hardrstCount + 1)
  {
    hide TryDetach, Collect, Observed;
    SentCollect(c, e);
    SentObserved(c, e);
  }

  /** A port after probe: nothing attached, no timer set, nothing to do. */
  lemma Probed(role: Role, tryRole: Role)
    ensures var c := Probe(role, tryRole);
            && c.connState.Unattached? && c.subState == 0 && c.workContinue.Off? && c.delayCc.Off?
            && c.timerState == 0xffff && c.timerMux == 0xffff && c.hardrstCount == 0 && c.capsCounter == 0
            && c.isCcConnected.Off? && c.isPdConnected.Off? && c.isPdSupport.Off? && c.source.Off? && c.dfp.Off?
            && c.role == role && c.tryRole == tryRole && c.tryRoleComplete.Off? && c.ccState == NO_CC
  {
  }

  // ----- detaching

  /** Nothing but a change on the CC lines or of VBUS, and timers. */
  predicate LinesChange(c: Chip, e: Env) {
    && !e.hardReset && !(e.hardSent && c.wire.owed > 0) && !e.received
    && (CcEvent(c, e) || c.delayCc.On?)
  }

  /** The toggle result as the run stores it before it looks at the lines. */
  function CcNow(c: Chip, e: Env): CcState { if e.toggleDone then e.toggled else c.ccState }

  /** A sink is gone when VBUS is, unless it waits for VBUS to come back; another port when
      the line it was found on reads open, unless it is in the middle of a swap or reset. */
  predicate Gone(c: Chip, e: Env) {
    var now := CcNow(c, e);
    if now.ufp && c.connState !in {SnkTransitionDefault, SrcPrsSourceOff, SnkPrsSendSwap, SnkPrsAssertRp,
                                   SnkPrsSourceOn, SnkPrsTransitionToOff}
    then !e.vbusAtDetach
    else
      && c.connState !in {SrcTransitionDefault, SrcPrsSourceOff, SnkPrsSourceOn}
      && (if now.cc2 then e.cc2 else e.cc1) == 0
  }

  lemma GoneDetaches(c: Chip, e: Env)
    ensures var d := TryDetach(Gathered(c, e), e);
            if Gone(c, e) then d == SetStateUnattached(Gathered(c, e))
            else d == Gathered(c, e) || (d == Gathered(c, e).(delayCc := On) && c.connState in
                   {SrcTransitionDefault, SrcPrsSourceOff, SnkPrsSourceOn})
  {
  }

  lemma LinesCollect(c: Chip, e: Env)
    requires LinesChange(c, e)
    ensures Collect(c, e) == Gathered(c, e)
    ensures var v := Observed(c, e);
            && !v.rx && v.timerState == StateDue(c, e) && v.timerMux == MuxDue(c, e)
            && v.cc == CcEvent(c, e) && v.delayCc == c.delayCc.On?
  {
    AlertedTimers(Expire(c, e), e);
  }

  lemma LinesSettle(c: Chip, e: Env)
    requires c.isCcConnected.On? && LinesChange(c, e)
    ensures Step(c, e) == Dispatch(TryDetach(Gathered(c, e), e), e, Observed(c, e))
  {
    hide TryDetach, Collect, Observed, Dispatch;
    LinesCollect(c, e);
  }

  lemma CleanStays(c: Chip, e: Env, v: Events)
    ensures var d := Dispatch(SetStateUnattached(c), e, v);
            && d.connState.Unattached? && d.isCcConnected.Off? && d.isPdConnected.Off? && d.isPdSupport.Off?
            && d.source.Off? && d.dfp.Off? && d.tryRoleComplete.Off? && d.ccState == NO_CC
            && d.wire.owed == 0 && d.wire.trials == 0
  {
  }

  /** An attached port that is gone starts over: unattached, nothing connected, no role, no
      trial behind it and nothing owed. A port that is not gone keeps its state as far as
      the lines go, and its handler runs. */
  lemma Detaches(c: Chip, e: Env)
    requires c.isCcConnected.On? && LinesChange(c, e)
    ensures var d := Step(c, e);
            Gone(c, e) ==>
              && d.connState.Unattached? && d.isCcConnected.Off? && d.isPdConnected.Off? && d.isPdSupport.Off?
              && d.source.Off? && d.dfp.Off? && d.tryRoleComplete.Off? && d.ccState == NO_CC
              && d.wire.owed == 0 && d.wire.trials == 0
    ensures var v := Observed(c, e);
            !Gone(c, e) ==> Step(c, e) == Dispatch(Gathered(c, e), e, v)
                            || Step(c, e) == Dispatch(Gathered(c, e).(delayCc := On), e, v)
  {
    hide TryDetach, Observed, Dispatch, Gone, LinesChange, Step, Gathered;
    LinesSettle(c, e);
    GoneDetaches(c, e);
    CleanStays(Gathered(c, e), e, Observed(c, e));
  }

  // ----- attaching

  /** A toggle result that found something begins a wait, for the role it found, with a
      first reading of the lines. */
  lemma Finds(c: Chip, e: Env)
    requires c.connState.Unattached? && Calm(c, e) && Happens(c, e) && !SoftReset(e)
    ensures var d := Step(c, e);
            if CcEvent(c, e) && CcNow(c, e) != NO_CC then
              && d.connState == (if CcNow(c, e).ufp then AttachWaitSink else AttachWaitSource) && d.subState == 0
              && d.timerMux == 2 && d.debounceCnt == 0 && d.cc1 == e.cc1 && d.cc2 == e.cc2
              && (d.vbusBegin.On? <==> e.vbus) && d.isCcConnected.Off?
            else d.connState.Unattached?
  {
    hide Step, Observed;
    CalmStep(c, e);
  }

  /** How often the same reading has now come. */
  function Count(c: Chip, e: Env): int { if c.cc1 == e.cc1 && c.cc2 == e.cc2 then c.debounceCnt + 1 else 0 }

  /** With VBUS up a sink that prefers to be a source tries that first, and one that has been
      through its trial attaches at once; any other needs 34 equal readings, of Rp on one
      line and nothing on the other. */
  lemma SinkWait(c: Chip, e: Env)
    requires c.connState.AttachWaitSink? && Calm(c, e) && Happens(c, e) && !SoftReset(e)
    ensures var d := Step(c, e);
            var prefers := c.role.RoleDrp? && c.tryRole.RoleDfp? && c.tryRoleComplete.Off?;
            if !MuxDue(c, e) then d.connState.AttachWaitSink? && d.debounceCnt == c.debounceCnt
            else if e.vbus && prefers then d.connState.AttachTrySrc? && d.timerMux == 75
            else if e.vbus && c.tryRoleComplete.On? then d.connState.AttachedSink? && d.timerMux == 480
            else if Count(c, e) <= 33 then
              && d.connState.AttachWaitSink? && d.debounceCnt == Count(c, e) && d.timerMux == 2
              && d.cc1 == e.cc1 && d.cc2 == e.cc2
            else d.connState == if (e.cc1 == 3 && e.cc2 == 0) || (e.cc2 == 3 && e.cc1 == 0) then AttachedSink
                                else Unattached
  {
    hide Step, Observed;
    CalmStep(c, e);
  }

  /** A source needs as many readings of Rd on a line while the other is open, and then tries
      to be a sink first if it prefers that. */
  lemma SourceWait(c: Chip, e: Env)
    requires c.connState.AttachWaitSource? && Calm(c, e) && Happens(c, e) && !SoftReset(e)
    ensures var d := Step(c, e);
            var prefers := c.role.RoleDrp? && c.tryRole.RoleUfp? && c.tryRoleComplete.Off?;
            if !MuxDue(c, e) then d.connState.AttachWaitSource? && d.debounceCnt == c.debounceCnt
            else if Count(c, e) <= 33 then
              && d.connState.AttachWaitSource? && d.debounceCnt == Count(c, e) && d.timerMux == 2
              && d.cc1 == e.cc1 && d.cc2 == e.cc2
            else d.connState == if !((e.cc1 == 2 && e.cc2 == 0) || (e.cc2 == 2 && e.cc1 == 0)) then Unattached
                                else if prefers then AttachTrySnk else AttachedSource
  {
    hide Step, Observed;
    CalmStep(c, e);
  }

  /** A trial that finds the role it tries goes on to wait for it, one that finds the other
      role fails; one that finds nothing in time tries the other role, once. */
  lemma TrialEnds(c: Chip, e: Env, asSource: bool)
    requires c.connState == (if asSource then AttachTrySrc else AttachTrySnk)
    requires Calm(c, e) && Happens(c, e) && !SoftReset(e)
    ensures var d := Step(c, e);
            if CcEvent(c, e) && CcNow(c, e) != NO_CC then
              && d.tryRoleComplete.On?
              && d.connState == if CcNow(c, e).ufp == asSource then ErrorRecovery
                                else if asSource then AttachWaitSource else AttachWaitSink
            else if !MuxDue(c, e) then d.connState == c.connState
            else if c.tryRoleComplete.On? then d.connState.ErrorRecovery?
            else d.tryRoleComplete.On? && d.timerMux == 75
                 && d.connState == if asSource then AttachTrySnk else AttachTrySrc
  {
    hide Step, Observed;
    CalmStep(c, e);
  }

  /** An attached source starts up as source and DFP; an attached sink waits for VBUS, which
      ends in a sink and UFP, or first in the trial it prefers, or in nothing. */
  lemma Attaches(c: Chip, e: Env)
    requires c.connState.AttachedSource? || c.connState.AttachedSink?
    requires Calm(c, e) && Happens(c, e) && !SoftReset(e)
    ensures var d := Step(c, e);
            var prefers := c.role.RoleDrp? && c.tryRole.RoleDfp? && c.tryRoleComplete.Off?;
            && (c.connState.AttachedSource? ==>
                  && d.connState.SrcStartup? && d.isCcConnected.On? && d.source.On? && d.dfp.On?
                  && d.hardrstCount == 0)
            && (c.connState.AttachedSink? && e.vbus && prefers ==> d.connState.AttachTrySrc?)
            && (c.connState.AttachedSink? && e.vbus && !prefers ==>
                  && d.connState.SnkStartup? && d.isCcConnected.On? && d.source.Off? && d.dfp.Off?
                  && d.hardrstCount == 0 && d.tryRoleComplete.On? && d.timerState == T_DISABLED)
            && (c.connState.AttachedSink? && !e.vbus && MuxDue(c, e) ==> d.connState.Unattached?)
            && (c.connState.AttachedSink? && !e.vbus && !MuxDue(c, e) ==>
                  d.connState.AttachedSink? && d.timerState == 2)
  {
    hide Step, Observed;
    CalmStep(c, e);
  }
}
