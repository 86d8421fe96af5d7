/** What messages, timers and transmissions make a port do: the exits of the work function,
    in the fields of the port and of the message alone. */
module PdMessages {
  import opened PdPort
  import opened PdAttained

  /** Nothing but messages, timers and transmissions: no reset, and no change on the CC
      lines of a port that is attached. */
  predicate Calm(c: Chip, e: Env) {
    && !e.hardReset && !(e.hardSent && c.wire.owed > 0)
    && (c.isCcConnected.On? ==> c.delayCc.Off? && !e.compChange && !e.vbusChange && !e.toggleDone)
  }

  predicate StateDue(c: Chip, e: Env) { c.timerState == 0 || (e.stateTimer && c.timerState != T_DISABLED) }

  predicate MuxDue(c: Chip, e: Env) { c.timerMux == 0 || (e.muxTimer && c.timerMux != T_DISABLED) }

  predicate CcEvent(c: Chip, e: Env) {
    (e.compChange && !c.ccState.ufp) || (e.vbusChange && c.isCcConnected.On?) || e.toggleDone
  }

  /** How the transmission under way stands. */
  function TxNow(c: Chip, e: Env): Tx {
    if e.retryFail then TxFailed else if e.txSent then TxSuccess else c.txState
  }

  /** The port when a calm run calls the handler of its state. */
  function Gathered(c: Chip, e: Env): Chip {
    c.(txState := TxNow(c, e), ccState := if e.toggleDone then e.toggled else c.ccState,
       timerState := if StateDue(c, e) then T_DISABLED else c.timerState,
       timerMux := if MuxDue(c, e) then T_DISABLED else c.timerMux,
       workContinue := Off, delayCc := Off, wire := c.wire.(heard := if e.received then On else c.wire.heard))
  }

  predicate SoftReset(e: Env) { e.received && e.message.objects == 0 && e.message.kind == 13 }

  lemma CalmCollect(c: Chip, e: Env)
    requires Calm(c, e)
    ensures Collect(c, e) == Gathered(c, e)
  {
    hide TcpcAlert, TxNow;
    CalmAlerted(Expire(c, e), e);
    TxOfFields(Expire(c, e), c, e);
  }

  lemma CalmAlerted(c: Chip, e: Env)
    requires !e.hardReset && !(e.hardSent && c.wire.owed > 0)
    ensures TcpcAlert(c, e)
            == c.(txState := TxNow(c, e), ccState := if e.toggleDone then e.toggled else c.ccState,
                  wire := c.wire.(heard := if e.received then On else c.wire.heard))
  {
  }

  lemma TxOfFields(c: Chip, d: Chip, e: Env)
    requires c.txState == d.txState
    ensures TxNow(c, e) == TxNow(d, e)
  {
  }

  lemma CalmObserved(c: Chip, e: Env)
    requires Calm(c, e)
    ensures var v := Observed(c, e);
            && v.rx == e.received && v.timerState == StateDue(c, e) && v.timerMux == MuxDue(c, e)
            && v.work == c.workContinue.On? && v.tx == (e.txSent || e.retryFail) && !v.reset
            && v.delayCc == c.delayCc.On?
            && (c.isCcConnected.On? ==> !v.cc && !v.delayCc)
            && v.cc == CcEvent(c, e)
  {
    hide TcpcAlert;
    CalmAlert(Expire(c, e), e);
  }

  lemma CalmAlert(c: Chip, e: Env)
    requires !e.hardReset && !(e.hardSent && c.wire.owed > 0)
    ensures var d := TcpcAlert(c, e);
            && d.timerState == c.timerState && d.timerMux == c.timerMux
            && d.workContinue == c.workContinue && d.delayCc == c.delayCc
  {
  }

  predicate Happens(c: Chip, e: Env) {
    || e.received || StateDue(c, e) || MuxDue(c, e) || c.workContinue.On? || e.txSent || e.retryFail
    || c.delayCc.On? || CcEvent(c, e)
  }

  /** A calm run with something to do calls that handler, unless a soft reset came. */
  lemma CalmStep(c: Chip, e: Env)
    requires Calm(c, e)
    requires Happens(c, e)
    ensures var v := Observed(c, e);
            && v.rx == e.received && v.timerState == StateDue(c, e) && v.timerMux == MuxDue(c, e)
            && v.cc == CcEvent(c, e)
            && Step(c, e) == Dispatch(if SoftReset(e) then
                                        SetState(Gathered(c, e), if c.source.On? then SrcSoftrst else SnkSoftrst)
                                      else Gathered(c, e), e, v)
  {
    hide Collect, Observed, Dispatch, TryDetach, Calm;
    CalmCollect(c, e);
    CalmObserved(c, e);
  }

  // ----- messages

  /** A source that has offered its capabilities, or is still offering them, goes on to
      negotiate when it hears a Request, and answers anything else with a soft reset. */
  lemma SourceHears(c: Chip, e: Env)
    requires c.connState.SrcSendCaps? && Calm(c, e) && e.received && !SoftReset(e)
    requires c.subState == 1 ==> !TxNow(c, e).TxFailed?
    ensures var d := Step(c, e);
            if e.message.objects != 0 && e.message.kind == 2 then
              d.connState == if PolicyExit(e.other.connState) then e.other.connState else SrcNegotiateCap
            else d.connState.SrcSendSoftrst? && d.subState == 0 && d.workContinue.On?
  {
    hide Step, Observed, SourceNoResponse;
    CalmStep(c, e);
  }

  /** A sink waiting for capabilities evaluates Source_Capabilities, and ignores everything
      else. */
  lemma SinkHears(c: Chip, e: Env)
    requires c.connState.SnkWaitCaps? && Calm(c, e) && e.received && !SoftReset(e)
    ensures var d := Step(c, e);
            if e.message.objects != 0 && e.message.kind == 1 then
              && d.connState.SnkEvaluateCaps? && d.subState == 0 && d.workContinue.On?
              && d.isPdSupport.On? && d.timerMux == T_DISABLED
            else d == Gathered(c, e)
  {
    hide Step, Observed;
    CalmStep(c, e);
  }

  /** Once its soft reset is out, a port that hears Accept starts over with the capabilities,
      and ignores everything else. */
  lemma AcceptHeard(c: Chip, e: Env, sink: bool)
    requires c.connState == (if sink then SnkSendSoftrst else SrcSendSoftrst) && c.subState > 1
    requires Calm(c, e) && e.received && !SoftReset(e)
    ensures var d := Step(c, e);
            if e.message.objects == 0 && e.message.kind == 3 then
              && d.connState == (if sink then SnkWaitCaps else SrcSendCaps) && d.subState == 0 && d.workContinue.On?
              && d.capsCounter == 0 && (sink ==> d.timerState == 500)
            else d == Gathered(c, e)
  {
    hide Step, Observed;
    CalmStep(c, e);
  }

  /** A soft reset reaches a port in any state: it starts to answer in its own role. */
  lemma SoftResetHeard(c: Chip, e: Env)
    requires Calm(c, e) && SoftReset(e)
    ensures var d := Step(c, e);
            && d.connState == (if c.source.On? then SrcSoftrst else SnkSoftrst)
            && d.subState == 1 && d.txState.TxBusy? && d.wire.hardResets == c.wire.hardResets
            && d.wire.owed == c.wire.owed && d.source == c.source && d.isCcConnected == c.isCcConnected
            && d.timerState == (if StateDue(c, e) then T_DISABLED else c.timerState)
            && d.timerMux == (if MuxDue(c, e) then T_DISABLED else c.timerMux) && d.delayCc.Off?
  {
    hide Step, Observed;
    CalmStep(c, e);
  }

  // ----- transmissions

  /** The answer is out: both ends are back at the capabilities. If it cannot be sent, a
      hard reset is next. */
  lemma SoftResetAnswered(c: Chip, e: Env, sink: bool)
    requires c.connState == (if sink then SnkSoftrst else SrcSoftrst) && c.subState == 1
    requires Calm(c, e) && !SoftReset(e) && (e.txSent || e.retryFail)
    ensures var d := Step(c, e);
            if e.retryFail then d.connState == if sink then SnkSendHardrst else SrcSendHardrst
            else d.connState == (if sink then SnkWaitCaps else SrcSendCaps) && d.capsCounter == 0 && d.subState == 0
                 && (sink ==> d.timerState == 500) && d.workContinue.On?
  {
    hide Step, Observed;
    CalmStep(c, e);
  }

  /** A port's own soft reset: put out, then awaiting Accept for 30 ms, or after a failure a
      hard reset. */
  lemma SoftResetSent(c: Chip, e: Env, sink: bool)
    requires c.connState == (if sink then SnkSendSoftrst else SrcSendSoftrst)
    requires Calm(c, e) && Happens(c, e) && !e.received && !StateDue(c, e) && !MuxDue(c, e)
    ensures var d := Step(c, e);
            && (c.subState == 0 ==> d.connState == c.connState && d.subState == 1 && d.txState.TxBusy?)
            && (c.subState == 1 && e.retryFail ==> d.connState == if sink then SnkSendHardrst else SrcSendHardrst)
            && (c.subState == 1 && e.txSent && !e.retryFail ==>
                  d.connState == c.connState && d.subState == 2 && d.timerState == 30)
  {
    hide Step, Observed;
    CalmStep(c, e);
  }

  /** The capabilities: put out, then awaiting a Request for 30 ms with the counters cleared,
      or after a failure back to discovery. */
  lemma CapsOut(c: Chip, e: Env)
    requires c.connState.SrcSendCaps? && c.subState <= 1
    requires Calm(c, e) && Happens(c, e) && !e.received && !StateDue(c, e) && !MuxDue(c, e)
    ensures var d := Step(c, e);
            && (c.subState == 0 ==> d.connState.SrcSendCaps? && d.subState == 1 && d.txState.TxBusy?
                                    && d.wire.sourceCaps == c.wire.sourceCaps + 1)
            && (c.subState == 1 && e.retryFail ==> d.connState.SrcDiscovery? && d.subState == 0)
            && (c.subState == 1 && e.txSent && !e.retryFail ==>
                  && d.connState.SrcSendCaps? && d.subState == 2 && d.timerState == 30 && d.timerMux == T_DISABLED
                  && d.hardrstCount == 0 && d.capsCounter == 0 && d.isPdSupport.On?)
  {
    hide Step, Observed, AwaitRequest;
    CalmStep(c, e);
  }

  /** A hard reset: put out with 5 ms to go, counted when it is done, given up on failure. */
  lemma HardResetOut(c: Chip, e: Env, sink: bool)
    requires c.connState == (if sink then SnkSendHardrst else SrcSendHardrst)
    requires Calm(c, e) && Happens(c, e) && !SoftReset(e)
    ensures var d := Step(c, e);
            && (c.subState == 0 ==> d.connState == c.connState && d.subState == 1 && d.timerState == 5
                                    && d.wire.hardResets == c.wire.hardResets + 1 && d.wire.owed == c.wire.owed + 1)
            && (c.subState == 1 && !TxNow(c, e).TxIdle? && (StateDue(c, e) || TxNow(c, e).TxSuccess?) ==>
                  && d.connState == (if sink then SnkTransitionDefault else SrcTransitionDefault) && d.subState == 0
                  && d.hardrstCount == c.hardrstCount + 1 && d.wire.hardResets == c.wire.hardResets)
            && (c.subState == 1 && TxNow(c, e).TxFailed? && !StateDue(c, e) ==> d.connState.ErrorRecovery?)
  {
    hide Step, Observed;
    CalmStep(c, e);
  }

  // ----- timers

  /** No Request in time: a hard reset while none has been counted, otherwise the port is
      disabled; and after 5 s of silence what the PD support seen so far says. */
  lemma SourceTimesOut(c: Chip, e: Env)
    requires c.connState.SrcSendCaps? && c.subState > 1 && Calm(c, e) && !e.received
    ensures var d := Step(c, e);
            && (StateDue(c, e) ==> d.connState == if c.hardrstCount <= 0 then SrcSendHardrst else Disabled)
            && (!StateDue(c, e) && MuxDue(c, e) ==> d.connState == NoResponse(c))
            && (!StateDue(c, e) && !MuxDue(c, e) ==> d.connState.SrcSendCaps?)
  {
    hide Step, Observed;
    if Happens(c, e) { CalmStep(c, e); } else { CalmIdle(c, e); }
  }

  function NoResponse(c: Chip): ConnState {
    if c.isPdSupport.Off? then Disabled else if c.hardrstCount > 0 then ErrorRecovery else SrcSendHardrst
  }

  lemma CalmIdle(c: Chip, e: Env)
    requires Calm(c, e) && !Happens(c, e)
    ensures Step(c, e) == Gathered(c, e)
  {
    hide Collect, Observed, Dispatch, TryDetach, Calm;
    CalmCollect(c, e);
    CalmObserved(c, e);
  }

  /** A source whose capabilities nobody took tries again every 100 ms, 49 times. */
  lemma Discovery(c: Chip, e: Env)
    requires c.connState.SrcDiscovery? && Calm(c, e) && Happens(c, e) && !SoftReset(e)
    ensures var d := Step(c, e);
            && (c.subState == 0 ==>
                  && d.capsCounter == c.capsCounter + 1
                  && if c.capsCounter < 49 then d.connState.SrcDiscovery? && d.subState == 1 && d.timerState == 100
                     else d.connState.Disabled?)
            && (c.subState != 0 && StateDue(c, e) ==> d.connState.SrcSendCaps? && d.subState == 0)
            && (c.subState != 0 && !StateDue(c, e) && MuxDue(c, e) ==> d.connState == NoResponse(c))
  {
    hide Step, Observed;
    CalmStep(c, e);
  }

  /** No capabilities in time: the first hard reset, or before it a soft reset if VBUS was
      there at the start; once one has been counted the wait ends for good. */
  lemma SinkTimesOut(c: Chip, e: Env)
    requires c.connState.SnkWaitCaps? && Calm(c, e) && !e.received
    ensures var d, over := Step(c, e), if c.isPdSupport.On? then ErrorRecovery else Disabled;
            && (StateDue(c, e) ==>
                  d.connState == if c.hardrstCount > 0 then over
                                 else if c.vbusBegin.On? then SnkSendSoftrst else SnkSendHardrst)
            && (StateDue(c, e) && c.hardrstCount <= 0 ==> d.vbusBegin.Off?)
            && (!StateDue(c, e) ==> d.connState == if MuxDue(c, e) && c.hardrstCount > 0 then over else SnkWaitCaps)
  {
    hide Step, Observed;
    if Happens(c, e) { CalmStep(c, e); } else { CalmIdle(c, e); }
  }

  /** No Accept in time: a hard reset. */
  lemma AcceptTimesOut(c: Chip, e: Env, sink: bool)
    requires c.connState == (if sink then SnkSendSoftrst else SrcSendSoftrst) && c.subState > 1
    requires Calm(c, e) && !e.received
    ensures Step(c, e).connState ==
            if !StateDue(c, e) then c.connState else if sink then SnkSendHardrst else SrcSendHardrst
  {
    hide Step, Observed;
    if Happens(c, e) { CalmStep(c, e); } else { CalmIdle(c, e); }
  }

  /** After a hard reset a source is off for 830 ms and starts again; a sink waits until VBUS
      is gone and then until it is back, each only so long. */
  lemma DefaultsRestored(c: Chip, e: Env)
    requires Calm(c, e) && Happens(c, e) && !SoftReset(e)
    ensures var d := Step(c, e);
            && (c.connState.SrcTransitionDefault? && c.subState == 0 ==>
                  d.connState == c.connState && d.subState == 1 && d.timerState == 830 && d.isPdConnected.Off?)
            && (c.connState.SrcTransitionDefault? && c.subState != 0 ==>
                  if StateDue(c, e) then d.connState.SrcStartup? && d.timerMux == 5000 else d.connState == c.connState)
            && (c.connState.SnkTransitionDefault? && c.subState == 0 ==> d.timerMux == 5000 && d.isPdConnected.Off?)
            && (c.connState.SnkTransitionDefault? && c.subState <= 1 && !e.vbus ==>
                  d.connState == c.connState && d.subState == 2 && d.timerState == 1275)
            && (c.connState.SnkTransitionDefault? && c.subState == 0 && e.vbus && !StateDue(c, e) ==>
                  d.connState == c.connState && d.subState == 1 && d.timerState == 685)
            && (c.connState.SnkTransitionDefault? && c.subState == 1 && e.vbus ==>
                  d.connState == if StateDue(c, e) then SnkStartup else c.connState)
            && (c.connState.SnkTransitionDefault? && c.subState > 1 ==>
                  d.connState == if e.vbus || StateDue(c, e) then SnkStartup else c.connState)
  {
    hide Step, Observed;
    CalmStep(c, e);
  }

  /** The states that only lead on. */
  lemma LeadsOn(c: Chip, e: Env)
    requires Calm(c, e) && Happens(c, e) && !SoftReset(e)
    ensures var d := Step(c, e);
            && (c.connState.SrcStartup? ==> d.connState.SrcSendCaps? && d.subState == 0 && d.capsCounter == 0)
            && (c.connState.SnkStartup? ==> d.connState.SnkDiscovery? && d.subState == 0 && d.capsCounter == 0)
            && (c.connState.SnkDiscovery? ==> d.connState.SnkWaitCaps? && d.subState == 0 && d.timerState == 500)
            && (c.connState.SrcStartup? || c.connState.SnkStartup? ==> d.isPdConnected.Off? && d.workContinue.On?)
            && (c.connState.ErrorRecovery? ==> d.connState.Unattached? && d.isCcConnected.Off? && d.source.Off?)
            && (c.connState.Disabled? ==> d.connState.Disabled?)
  {
    hide Step, Observed;
    CalmStep(c, e);
  }
}
