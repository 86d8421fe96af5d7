/** A source whose every transmission fails and which hears nothing gives up:
    it sends its capabilities exactly `N_CAPS_COUNT` times and is then disabled. */
module PdSourceCaps {
  import opened PdPort

  /** Nothing arrives, no transmission succeeds, and no cable event is seen. */
  predicate Deaf(e: Env) {
    && !e.received && !e.hardReset && !e.txSent && !e.hardSent
    && !e.compChange && !e.vbusChange && !e.toggleDone
  }

  /** Source startup with no timer pending, as `Start` says, and everything the
      port can become from there: capabilities sent so far are told by the
      counter, the state and the sub-state. */
  ghost predicate GivingUp(c: Chip) {
    && c.timerMux == T_DISABLED && c.wire.owed == 0 && c.delayCc.Off?
    && match c.connState
       case SrcStartup => c.timerState == T_DISABLED && c.workContinue.On?
       case SrcSendCaps =>
         && c.timerState == T_DISABLED
         && 0 <= c.capsCounter < N_CAPS_COUNT && c.subState <= 1
         && c.wire.sourceCaps == c.capsCounter + c.subState
         && (c.subState == 0 ==> c.workContinue.On?)
         && (c.subState == 1 ==> c.txState.TxBusy?)
       case SrcDiscovery =>
         && 0 <= c.capsCounter < N_CAPS_COUNT && c.subState <= 1
         && c.wire.sourceCaps == c.capsCounter + 1 - c.subState
         && (c.subState == 0 ==> c.timerState == T_DISABLED && c.workContinue.On?)
         && (c.subState == 1 ==> c.timerState != T_DISABLED)
       case Disabled => c.wire.sourceCaps == N_CAPS_COUNT
       case _ => false
  }

  ghost predicate Start(c: Chip) {
    && c.connState.SrcStartup? && c.timerState == T_DISABLED && c.timerMux == T_DISABLED
    && c.wire.owed == 0 && c.workContinue.On? && c.delayCc.Off?
  }

  /** How far the port still is from giving up. */
  function Distance(c: Chip): int {
    match c.connState
    case SrcStartup => 4 * N_CAPS_COUNT + 4
    case SrcSendCaps => 4 * (N_CAPS_COUNT - c.capsCounter) + 3 - c.subState
    case SrcDiscovery => 4 * (N_CAPS_COUNT - c.capsCounter) + (if c.subState == 0 then 1 else 4)
    case _ => 0
  }

  /** The one thing the port is waiting for happens: its own queued work, the
      failure report of the message it sent, or its timer. */
  predicate Progress(c: Chip, e: Env) {
    match c.connState
    case SrcStartup => true
    case SrcSendCaps => c.subState == 0 || e.retryFail
    case SrcDiscovery => c.subState == 0 || e.stateTimer
    case _ => false
  }

  lemma DeafCollect(c: Chip, e: Env)
    requires GivingUp(c) && Deaf(e)
    ensures var m, v := Collect(c, e), Observed(c, e);
            && !v.rx && !v.timerMux && !v.cc && !v.delayCc
            && v.work == c.workContinue.On? && v.tx == e.retryFail
            && v.timerState == (c.timerState == 0 || (e.stateTimer && c.timerState != T_DISABLED))
            && m.txState == (if e.retryFail then TxFailed else c.txState)
            && m.timerState == (if v.timerState then T_DISABLED else c.timerState)
            && m.timerMux == T_DISABLED && m.wire == c.wire && m.delayCc.Off? && m.workContinue.Off?
            && m.connState == c.connState && m.subState == c.subState && m.capsCounter == c.capsCounter
  {
    assert TcpcAlert(Expire(c, e), e) == AlertRetryFail(Expire(c, e), e);
  }

  lemma StepGivesUp(c: Chip, e: Env)
    requires GivingUp(c) && Deaf(e)
    ensures GivingUp(Step(c, e))
    ensures Distance(Step(c, e)) <= Distance(c)
    ensures Progress(c, e) ==> Distance(Step(c, e)) < Distance(c)
  {
    hide Collect, Observed;
    DeafCollect(c, e);
    var m, v := Collect(c, e), Observed(c, e);
    assert v.Any() ==> Settle(m, e, v) == m;
  }

  predicate DeafTurn(t: Turn) { t.Own? ==> Deaf(t.env) }

  /** Own runs that made progress. */
  ghost function ProgressSteps(c: Chip, ts: seq<Turn>): nat {
    if ts == [] then 0 else
      var before, t := ts[..|ts|-1], ts[|ts|-1];
      ProgressSteps(c, before) + if t.Own? && Progress(Run(c, before), t.env) then 1 else 0
  }

  lemma {:induction false} RunGivesUp(c: Chip, ts: seq<Turn>)
    requires GivingUp(c) && forall t | t in ts :: DeafTurn(t)
    ensures GivingUp(Run(c, ts))
    ensures Distance(Run(c, ts)) + ProgressSteps(c, ts) <= Distance(c)
  {
    if ts != [] {
      var before, t := ts[..|ts|-1], ts[|ts|-1];
      RunGivesUp(c, before);
      assert t in ts;
      hide Step;
      if t.Own? { StepGivesUp(Run(c, before), t.env); }
    }
  }

  /** The source never sends more than `N_CAPS_COUNT` capability messages, and
      once 204 of the things it waited for have happened it is disabled after
      exactly that many, however they are spread among idle runs and whatever
      other ports do. */
  lemma SourceGivesUp(c: Chip, ts: seq<Turn>)
    requires Start(c) && forall t | t in ts :: DeafTurn(t)
    ensures var d := Run(c, ts);
            && (d.connState.SrcStartup? || d.wire.sourceCaps <= N_CAPS_COUNT)
            && (ProgressSteps(c, ts) >= 4 * N_CAPS_COUNT + 4 ==> d.connState.Disabled?)
            && (d.connState.Disabled? ==> d.wire.sourceCaps == N_CAPS_COUNT)
  {
    RunGivesUp(c, ts);
  }
}
