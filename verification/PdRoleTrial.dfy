/** A dual-role port does not ping-pong between its roles: between two entries
    to `Unattached` it starts at most two role trials. */
module PdRoleTrial {
  import opened PdPort
  import opened PdFrame

  predicate AttachPhase(s: ConnState) {
    s.Unattached? || s.AttachWaitSink? || s.AttachWaitSource? || s.AttachedSource? || s.AttachedSink?
  }

  /** What every reachable port satisfies: at most two trials, at most one while
      none is known to be complete, and a first unfinished trial never shares a
      moment with a state that could start another from scratch. */
  ghost predicate TrialInv(c: Chip) {
    && c.wire.trials <= 2
    && (c.tryRoleComplete.Off? ==> c.wire.trials <= 1)
    && (c.tryRoleComplete.Off? && c.wire.trials == 1 ==> !AttachPhase(c.connState))
    && (c.connState.Unattached? ==> c.wire.trials == 0 && c.tryRoleComplete.Off?)
  }

  /** Steps that start no trial, end none, and do not enter an attach state. */
  ghost predicate Neutral(c: Chip, d: Chip) {
    && d.tryRoleComplete == c.tryRoleComplete && d.wire.trials == c.wire.trials
    && (d.connState == c.connState || PolicyExit(d.connState))
  }

  lemma AlertNeutral(c: Chip, e: Env)
    ensures Neutral(c, MuxAlert(TcpcAlert(c, e)))
  {
    assert Neutral(c, AlertHardReset(AlertTx(AlertToggle(c, e), e), e));
    assert Neutral(c, Alerted(c, e));
  }

  lemma AttachHandlersKeepTrials(c: Chip, e: Env, v: Events)
    requires TrialInv(c)
    ensures c.connState.AttachWaitSink? ==> TrialInv(HandleAttachWaitSink(c, e, v))
    ensures c.connState.AttachWaitSource? ==> TrialInv(HandleAttachWaitSource(c, e, v))
    ensures c.connState.AttachedSink? ==> TrialInv(HandleAttachedSink(c, e, v))
    ensures c.connState.AttachTrySrc? ==> TrialInv(HandleTryAttach(c, e, v, RoleDfp))
    ensures c.connState.AttachTrySnk? ==> TrialInv(HandleTryAttach(c, e, v, RoleUfp))
  {
  }

  lemma DispatchKeepsTrials(c: Chip, e: Env, v: Events)
    requires TrialInv(c)
    ensures TrialInv(Dispatch(c, e, v))
  {
    if AttachHandled(c.connState) {
      AttachHandlersKeepTrials(c, e, v);
    } else {
      DispatchFramed(c, e, v);
      hide Dispatch;
    }
  }

  lemma SettleKeepsTrials(c: Chip, e: Env, v: Events)
    requires TrialInv(c)
    ensures TrialInv(Settle(c, e, v))
  {
    assert TrialInv(TryDetach(c, e));
  }

  lemma StepKeepsTrials(c: Chip, e: Env)
    requires TrialInv(c)
    ensures TrialInv(Step(c, e))
  {
    AlertNeutral(Expire(c, e), e);
    var m := Collect(c, e);
    assert Neutral(c, m);
    SettleKeepsTrials(m, e, Observed(c, e));
    DispatchKeepsTrials(Settle(m, e, Observed(c, e)), e, Observed(c, e));
  }

  /** Over every run from probe, whatever the partner, the cable and other ports do. */
  lemma {:induction false} AtMostTwoTrials(role: Role, tryRole: Role, ts: seq<Turn>)
    ensures TrialInv(Run(Probe(role, tryRole), ts))
    ensures Run(Probe(role, tryRole), ts).wire.trials <= 2
  {
    if ts != [] {
      var before, t := Run(Probe(role, tryRole), ts[..|ts|-1]), ts[|ts|-1];
      AtMostTwoTrials(role, tryRole, ts[..|ts|-1]);
      hide Step;
      if t.Own? { StepKeepsTrials(before, t.env); }
    }
  }
}
