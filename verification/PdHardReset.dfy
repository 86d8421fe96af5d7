/** A sink whose partner stays silent sends at most two hard resets per attach, and
    one more for every HARDSENT that another port handles meanwhile. The first
    HARDSENT after a reset resynchronises the controller and skips the increment of
    `hardrst_count`, so the counter alone allows two; the flag that remembers this
    is shared by all ports, so each of their interrupts can buy one more. */
module PdHardReset {
  import opened PdPort
  import opened PdFrame

  ghost predicate Silent(c: Chip) { c.wire.sinkAttach.On? && c.wire.heard.Off? }

  predicate SilentState(s: ConnState) {
    || s.SnkStartup? || s.SnkDiscovery? || s.SnkWaitCaps? || s.SnkTransitionDefault?
    || s.SnkSendHardrst? || s.SnkSendSoftrst? || s.Disabled? || s.ErrorRecovery?
  }

  predicate InFlight(c: Chip) { c.connState.SnkSendHardrst? && c.subState > 0 }

  /** How many hard resets can have gone uncounted: one for each interrupt of another
      port, and one more while `retry` says that the next HARDSENT will count. */
  function Uncounted(c: Chip): nat {
    c.wire.foreign + if c.retry.On? then 1 else 0
  }

  /** No hard reset is on its way, and all that were sent went uncounted. */
  predicate Rested(c: Chip) { c.wire.owed == 0 && c.wire.hardResets <= Uncounted(c) }

  predicate Pending(c: Chip) { c.wire.owed == 1 && c.wire.hardResets <= Uncounted(c) + 1 }

  ghost predicate SinkBound(c: Chip) {
    && SilentState(c.connState) && c.source.Off? && c.hardrstCount >= 0
    && c.wire.owed <= 1 && c.wire.hardResets <= 2 + c.wire.foreign
    && (c.hardrstCount > 0 ==> !c.connState.SnkSendHardrst? && !c.connState.SnkSendSoftrst?)
  }

  ghost predicate SinkRest(c: Chip) {
    c.hardrstCount == 0 ==>
      if InFlight(c) then !c.txState.TxIdle? && Pending(c)
      else Rested(c) || (c.connState.ErrorRecovery? && Pending(c))
  }

  /** Between the interrupts and the handler a counted HARDSENT may just have
      been consumed; the handler run that follows counts it. */
  ghost predicate SinkMid(c: Chip) {
    c.hardrstCount == 0 ==>
      if InFlight(c) then !c.txState.TxIdle? && (Pending(c) || (c.wire.owed == 0 && c.txState.TxSuccess?))
      else Rested(c) || c.connState.ErrorRecovery?
  }

  ghost predicate Idle(c: Chip) {
    !PolicyExit(c.connState) ==> c.wire.owed == 0 && c.wire.sinkAttach.Off?
  }

  ghost predicate HardResetInv(c: Chip) {
    Idle(c) && (Silent(c) ==> SinkBound(c) && SinkRest(c))
  }

  ghost predicate HardResetMid(c: Chip) {
    Idle(c) && (Silent(c) ==> SinkBound(c) && SinkMid(c))
  }

  lemma AlertedBound(c: Chip, e: Env)
    requires HardResetInv(c)
    ensures HardResetInv(Alerted(Expire(c, e), e))
    ensures e.received ==> !Silent(Alerted(Expire(c, e), e))
  {
  }

  lemma CollectBound(c: Chip, e: Env)
    requires HardResetInv(c)
    ensures HardResetMid(Collect(c, e))
    ensures !Observed(c, e).Any() ==> HardResetInv(Collect(c, e))
    ensures Observed(c, e).rx ==> !Silent(Collect(c, e))
  {
    hide Expire, Alerted;
    AlertedBound(c, e);
    ExpireSees(c, e);
    AlertedSees(Expire(c, e), e);
    AlertHardSentBound(Alerted(Expire(c, e), e), e);
  }

  lemma AlertHardSentBound(c: Chip, e: Env)
    requires HardResetInv(c)
    ensures HardResetMid(AlertHardSent(c, e))
    ensures Silent(AlertHardSent(c, e)) ==> Silent(c)
  {
  }

  lemma SettleBound(c: Chip, e: Env, v: Events)
    requires HardResetMid(c)
    requires v.rx ==> !Silent(c)
    ensures HardResetMid(Settle(c, e, v))
    ensures v.rx ==> !Silent(Settle(c, e, v))
  {
    assert HardResetMid(TryDetach(c, e));
  }

  lemma SinkHandlersBound(c: Chip, e: Env, v: Events)
    requires HardResetMid(c)
    requires v.rx ==> !Silent(c)
    ensures c.connState.SnkStartup? ==> HardResetInv(HandleSnkStartup(c))
    ensures c.connState.SnkDiscovery? ==> HardResetInv(HandleSnkDiscovery(c))
    ensures c.connState.SnkWaitCaps? ==> HardResetInv(HandleSnkWaitCaps(c, e, v))
    ensures c.connState.SnkTransitionDefault? ==> HardResetInv(HandleSnkTransitionDefault(c, e, v))
  {
  }

  lemma SendHardrstBound(c: Chip, v: Events)
    requires HardResetMid(c)
    ensures c.connState.SnkSendHardrst? ==> HardResetInv(HandleSendHardrst(c, v, true))
  {
  }

  lemma AttachHandlersBound(c: Chip, e: Env, v: Events)
    requires HardResetMid(c)
    ensures HardResetInv(SetStateUnattached(c))
    ensures c.connState.Unattached? ==> HardResetInv(HandleUnattached(c, e, v))
    ensures c.connState.AttachWaitSink? ==> HardResetInv(HandleAttachWaitSink(c, e, v))
    ensures c.connState.AttachWaitSource? ==> HardResetInv(HandleAttachWaitSource(c, e, v))
    ensures c.connState.AttachedSource? ==> HardResetInv(HandleAttachedSource(c))
    ensures c.connState.AttachedSink? ==> HardResetInv(HandleAttachedSink(c, e, v))
    ensures c.connState.AttachTrySrc? ==> HardResetInv(HandleTryAttach(c, e, v, RoleDfp))
    ensures c.connState.AttachTrySnk? ==> HardResetInv(HandleTryAttach(c, e, v, RoleUfp))
  {
  }

  lemma SendSoftrstBound(c: Chip, e: Env, v: Events)
    requires HardResetMid(c) && Silent(c) && c.connState.SnkSendSoftrst? && !v.rx
    ensures HardResetInv(HandleSendSoftrst(c, e, v, true))
  {
    assert HardResetMid(SendSoftrst(c, true));
  }

  lemma DispatchBound(c: Chip, e: Env, v: Events)
    requires HardResetMid(c)
    requires v.rx ==> !Silent(c)
    ensures HardResetInv(Dispatch(c, e, v))
  {
    if AttachHandled(c.connState) {
      AttachHandlersBound(c, e, v);
    } else if !Silent(c) {
      DispatchFramed(c, e, v);
      hide Dispatch;
    } else if c.connState.SnkSendSoftrst? {
      SendSoftrstBound(c, e, v);
    } else if c.connState.SnkSendHardrst? {
      SendHardrstBound(c, v);
    } else {
      SinkHandlersBound(c, e, v);
    }
  }

  lemma StepBound(c: Chip, e: Env)
    requires HardResetInv(c)
    ensures HardResetInv(Step(c, e))
  {
    hide Collect, Observed, Settle, Dispatch;
    var m, v := Collect(c, e), Observed(c, e);
    CollectBound(c, e);
    SettleBound(m, e, v);
    DispatchBound(Settle(m, e, v), e, v);
  }

  lemma ForeignBound(c: Chip)
    requires HardResetInv(c)
    ensures HardResetInv(ForeignSent(c))
  {
  }

  /** In every run from probe, whatever roles, cables and interrupts did before,
      for every order of HARDSENT and the 5 ms timeout, and whatever other ports do. */
  lemma {:induction false} HardResetsBounded(role: Role, tryRole: Role, ts: seq<Turn>)
    ensures HardResetInv(Run(Probe(role, tryRole), ts))
    ensures var d := Run(Probe(role, tryRole), ts); Silent(d) ==> d.wire.hardResets <= 2 + d.wire.foreign
  {
    if ts != [] {
      var before, t := Run(Probe(role, tryRole), ts[..|ts|-1]), ts[|ts|-1];
      HardResetsBounded(role, tryRole, ts[..|ts|-1]);
      hide Step, ForeignSent, HardResetInv;
      match t
      case Own(e) => StepBound(before, e);
      case Foreign => ForeignBound(before);
      SilentBound(Take(before, t));
    }
  }

  lemma SilentBound(c: Chip)
    requires HardResetInv(c)
    ensures Silent(c) ==> c.wire.hardResets <= 2 + c.wire.foreign
  {
  }
}
