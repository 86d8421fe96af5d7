/** What every message, reset and timer handler outside the attach phase leaves
    alone: the role trials and the record of the current attach. */
module PdFrame {
  import opened PdPort

  ghost predicate Framed(c: Chip, d: Chip) {
    && d.tryRoleComplete == c.tryRoleComplete && d.wire.trials == c.wire.trials
    && d.wire.sinkAttach == c.wire.sinkAttach && d.wire.heard == c.wire.heard
    && (d.connState == c.connState || PolicyExit(d.connState))
  }

  /** Interrupts other than HARDSENT, and timers, leave alone what HARDSENT reads. */
  lemma AlertedSees(c: Chip, e: Env)
    ensures var d := Alerted(c, e);
            && d.retry == c.retry && d.wire.owed == c.wire.owed && d.wire.foreign == c.wire.foreign
            && d.role == c.role
  {
  }

  lemma ExpireSees(c: Chip, e: Env)
    ensures Expire(c, e).retry == c.retry && Expire(c, e).wire == c.wire && Expire(c, e).role == c.role
  {
  }

  lemma SourceHandlersFramed(c: Chip, e: Env, v: Events)
    ensures Framed(c, HandleSrcSendCaps(c, e, v))
    ensures Framed(c, HandleSrcDiscovery(c, v))
    ensures Framed(c, HandleSrcTransitionDefault(c, v))
  {
  }

  lemma SoftResetDoneFramed(c: Chip, sink: bool)
    ensures Framed(c, SoftResetDone(c, sink))
  {
  }

  lemma TransmitFramed(c: Chip)
    ensures Framed(c, Transmit(c))
  {
  }

  lemma SoftrstFramed(c: Chip, sink: bool)
    ensures Framed(c, HandleSoftrst(c, sink))
  {
    hide Transmit, SoftResetDone;
    TransmitFramed(c);
    SoftResetDoneFramed(Transmit(c), sink);
  }

  lemma SendHardrstFramed(c: Chip, v: Events, sink: bool)
    ensures Framed(c, HandleSendHardrst(c, v, sink))
  {
  }

  lemma AwaitAcceptFramed(c: Chip, e: Env, v: Events, sink: bool)
    ensures Framed(c, AwaitAccept(c, e, v, sink))
  {
    SoftResetDoneFramed(c, sink);
  }

  lemma SendSoftrstFramed(c: Chip, e: Env, v: Events, sink: bool)
    ensures Framed(c, HandleSendSoftrst(c, e, v, sink))
  {
    hide Transmit, AwaitAccept;
    TransmitFramed(c);
    var d := SendSoftrst(c, sink);
    assert Framed(c, d);
    if c.subState > 1 {
      AwaitAcceptFramed(c, e, v, sink);
    } else if v.Flag() {
      AwaitAcceptFramed(d, e, v, sink);
    }
  }

  lemma SinkHandlersFramed(c: Chip, e: Env, v: Events)
    ensures Framed(c, HandleSnkWaitCaps(c, e, v))
    ensures Framed(c, HandleSnkTransitionDefault(c, e, v))
    ensures Framed(c, HandleOther(c, e))
  {
  }

  /** Handlers run in the attach states, in `ErrorRecovery` or in `Unattached`. */
  predicate AttachHandled(s: ConnState) { !PolicyExit(s) || s.ErrorRecovery? }

  lemma DispatchFramed(c: Chip, e: Env, v: Events)
    requires !AttachHandled(c.connState)
    ensures Framed(c, Dispatch(c, e, v)) && PolicyExit(Dispatch(c, e, v).connState)
  {
    match c.connState
    case SrcSendCaps =>
      SourceHandlersFramed(c, e, v);
      SinkHandlersFramed(HandleSrcSendCaps(c, e, v), e, v);
    case SrcDiscovery | SrcTransitionDefault => SourceHandlersFramed(c, e, v);
    case SrcSendHardrst => SendHardrstFramed(c, v, false);
    case SnkSendHardrst => SendHardrstFramed(c, v, true);
    case SrcSendSoftrst => SendSoftrstFramed(c, e, v, false);
    case SnkSendSoftrst => SendSoftrstFramed(c, e, v, true);
    case SrcSoftrst => SoftrstFramed(c, false);
    case SnkSoftrst => SoftrstFramed(c, true);
    case _ => SinkHandlersFramed(c, e, v);
  }
}
