/** Two ports on one cable: runs in which each hears what the other has put on the wire,
    from attach to negotiation, and through a soft reset back to it. */
module PdExchange {
  import opened PdAttained
  import opened PdMessages
  import opened PdPort

  /** A message arrives and nothing else happens; the message under way is acknowledged;
      work is done while VBUS is up. */
  function Hears(m: Message): Env { Quiet.(received := true, message := m) }
  const Acked := Quiet.(txSent := true)

  const REQUEST := Message(1, 2)
  const ACCEPT := Message(0, 3)
  const SOFT_RESET := Message(0, 13)
  function Capabilities(n: nat): Message { Message(n, 1) }

  /** What a port that is sending has on the wire. */
  function Says(c: Chip, n: nat): Message {
    if c.connState.SrcSendCaps? then Capabilities(n)
    else if c.connState.SrcSendSoftrst? || c.connState.SnkSendSoftrst? then SOFT_RESET
    else ACCEPT
  }

  /** An attached port in a given place, with no timer due. */
  ghost predicate Placed(c: Chip, s: ConnState, sub: nat, source: Flag) {
    && c.connState == s && c.subState == sub && c.source == source && c.isCcConnected.On? && c.delayCc.Off?
    && c.timerState != 0 && c.timerMux != 0
    && (sub == 0 ==> c.workContinue.On?) && (sub == 1 ==> c.txState.TxBusy?)
  }

  /** No hard reset was sent on the way from c to d. */
  ghost predicate NoReset(c: Chip, d: Chip) {
    d.wire.hardResets == c.wire.hardResets && d.wire.owed == c.wire.owed
  }

  lemma NoResetThen(c: Chip, d: Chip, f: Chip)
    requires NoReset(c, d) && NoReset(d, f)
    ensures NoReset(c, f)
  {
  }

  lemma SaysIs(c: Chip, sink: bool, n: nat)
    ensures Placed(c, SrcSendCaps, 1, On) ==> Says(c, n) == Capabilities(n)
    ensures Placed(c, Sending(sink), 1, Side(sink)) ==> Says(c, n) == SOFT_RESET
    ensures Placed(c, Answering(sink), 1, Side(sink)) ==> Says(c, n) == ACCEPT
  {
  }

  // ----- from the attach to the capabilities

  lemma SourceStarts(c: Chip)
    requires c.connState.AttachedSource? && c.workContinue.On? && c.delayCc.Off? && c.timerState != 0 && c.timerMux != 0
    ensures Placed(Step(Step(c, Quiet), Quiet), SrcSendCaps, 0, On) && NoReset(c, Step(Step(c, Quiet), Quiet))
  {
    var d := Step(c, Quiet);
    assert Placed(d, SrcStartup, 0, On) && NoReset(c, d);
    hide HandleAttachedSource;
  }

  /** A sink that need not go through a trial first. */
  predicate Direct(c: Chip) { !(c.role.RoleDrp? && c.tryRole.RoleDfp? && c.tryRoleComplete.Off?) }

  lemma SinkStarts(c: Chip)
    requires c.connState.AttachedSink? && Direct(c) && c.workContinue.On? && c.delayCc.Off?
    requires c.timerState != 0 && c.timerMux != 0
    ensures var d := Step(Step(Step(c, Quiet), Quiet), Quiet);
            Placed(d, SnkWaitCaps, 0, Off) && d.wire.hardResets == 0 && d.wire.owed == c.wire.owed
  {
    hide Step, Placed, Direct;
    SinkAttaches(c);
    var d := Step(c, Quiet);
    Discovers(d);
    Waits(Step(d, Quiet));
  }

  lemma SinkAttaches(c: Chip)
    requires c.connState.AttachedSink? && Direct(c) && c.workContinue.On? && c.delayCc.Off?
    requires c.timerState != 0 && c.timerMux != 0
    ensures var d := Step(c, Quiet);
            Placed(d, SnkStartup, 0, Off) && d.wire.hardResets == 0 && d.wire.owed == c.wire.owed
  {
  }

  lemma Discovers(c: Chip)
    requires Placed(c, SnkStartup, 0, Off)
    ensures Placed(Step(c, Quiet), SnkDiscovery, 0, Off) && NoReset(c, Step(c, Quiet))
  {
  }

  lemma Waits(c: Chip)
    requires Placed(c, SnkDiscovery, 0, Off)
    ensures Placed(Step(c, Quiet), SnkWaitCaps, 0, Off) && NoReset(c, Step(c, Quiet))
  {
  }

  // ----- from the capabilities to the negotiation

  lemma Offers(c: Chip)
    requires Placed(c, SrcSendCaps, 0, On)
    ensures Placed(Step(c, Quiet), SrcSendCaps, 1, On) && NoReset(c, Step(c, Quiet))
  {
  }

  lemma Offered(c: Chip)
    requires Placed(c, SrcSendCaps, 1, On)
    ensures var d := Step(c, Acked); Placed(d, SrcSendCaps, 2, On) && NoReset(c, d) && d.isPdSupport.On?
  {
  }

  lemma Asked(c: Chip, m: Message)
    requires Placed(c, SrcSendCaps, 2, On) && !(m.objects == 0 && m.kind == 13)
    ensures var d := Step(c, Hears(m));
            && NoReset(c, d) && d.isPdSupport == c.isPdSupport
            && if m.objects != 0 && m.kind == 2 then d.connState.SrcNegotiateCap? else Placed(d, SrcSendSoftrst, 0, On)
  {
  }

  lemma Evaluates(c: Chip, n: nat)
    requires Placed(c, SnkWaitCaps, 0, Off) && n > 0
    ensures var d := Step(c, Hears(Capabilities(n)));
            d.connState.SnkEvaluateCaps? && d.isPdSupport.On? && NoReset(c, d)
  {
  }

  /** A source and a sink at the start of the exchange: the capabilities reach the sink,
      which evaluates them, and its Request takes the source to the negotiation. Neither
      port resets the other. */
  lemma Negotiates(c: Chip, d: Chip, n: nat)
    requires Placed(c, SrcSendCaps, 0, On) && Placed(d, SnkWaitCaps, 0, Off) && n > 0
    ensures var offering := Play(c, [Quiet]);
            var done := Play(c, [Quiet] + [Acked, Hears(REQUEST)]);
            var sink := Play(d, [Hears(Says(offering, n))]);
            && done.connState.SrcNegotiateCap? && done.isPdSupport.On? && NoReset(c, done)
            && sink.connState.SnkEvaluateCaps? && sink.isPdSupport.On? && NoReset(d, sink)
  {
    hide Step, Play;
    Offers(c);
    PlayOne(c, Quiet);
    var offering := Step(c, Quiet);
    Offered(offering);
    Asked(Step(offering, Acked), REQUEST);
    PlayTwo(offering, Acked, Hears(REQUEST));
    PlayThen(c, [Quiet], [Acked, Hears(REQUEST)]);
    Evaluates(d, n);
    PlayOne(d, Hears(Says(offering, n)));
  }

  /** End to end: from the moment both are attached. */
  lemma AttachedNegotiate(c: Chip, d: Chip, n: nat)
    requires c.connState.AttachedSource? && c.workContinue.On? && c.delayCc.Off? && c.timerState != 0 && c.timerMux != 0
    requires d.connState.AttachedSink? && Direct(d) && d.workContinue.On? && d.delayCc.Off?
    requires d.timerState != 0 && d.timerMux != 0 && n > 0
    ensures var source := Play(c, [Quiet, Quiet] + ([Quiet] + [Acked, Hears(REQUEST)]));
            var sink := Play(d, [Quiet, Quiet, Quiet] + [Hears(Capabilities(n))]);
            && source.connState.SrcNegotiateCap? && NoReset(c, source)
            && sink.connState.SnkEvaluateCaps? && sink.wire.hardResets == 0
  {
    hide Step, Play;
    SourceStarts(c);
    PlayTwo(c, Quiet, Quiet);
    SinkStarts(d);
    PlayThree(d, Quiet, Quiet, Quiet);
    var c1, d1 := Play(c, [Quiet, Quiet]), Play(d, [Quiet, Quiet, Quiet]);
    Offers(c1);
    PlayOne(c1, Quiet);
    Negotiates(c1, d1, n);
    PlayThen(c, [Quiet, Quiet], [Quiet] + [Acked, Hears(REQUEST)]);
    PlayThen(d, [Quiet, Quiet, Quiet], [Hears(Capabilities(n))]);
  }

  // ----- a soft reset

  /** The states a soft reset passes through, and the one it leads back to. */
  function Sending(sink: bool): ConnState { if sink then SnkSendSoftrst else SrcSendSoftrst }
  function Answering(sink: bool): ConnState { if sink then SnkSoftrst else SrcSoftrst }
  function Restart(sink: bool): ConnState { if sink then SnkWaitCaps else SrcSendCaps }
  function Side(sink: bool): Flag { if sink then Off else On }

  lemma SaysReset(c: Chip, sink: bool)
    requires Placed(c, Sending(sink), 0, Side(sink))
    ensures Placed(Step(c, Quiet), Sending(sink), 1, Side(sink)) && NoReset(c, Step(c, Quiet))
  {
  }

  lemma ResetOut(c: Chip, sink: bool)
    requires Placed(c, Sending(sink), 1, Side(sink))
    ensures Placed(Step(c, Acked), Sending(sink), 2, Side(sink)) && NoReset(c, Step(c, Acked))
  {
  }

  lemma Accepted(c: Chip, sink: bool)
    requires Placed(c, Sending(sink), 2, Side(sink))
    ensures Placed(Step(c, Hears(ACCEPT)), Restart(sink), 0, Side(sink)) && NoReset(c, Step(c, Hears(ACCEPT)))
  {
  }

  lemma Answers(c: Chip, sink: bool)
    requires c.source == Side(sink) && c.isCcConnected.On? && c.delayCc.Off? && c.timerState != 0 && c.timerMux != 0
    ensures Placed(Step(c, Hears(SOFT_RESET)), Answering(sink), 1, Side(sink)) && NoReset(c, Step(c, Hears(SOFT_RESET)))
  {
    hide Step;
    SoftResetHeard(c, Hears(SOFT_RESET));
  }

  lemma AnswerOut(c: Chip, sink: bool)
    requires Placed(c, Answering(sink), 1, Side(sink))
    ensures Placed(Step(c, Acked), Restart(sink), 0, Side(sink)) && NoReset(c, Step(c, Acked))
  {
  }

  /** Whichever side starts it, and whatever state the other side is in: the partner hears
      the soft reset and answers, the sender hears the answer, and both stand where the
      exchange begins. No hard reset is sent. */
  lemma SoftResetSync(a: Chip, b: Chip, sink: bool, n: nat)
    requires Placed(a, Sending(sink), 0, Side(sink))
    requires b.source == Side(!sink) && b.isCcConnected.On? && b.delayCc.Off? && b.timerState != 0 && b.timerMux != 0
    ensures var saying := Play(a, [Quiet]);
            var answering := Play(b, [Hears(Says(saying, n))]);
            var a' := Play(a, [Quiet] + [Acked, Hears(Says(answering, n))]);
            var b' := Play(b, [Hears(Says(saying, n))] + [Acked]);
            && Placed(a', Restart(sink), 0, Side(sink)) && NoReset(a, a')
            && Placed(b', Restart(!sink), 0, Side(!sink)) && NoReset(b, b')
  {
    hide Step, Play, Placed, NoReset, Says, Sending, Answering, Restart, Hears;
    SaysReset(a, sink);
    PlayOne(a, Quiet);
    var saying := Step(a, Quiet);
    SaysIs(saying, sink, n);
    Answers(b, !sink);
    PlayOne(b, Hears(SOFT_RESET));
    var answering := Step(b, Hears(SOFT_RESET));
    SaysIs(answering, !sink, n);
    ResetOut(saying, sink);
    Accepted(Step(saying, Acked), sink);
    var done := Step(Step(saying, Acked), Hears(ACCEPT));
    NoResetThen(a, saying, Step(saying, Acked));
    NoResetThen(a, Step(saying, Acked), done);
    PlayTwo(saying, Acked, Hears(ACCEPT));
    PlayThen(a, [Quiet], [Acked, Hears(ACCEPT)]);
    AnswerOut(answering, !sink);
    NoResetThen(b, answering, Step(answering, Acked));
    PlayOne(answering, Acked);
    PlayThen(b, [Hears(SOFT_RESET)], [Acked]);
  }

  /** A source that hears something it did not ask for recovers by a soft reset, whatever its
      partner was doing, and the two then negotiate. */
  lemma Recovers(c: Chip, d: Chip, m: Message, n: nat)
    requires Placed(c, SrcSendCaps, 2, On) && !(m.objects != 0 && m.kind == 2) && !(m.objects == 0 && m.kind == 13)
    requires d.source.Off? && d.isCcConnected.On? && d.delayCc.Off? && d.timerState != 0 && d.timerMux != 0 && n > 0
    ensures var source := Play(Play(c, [Hears(m)]), [Quiet] + [Acked, Hears(ACCEPT)]);
            var sink := Play(d, [Hears(SOFT_RESET)] + [Acked]);
            var source', sink' := Play(source, [Quiet] + [Acked, Hears(REQUEST)]), Play(sink, [Hears(Capabilities(n))]);
            && source'.connState.SrcNegotiateCap? && NoReset(c, source')
            && sink'.connState.SnkEvaluateCaps? && NoReset(d, sink')
  {
    hide Step, Play, Placed, NoReset, Says, Hears;
    Asked(c, m);
    PlayOne(c, Hears(m));
    var a := Step(c, Hears(m));
    SaysReset(a, false);
    PlayOne(a, Quiet);
    SaysIs(Step(a, Quiet), false, n);
    Answers(d, true);
    PlayOne(d, Hears(SOFT_RESET));
    SaysIs(Step(d, Hears(SOFT_RESET)), true, n);
    SoftResetSync(a, d, false, n);
    var source, sink := Play(a, [Quiet] + [Acked, Hears(ACCEPT)]), Play(d, [Hears(SOFT_RESET)] + [Acked]);
    Offers(source);
    PlayOne(source, Quiet);
    SaysIs(Step(source, Quiet), false, n);
    Negotiates(source, sink, n);
    NoResetThen(c, a, source);
    NoResetThen(c, source, Play(source, [Quiet] + [Acked, Hears(REQUEST)]));
    NoResetThen(d, sink, Play(sink, [Hears(Capabilities(n))]));
  }
}
