/** The USB Power Delivery port controller of fusb302.c as a transition
    function: one call of `Step` is one run of the work function
    `state_machine_typec` on the port's fields. */
module PdPort {

  const N_DEBOUNCE_CNT := 33
  const N_CAPS_COUNT := 50
  const N_HARDRESET_COUNT := 0

  const T_DISABLED := 0xffff
  const T_NO_RESPONSE := 5000
  const T_SRC_RECOVER := 830
  const T_TYPEC_SEND_SOURCECAP := 100
  const T_SENDER_RESPONSE := 30
  const T_TYPEC_SINK_WAIT_CAP := 500
  const T_BMC_TIMEOUT := 5
  const T_PS_HARD_RESET_MAX := 35
  const T_SAFE_0V := 650
  const T_SRC_TURN_ON := 275
  const T_SRC_RECOVER_MAX := 1000
  const T_PD_SOURCE_ON := 480
  const T_PD_TRY_DRP := 75

  const CMT_ACCEPT := 3
  const CMT_SOFTRESET := 13
  const DMT_SOURCECAPABILITIES := 1
  const DMT_REQUEST := 2

  const CC_OPEN := 0
  const CC_RD := 2
  const CC_RP := 3

  /** `OtherPolicy` stands for the policy states whose handlers only react to
      messages; the power-role-swap states that `fusb_try_detach` names are
      kept apart from them. */
  datatype ConnState =
    | Disabled | ErrorRecovery | Unattached
    | AttachWaitSink | AttachWaitSource | AttachedSource | AttachedSink
    | AttachTrySrc | AttachTrySnk
    | SrcStartup | SrcSendCaps | SrcDiscovery | SrcTransitionDefault
    | SrcSendHardrst | SrcSendSoftrst | SrcSoftrst
    | SnkStartup | SnkDiscovery | SnkWaitCaps | SnkTransitionDefault
    | SnkSendHardrst | SnkSendSoftrst | SnkSoftrst
    | SrcNegotiateCap | SnkEvaluateCaps
    | SrcPrsSourceOff | SnkPrsSendSwap | SnkPrsAssertRp | SnkPrsSourceOn | SnkPrsTransitionToOff
    | OtherPolicy(code: nat)

  datatype Role = RoleNone | RoleDrp | RoleUfp | RoleDfp | RoleAss
  datatype Tx = TxIdle | TxBusy | TxFailed | TxSuccess

  /** The toggle result read from STATUS1A: which CC line, and whether the port
      was found to be the UFP. The register value is zero when all are false. */
  datatype CcState = CcState(cc1: bool, cc2: bool, ufp: bool)
  const NO_CC := CcState(false, false, false)

  /** A flag of the port; C keeps these as `bool` or as bits of a word. */
  datatype Flag = Off | On
  function AsFlag(b: bool): Flag { if b then On else Off }

  datatype Message = Message(objects: nat, kind: nat)

  /** What has been put on the wire. `owed` counts the hard resets sent for
      which the controller may still raise HARDSENT; `hardResets` counts those
      sent since the last sink attach, and `foreign` the HARDSENT interrupts other
      ports have handled since then; `sourceCaps` counts the capability messages
      since source startup, `trials` the role trials since `Unattached`. */
  datatype Wire = Wire(owed: nat, hardResets: nat, foreign: nat, sourceCaps: nat, trials: nat,
                       sinkAttach: Flag, heard: Flag)

  /** `retry` is a static variable of the interrupt handler: every port sees the same
      one, and each HARDSENT of any port flips it. */
  datatype Chip = Chip(
    connState: ConnState, subState: nat, workContinue: Flag, delayCc: Flag,
    txState: Tx, timerState: int, timerMux: int, retry: Flag,
    hardrstCount: int, capsCounter: int, vbusBegin: Flag,
    isPdSupport: Flag, isPdConnected: Flag, isCcConnected: Flag,
    source: Flag, dfp: Flag, role: Role, tryRole: Role, tryRoleComplete: Flag,
    ccState: CcState, cc1: int, cc2: int, debounceCnt: int, wire: Wire)

  /** Everything one run of the work function reads from outside: interrupt
      bits, expired timers, VBUS and CC measurements, a received message, and
      what the message-driven handlers (`OtherPolicy` and its kin) leave behind. */
  datatype Env = Env(
    compChange: bool, vbusChange: bool, toggleDone: bool, toggled: CcState,
    txSent: bool, received: bool, hardReset: bool, retryFail: bool, hardSent: bool,
    stateTimer: bool, muxTimer: bool,
    vbusAtDetach: bool, vbus: bool, cc1: int, cc2: int, message: Message, other: Chip)

  datatype Events = Events(cc: bool, rx: bool, tx: bool, reset: bool, work: bool,
                           timerMux: bool, timerState: bool, delayCc: bool) {
    predicate Any() { cc || rx || tx || reset || work || timerMux || timerState || delayCc }
    predicate Flag() { rx || timerMux || timerState }
  }

  predicate IsControl(m: Message, kind: nat) { m.objects == 0 && m.kind == kind }
  predicate IsData(m: Message, kind: nat) { m.objects != 0 && m.kind == kind }

  // ----- helpers shared by the handlers

  function SetState(c: Chip, s: ConnState): Chip {
    c.(connState := s, subState := 0, workContinue := On)
  }

  /** `tcpm_init`: the software reset also drops any interrupt still due. */
  function TcpmInit(c: Chip): Chip {
    c.(isCcConnected := Off, ccState := NO_CC, wire := c.wire.(owed := 0))
  }

  function SetStateUnattached(c: Chip): Chip {
    SetState(TcpmInit(c), Unattached).(
    isCcConnected := Off, isPdConnected := Off, source := Off, dfp := Off,
    tryRoleComplete := Off, wire := Wire(0, 0, 0, 0, 0, Off, Off))
  }

  function ExecuteHardReset(c: Chip): Chip {
    SetState(c, if c.source.On? then SrcTransitionDefault else SnkTransitionDefault)
  }

  function TryAttachSet(c: Chip, mode: Role): Chip {
    if mode.RoleNone? || mode.RoleDrp? || mode.RoleAss? then c else
      var d := TcpmInit(c).(timerMux := T_PD_TRY_DRP);
      SetState(d.(wire := d.wire.(trials := d.wire.trials + 1)),
               if mode.RoleDfp? then AttachTrySrc else AttachTrySnk)
  }

  /** `policy_send_data` starts a transmission once and then reports its fate. */
  function SendData(c: Chip): Chip {
    if c.txState.TxIdle? then c.(txState := TxBusy) else c
  }

  function SendHardrst(c: Chip, v: Events): Chip {
    if c.txState.TxIdle? then
      c.(txState := TxBusy, timerState := T_BMC_TIMEOUT,
         wire := c.wire.(owed := c.wire.owed + 1, hardResets := c.wire.hardResets + 1))
    else if v.timerState then c.(txState := TxSuccess) else c
  }

  // ----- interrupts and timers

  /** `fusb_timer_handler` before the work function runs. */
  function Expire(c: Chip, e: Env): Chip {
    c.(timerState := if e.stateTimer && c.timerState != T_DISABLED then 0 else c.timerState,
       timerMux := if e.muxTimer && c.timerMux != T_DISABLED then 0 else c.timerMux)
  }

  predicate HardSent(c: Chip, e: Env) { e.hardSent && c.wire.owed > 0 }

  function AlertToggle(c: Chip, e: Env): Chip {
    if e.toggleDone then c.(ccState := e.toggled) else c
  }

  function AlertTx(c: Chip, e: Env): Chip {
    if e.txSent then c.(txState := TxSuccess) else c
  }

  function AlertHardReset(c: Chip, e: Env): Chip {
    if e.hardReset then ExecuteHardReset(c.(wire := c.wire.(heard := On))) else c
  }

  function AlertRetryFail(c: Chip, e: Env): Chip {
    if e.retryFail then c.(txState := TxFailed) else c
  }

  function AlertHardSent(c: Chip, e: Env): Chip {
    if !HardSent(c, e) then c else
      var d := c.(wire := c.wire.(owed := c.wire.owed - 1));
      if c.retry.Off? then ExecuteHardReset(d.(retry := On))
      else d.(retry := Off, txState := TxSuccess, timerState := T_DISABLED)
  }

  /** The interrupts other than HARDSENT. */
  function Alerted(c: Chip, e: Env): Chip {
    var d := AlertHardReset(AlertTx(AlertToggle(c, e), e), e);
    AlertRetryFail(d.(wire := d.wire.(heard := if e.received then On else d.wire.heard)), e)
  }

  function TcpcAlert(c: Chip, e: Env): Chip { AlertHardSent(Alerted(c, e), e) }

  /** The CC tests read `is_cc_connected` and the UFP bit as they were before
      the toggle result was stored, so c is the port before `TcpcAlert`. */
  function TcpcEvents(c: Chip, e: Env): Events {
    Events(
      cc := (e.compChange && !c.ccState.ufp) || (e.vbusChange && c.isCcConnected.On?) || e.toggleDone,
      rx := e.received,
      tx := e.txSent || e.retryFail || (HardSent(c, e) && c.retry.On?),
      reset := e.hardReset, work := false, timerMux := false, timerState := false, delayCc := false)
  }

  /** `mux_alert`, with c the port after `TcpcAlert`. */
  function MuxAlert(c: Chip): Chip {
    c.(timerMux := if c.timerMux == 0 then T_DISABLED else c.timerMux,
       timerState := if c.timerState == 0 then T_DISABLED else c.timerState,
       workContinue := Off, delayCc := Off)
  }

  function MuxEvents(c: Chip, v: Events): Events {
    v.(timerMux := c.timerMux == 0, timerState := c.timerState == 0,
       work := c.workContinue.On?, delayCc := c.delayCc.On?)
  }

  /** States in which a sink may lose VBUS without being detached. */
  predicate VbusMayDrop(s: ConnState) {
    || s.SnkTransitionDefault? || s.SrcPrsSourceOff? || s.SnkPrsSendSwap? || s.SnkPrsAssertRp?
    || s.SnkPrsSourceOn? || s.SnkPrsTransitionToOff?
  }

  predicate CcMayOpen(s: ConnState) {
    s.SrcTransitionDefault? || s.SrcPrsSourceOff? || s.SnkPrsSourceOn?
  }

  function TryDetach(c: Chip, e: Env): Chip {
    if c.ccState.ufp && !VbusMayDrop(c.connState) then
      if !e.vbusAtDetach then SetStateUnattached(c) else c
    else if !CcMayOpen(c.connState) then
      if (if c.ccState.cc2 then e.cc2 else e.cc1) == CC_OPEN then SetStateUnattached(c) else c
    else c.(delayCc := On)
  }

  // ----- attach handlers

  /** Debouncing begins with a first reading of the CC lines. */
  function StartDebounce(c: Chip, e: Env): Chip {
    c.(cc1 := e.cc1, cc2 := e.cc2, debounceCnt := 0, timerMux := 2)
  }

  function HandleUnattached(c: Chip, e: Env, v: Events): Chip {
    var d := c.(isCcConnected := Off, isPdSupport := Off);
    if v.cc && c.ccState != NO_CC then
      StartDebounce(SetState(d.(vbusBegin := AsFlag(e.vbus)),
                             if c.ccState.ufp then AttachWaitSink else AttachWaitSource), e)
    else d
  }

  function Debounce(c: Chip, e: Env): Chip {
    if c.cc1 == e.cc1 && c.cc2 == e.cc2 then c.(debounceCnt := c.debounceCnt + 1)
    else c.(cc1 := e.cc1, cc2 := e.cc2, debounceCnt := 0)
  }

  function HandleAttachWaitSink(c: Chip, e: Env, v: Events): Chip {
    if !v.timerMux then c else
      var a := if e.vbus then c.(timerMux := T_DISABLED) else c;
      if e.vbus && c.role.RoleDrp? && c.tryRole.RoleDfp? && c.tryRoleComplete.Off? then
        TryAttachSet(a, RoleDfp)
      else if e.vbus && c.tryRoleComplete.On? then
        SetState(a.(timerMux := T_PD_SOURCE_ON), AttachedSink)
      else
        var d := Debounce(a, e);
        if d.debounceCnt > N_DEBOUNCE_CNT then
          if (d.cc1 == CC_RP && d.cc2 == CC_OPEN) || (d.cc2 == CC_RP && d.cc1 == CC_OPEN) then
            SetState(d.(timerMux := T_PD_SOURCE_ON), AttachedSink)
          else SetStateUnattached(d.(timerMux := T_DISABLED))
        else d.(timerMux := 2)
  }

  function HandleAttachWaitSource(c: Chip, e: Env, v: Events): Chip {
    if !v.timerMux then c else
      var d := Debounce(c, e);
      if d.debounceCnt > N_DEBOUNCE_CNT then
        if (d.cc1 == CC_OPEN || d.cc2 == CC_OPEN) && (d.cc1 == CC_RD || d.cc2 == CC_RD) then
          if c.role.RoleDrp? && c.tryRole.RoleUfp? && c.tryRoleComplete.Off? then TryAttachSet(d, RoleUfp)
          else SetState(d, AttachedSource)
        else SetStateUnattached(d)
      else d.(timerMux := 2)
  }

  function HandleAttachedSource(c: Chip): Chip {
    SetState(c.(isCcConnected := On, source := On, dfp := On, hardrstCount := 0), SrcStartup)
  }

  function SinkAttached(c: Chip): Chip {
    SetState(c.(tryRoleComplete := On, isCcConnected := On, source := Off, dfp := Off, hardrstCount := 0,
             wire := c.wire.(hardResets := 0, foreign := 0, sinkAttach := On, heard := Off)), SnkStartup)
  }

  function HandleAttachedSink(c: Chip, e: Env, v: Events): Chip {
    if e.vbus then
      var d := c.(timerMux := T_DISABLED, timerState := T_DISABLED);
      if c.tryRoleComplete.Off? && c.tryRole.RoleDfp? && c.role.RoleDrp? then TryAttachSet(d, RoleDfp)
      else SinkAttached(d)
    else if v.timerMux then SetStateUnattached(c)
    else c.(timerState := 2)
  }

  /** A trial that finds the role it did not try ends in `ErrorRecovery`. */
  function TrialResult(ufp: bool, mode: Role): ConnState {
    if ufp then (if mode.RoleUfp? then AttachWaitSink else ErrorRecovery)
    else (if mode.RoleDfp? then AttachWaitSource else ErrorRecovery)
  }

  function HandleTryAttach(c: Chip, e: Env, v: Events, mode: Role): Chip {
    if v.cc && c.ccState != NO_CC then
      StartDebounce(SetState(c.(tryRoleComplete := On), TrialResult(c.ccState.ufp, mode)), e)
    else if v.timerMux then
      if c.tryRoleComplete.Off? then
        TryAttachSet(c.(tryRoleComplete := On), if mode.RoleDfp? then RoleUfp else RoleDfp)
      else SetState(c, ErrorRecovery)
    else c
  }

  // ----- source handlers

  function HandleSrcStartup(c: Chip): Chip {
    SetState(c.(isPdConnected := Off, capsCounter := 0, wire := c.wire.(sourceCaps := 0)), SrcSendCaps)
  }

  function HandleSrcDiscovery(c: Chip, v: Events): Chip {
    if c.subState == 0 then
      var d := c.(capsCounter := c.capsCounter + 1);
      if d.capsCounter < N_CAPS_COUNT then d.(timerState := T_TYPEC_SEND_SOURCECAP, subState := 1)
      else SetState(d, Disabled)
    else if v.timerState then SetState(c, SrcSendCaps)
    else if v.timerMux then SourceNoResponse(c)
    else c
  }

  /** The mux timer ran out on a source still waiting for its partner. */
  function SourceNoResponse(c: Chip): Chip {
    SetState(c, if c.isPdSupport.Off? then Disabled
                else if c.hardrstCount > N_HARDRESET_COUNT then ErrorRecovery
                else SrcSendHardrst)
  }

  function HandleSrcSendCaps(c: Chip, e: Env, v: Events): Chip {
    if c.subState > 1 then AwaitRequest(c, e, v)
    else
      var d := SendCaps(StartSend(c));
      if d.txState.TxFailed? then SetState(d, SrcDiscovery)
      else if v.Flag() then AwaitRequest(CapsSent(d), e, v)
      else CapsSent(d)
  }

  function SendCaps(c: Chip): Chip {
    if c.txState.TxIdle? then
      SendData(c).(wire := c.wire.(sourceCaps := c.wire.sourceCaps + 1))
    else c
  }

  function CapsSent(c: Chip): Chip {
    if c.txState.TxSuccess? then
      c.(hardrstCount := 0, capsCounter := 0, timerState := T_SENDER_RESPONSE,
         timerMux := T_DISABLED, subState := c.subState + 1, isPdSupport := On)
    else c
  }

  function AwaitRequest(c: Chip, e: Env, v: Events): Chip {
    if v.rx then
      SetState(c, if IsData(e.message, DMT_REQUEST) then SrcNegotiateCap else SrcSendSoftrst)
    else if v.timerState then
      SetState(c, if c.hardrstCount <= N_HARDRESET_COUNT then SrcSendHardrst else Disabled)
    else if v.timerMux then SourceNoResponse(c)
    else c
  }

  function HandleSrcTransitionDefault(c: Chip, v: Events): Chip {
    if c.subState == 0 then c.(isPdConnected := Off, timerState := T_SRC_RECOVER, subState := 1)
    else if v.timerState then SetState(c.(timerMux := T_NO_RESPONSE), SrcStartup)
    else c
  }

  /** Sub-state 0 of every sending state. */
  function StartSend(c: Chip): Chip {
    if c.subState == 0 then c.(txState := TxIdle, subState := 1) else c
  }

  function Transmit(c: Chip): Chip { SendData(StartSend(c)) }

  function HandleSendHardrst(c: Chip, v: Events, sink: bool): Chip {
    var d := SendHardrst(StartSend(c), v);
    if d.txState.TxSuccess? then SetState(d.(hardrstCount := d.hardrstCount + 1),
        if sink then SnkTransitionDefault else SrcTransitionDefault)
    else if d.txState.TxFailed? then SetState(d, ErrorRecovery)
    else d
  }

  function HardrstState(sink: bool): ConnState { if sink then SnkSendHardrst else SrcSendHardrst }

  /** `fusb_state_*_send_softreset`: send the message, then wait for Accept. */
  function HandleSendSoftrst(c: Chip, e: Env, v: Events, sink: bool): Chip {
    if c.subState > 1 then AwaitAccept(c, e, v, sink)
    else if v.Flag() then AwaitAccept(SendSoftrst(c, sink), e, v, sink)
    else SendSoftrst(c, sink)
  }

  function SendSoftrst(c: Chip, sink: bool): Chip {
    var d := Transmit(c);
    if d.txState.TxSuccess? then d.(timerState := T_SENDER_RESPONSE, subState := 2)
    else if d.txState.TxFailed? then SetState(d, HardrstState(sink))
    else d
  }

  function AwaitAccept(c: Chip, e: Env, v: Events, sink: bool): Chip {
    if v.rx then
      if IsControl(e.message, CMT_ACCEPT) then SoftResetDone(c, sink) else c
    else if v.timerState then SetState(c, HardrstState(sink))
    else c
  }

  /** After a soft reset a sink re-arms the wait for source capabilities. */
  function SoftResetDone(c: Chip, sink: bool): Chip {
    if sink then SetState(c.(capsCounter := 0, timerState := T_TYPEC_SINK_WAIT_CAP), SnkWaitCaps)
    else SetState(c.(capsCounter := 0), SrcSendCaps)
  }

  /** `fusb_state_*_softreset`: accept the partner's soft reset. */
  function HandleSoftrst(c: Chip, sink: bool): Chip {
    var d := Transmit(c);
    if d.txState.TxSuccess? then SoftResetDone(d, sink)
    else if d.txState.TxFailed? then SetState(d, HardrstState(sink))
    else d
  }

  // ----- sink handlers

  function HandleSnkStartup(c: Chip): Chip {
    SetState(c.(isPdConnected := Off, capsCounter := 0), SnkDiscovery)
  }

  function HandleSnkDiscovery(c: Chip): Chip {
    SetState(c, SnkWaitCaps).(timerState := T_TYPEC_SINK_WAIT_CAP)
  }

  function HandleSnkWaitCaps(c: Chip, e: Env, v: Events): Chip {
    if v.rx then
      if IsData(e.message, DMT_SOURCECAPABILITIES) then
        SetState(c.(isPdSupport := On, timerMux := T_DISABLED), SnkEvaluateCaps)
      else c
    else if v.timerState then
      if c.hardrstCount <= N_HARDRESET_COUNT then
        if c.vbusBegin.On? then SetState(c.(vbusBegin := Off), SnkSendSoftrst)
        else SetState(c, SnkSendHardrst)
      else SetState(c, if c.isPdSupport.On? then ErrorRecovery else Disabled)
    else if v.timerMux && c.hardrstCount > N_HARDRESET_COUNT then
      SetState(c, if c.isPdSupport.On? then ErrorRecovery else Disabled)
    else c
  }

  function HandleSnkTransitionDefault(c: Chip, e: Env, v: Events): Chip {
    var d := if c.subState == 0 then
               c.(isPdConnected := Off, timerMux := T_NO_RESPONSE,
                  timerState := T_PS_HARD_RESET_MAX + T_SAFE_0V, subState := 1)
             else c;
    if d.subState == 1 then
      if !e.vbus then d.(subState := 2, timerState := T_SRC_RECOVER_MAX + T_SRC_TURN_ON)
      else if v.timerState then SetState(d, SnkStartup)
      else d
    else if e.vbus then SetState(d.(timerState := T_DISABLED), SnkStartup)
    else if v.timerState then SetState(d, SnkStartup)
    else d
  }

  // ----- the rest of the policy engine

  /** States a message-driven handler can leave behind: any policy state,
      `Disabled` or `ErrorRecovery`, never one of the attach states. */
  predicate PolicyExit(s: ConnState) {
    && !s.Unattached? && !s.AttachWaitSink? && !s.AttachWaitSource?
    && !s.AttachedSource? && !s.AttachedSink? && !s.AttachTrySrc? && !s.AttachTrySnk?
  }

  /** The message-driven handlers may set every field except the role-trial
      configuration and the record of what was sent. */
  function HandleOther(c: Chip, e: Env): Chip {
    if PolicyExit(e.other.connState) then
      AdoptCc(AdoptCable(AdoptTimers(AdoptState(c, e.other), e.other), e.other), e.other)
    else c
  }

  function AdoptState(c: Chip, o: Chip): Chip {
    c.(connState := o.connState, subState := o.subState, workContinue := o.workContinue, delayCc := o.delayCc)
  }

  function AdoptTimers(c: Chip, o: Chip): Chip {
    c.(txState := o.txState, timerState := o.timerState, timerMux := o.timerMux,
    hardrstCount := o.hardrstCount, capsCounter := o.capsCounter)
  }

  function AdoptCable(c: Chip, o: Chip): Chip {
    c.(vbusBegin := o.vbusBegin, isPdSupport := o.isPdSupport, isPdConnected := o.isPdConnected,
    isCcConnected := o.isCcConnected, source := o.source, dfp := o.dfp)
  }

  function AdoptCc(c: Chip, o: Chip): Chip {
    c.(ccState := o.ccState, cc1 := o.cc1, cc2 := o.cc2, debounceCnt := o.debounceCnt)
  }

  // ----- one run of the work function

  function Dispatch(c: Chip, e: Env, v: Events): Chip {
    match c.connState
    case Disabled => c
    case ErrorRecovery => SetStateUnattached(c)
    case Unattached => HandleUnattached(c, e, v)
    case AttachWaitSink => HandleAttachWaitSink(c, e, v)
    case AttachWaitSource => HandleAttachWaitSource(c, e, v)
    case AttachedSource => HandleAttachedSource(c)
    case AttachedSink => HandleAttachedSink(c, e, v)
    case AttachTrySrc => HandleTryAttach(c, e, v, RoleDfp)
    case AttachTrySnk => HandleTryAttach(c, e, v, RoleUfp)
    case SrcStartup => HandleSrcStartup(c)
    case SrcDiscovery => HandleSrcDiscovery(c, v)
    case SrcSendCaps =>
      var d := HandleSrcSendCaps(c, e, v);
      if d.connState.SrcNegotiateCap? then HandleOther(d, e) else d
    case SrcTransitionDefault => HandleSrcTransitionDefault(c, v)
    case SrcSendHardrst => HandleSendHardrst(c, v, false)
    case SrcSendSoftrst => HandleSendSoftrst(c, e, v, false)
    case SrcSoftrst => HandleSoftrst(c, false)
    case SnkStartup => HandleSnkStartup(c)
    case SnkDiscovery => HandleSnkDiscovery(c)
    case SnkWaitCaps => HandleSnkWaitCaps(c, e, v)
    case SnkTransitionDefault => HandleSnkTransitionDefault(c, e, v)
    case SnkSendHardrst => HandleSendHardrst(c, v, true)
    case SnkSendSoftrst => HandleSendSoftrst(c, e, v, true)
    case SnkSoftrst => HandleSoftrst(c, true)
    case _ => HandleOther(c, e)
  }

  function Receive(c: Chip, e: Env, v: Events): Chip {
    if v.rx && IsControl(e.message, CMT_SOFTRESET) then
      SetState(c, if c.source.On? then SrcSoftrst else SnkSoftrst)
    else c
  }

  /** The port once interrupts and timers have been collected, before any handler. */
  function Collect(c: Chip, e: Env): Chip { MuxAlert(TcpcAlert(Expire(c, e), e)) }

  function Observed(c: Chip, e: Env): Events {
    var x := Expire(c, e);
    MuxEvents(TcpcAlert(x, e), TcpcEvents(x, e))
  }

  function Settle(c: Chip, e: Env, v: Events): Chip {
    Receive(if c.isCcConnected.On? && (v.cc || v.delayCc) then TryDetach(c, e) else c, e, v)
  }

  function Step(c: Chip, e: Env): Chip {
    var m := Collect(c, e);
    var v := Observed(c, e);
    if v.Any() then Dispatch(Settle(m, e, v), e, v) else m
  }

  /** Another port handles a HARDSENT: it flips `retry`, and that is all this port
      can notice of it. */
  function Flip(f: Flag): Flag { if f.Off? then On else Off }

  function ForeignSent(c: Chip): Chip {
    c.(retry := Flip(c.retry), wire := c.wire.(foreign := c.wire.foreign + 1))
  }

  /** A port's life: its own runs of the work function, and HARDSENT interrupts of
      other ports in between. */
  datatype Turn = Own(env: Env) | Foreign

  function Take(c: Chip, t: Turn): Chip {
    match t
    case Own(e) => Step(c, e)
    case Foreign => ForeignSent(c)
  }

  function Run(c: Chip, ts: seq<Turn>): Chip {
    if ts == [] then c else Take(Run(c, ts[..|ts|-1]), ts[|ts|-1])
  }

  /** The fields as `fusb30x_probe` leaves them. */
  function Probe(role: Role, tryRole: Role): Chip {
    Chip(Unattached, 0, Off, Off, TxIdle, T_DISABLED, T_DISABLED, Off, 0, 0, Off,
         Off, Off, Off, Off, Off, role, tryRole, Off, NO_CC, 0, 0, 0,
         Wire(0, 0, 0, 0, 0, Off, Off))
  }
}
