/** The port controllers as the driver runs them: one object per port whose handlers
    assign to its fields, one object for the variable all ports share, and the table
    of ports. Every handler is proved to be the transition of `PdPort` that the safety
    results are about, and `Driver` carries these over to the objects. */
module PdDriver {
  import opened PdPort
  import opened PdFrame
  import opened PdSystem
  import PdAttach
  import PdAttained
  import PdHardReset

  /** The static local of `tcpc_alert`. */
  class Statics {
    var retry: Flag

    constructor ()
      ensures retry.Off?
    {
      retry := Off;
    }
  }

  class HrTimer { }

  function WithRecord(c: Chip, w: Wire): Chip { c.(wire := w) }

  /** `struct notify_info`, as far as it is modelled. */
  datatype Notify = Notify(isPdConnected: Flag, isCcConnected: Flag, source: Flag, dfp: Flag)

  class Port {
    const statics: Statics
    const timerStateMachine: HrTimer
    const timerMuxMachine: HrTimer
    var connState: ConnState
    var subState: nat
    var workContinue: Flag
    var delayCc: Flag
    var txState: Tx
    var timerState: int
    var timerMux: int
    var hardrstCount: int
    var capsCounter: int
    var vbusBegin: Flag
    var isPdSupport: Flag
    var notify: Notify
    var role: Role
    var tryRole: Role
    var tryRoleComplete: Flag
    var ccState: CcState
    var cc1: int
    var cc2: int
    var debounceCnt: int
    ghost var wire: Wire

    ghost function View(): Chip
      reads this, statics
    {
      Chip(connState, subState, workContinue, delayCc, txState, timerState, timerMux, statics.retry,
           hardrstCount, capsCounter, vbusBegin, isPdSupport, notify.isPdConnected, notify.isCcConnected,
           notify.source, notify.dfp, role, tryRole, tryRoleComplete, ccState, cc1, cc2, debounceCnt, wire)
    }

    /** `fusb30x_probe`: all fields are zero, and the timers are not running. */
    constructor Probe(statics: Statics, role: Role, tryRole: Role)
      ensures this.statics == statics
      ensures View() == PdPort.Probe(role, tryRole).(retry := statics.retry)
      ensures fresh(timerStateMachine) && fresh(timerMuxMachine) && timerStateMachine != timerMuxMachine
    {
      this.statics := statics;
      timerStateMachine, timerMuxMachine := new HrTimer, new HrTimer;
      connState, subState, workContinue, delayCc := Unattached, 0, Off, Off;
      txState, timerState, timerMux := TxIdle, T_DISABLED, T_DISABLED;
      hardrstCount, capsCounter, vbusBegin := 0, 0, Off;
      isPdSupport, notify := Off, Notify(Off, Off, Off, Off);
      this.role, this.tryRole, tryRoleComplete := role, tryRole, Off;
      ccState, cc1, cc2, debounceCnt := NO_CC, 0, 0, 0;
      wire := Wire(0, 0, 0, 0, 0, Off, Off);
    }

    /** Only the record of what happened changes. */
    ghost method SetRecord(w: Wire)
      modifies this`wire
      ensures View() == WithRecord(old(View()), w)
    {
      wire := w;
    }

    method SetState(s: ConnState)
      modifies this
      ensures View() == PdPort.SetState(old(View()), s)
    {
      connState := s;
      subState := 0;
      workContinue := On;
    }

    method TcpmInit()
      modifies this
      ensures View() == PdPort.TcpmInit(old(View()))
    {
      notify := notify.(isCcConnected := Off);
      ccState := NO_CC;
      wire := wire.(owed := 0);
    }

    method SetStateUnattached()
      modifies this
      ensures View() == PdPort.SetStateUnattached(old(View()))
    {
      TcpmInit();
      SetState(Unattached);
      notify := Notify(Off, Off, Off, Off);
      tryRoleComplete := Off;
      wire := Wire(0, 0, 0, 0, 0, Off, Off);
    }

    method ExecuteHardReset()
      modifies this
      ensures View() == PdPort.ExecuteHardReset(old(View()))
    {
      if notify.source.On? { SetState(SrcTransitionDefault); } else { SetState(SnkTransitionDefault); }
    }

    method TryAttachSet(mode: Role)
      modifies this
      ensures View() == PdPort.TryAttachSet(old(View()), mode)
    {
      if mode.RoleNone? || mode.RoleDrp? || mode.RoleAss? { return; }
      TcpmInit();
      timerMux := T_PD_TRY_DRP;
      wire := wire.(trials := wire.trials + 1);
      SetState(if mode.RoleDfp? then AttachTrySrc else AttachTrySnk);
    }

    method SendData()
      modifies this
      ensures View() == PdPort.SendData(old(View()))
    {
      if txState.TxIdle? { txState := TxBusy; }
    }

    method SendHardrst(v: Events)
      modifies this
      ensures View() == PdPort.SendHardrst(old(View()), v)
    {
      if txState.TxIdle? {
        txState := TxBusy;
        timerState := T_BMC_TIMEOUT;
        wire := wire.(owed := wire.owed + 1, hardResets := wire.hardResets + 1);
      } else if v.timerState {
        txState := TxSuccess;
      }
    }

    // ----- interrupts and timers

    /** The controller raises HARDSENT only for a hard reset it was told to send. */
    method TcpcAlert(e: Env) returns (v: Events)
      requires e.hardSent ==> wire.owed > 0
      modifies this, statics
      ensures View() == PdPort.TcpcAlert(old(View()), e)
      ensures v == TcpcEvents(old(View()), e)
    {
      ghost var c := View();
      var cc := (e.compChange && !ccState.ufp) || (e.vbusChange && notify.isCcConnected.On?);
      var tx := e.txSent || e.retryFail;
      Alerts(e);
      hide Alerted, PdPort.AlertHardSent;
      AlertedSees(c, e);
      if e.hardSent {
        var counted := AlertHardSent();
        tx := tx || counted;
      }
      v := Events(cc || e.toggleDone, e.received, tx, e.hardReset, false, false, false, false);
    }

    /** All interrupts but HARDSENT. */
    method Alerts(e: Env)
      modifies this
      ensures View() == Alerted(old(View()), e)
    {
      ghost var c := View();
      if e.toggleDone { ccState := e.toggled; }
      if e.txSent { txState := TxSuccess; }
      assert View() == AlertTx(AlertToggle(c, e), e);
      hide AlertToggle, AlertTx;
      if e.hardReset {
        wire := wire.(heard := On);
        ExecuteHardReset();
      }
      assert View() == AlertHardReset(AlertTx(AlertToggle(c, e), e), e);
      hide AlertHardReset, PdPort.ExecuteHardReset;
      wire := wire.(heard := if e.received then On else wire.heard);
      if e.retryFail { txState := TxFailed; }
    }

    /** The first HARDSENT resynchronises the controller, the next one counts, and
        "first" and "next" are those of whichever port comes by. */
    method AlertHardSent() returns (counted: bool)
      requires wire.owed > 0
      modifies this, statics
      ensures forall e: Env :: e.hardSent ==> View() == PdPort.AlertHardSent(old(View()), e)
      ensures counted == old(statics.retry).On?
    {
      wire := wire.(owed := wire.owed - 1);
      counted := statics.retry.On?;
      if !counted {
        statics.retry := On;
        ExecuteHardReset();
      } else {
        statics.retry := Off;
        txState := TxSuccess;
        timerState := T_DISABLED;
      }
    }

    method MuxAlert(v0: Events) returns (v: Events)
      modifies this
      ensures View() == PdPort.MuxAlert(old(View()))
      ensures v == MuxEvents(old(View()), v0)
    {
      var mux, state, work, delay := false, false, false, false;
      if timerMux == 0 { mux := true; timerMux := T_DISABLED; }
      if timerState == 0 { state := true; timerState := T_DISABLED; }
      if workContinue.On? || delayCc.On? {
        work, delay := workContinue.On?, delayCc.On?;
        workContinue, delayCc := Off, Off;
      }
      v := Events(v0.cc, v0.rx, v0.tx, v0.reset, work, mux, state, delay);
    }

    method TryDetach(e: Env)
      modifies this
      ensures View() == PdPort.TryDetach(old(View()), e)
    {
      if ccState.ufp && !VbusMayDrop(connState) {
        if !e.vbusAtDetach { SetStateUnattached(); }
      } else if !CcMayOpen(connState) {
        var cc := e.cc1;
        if ccState.cc2 { cc := e.cc2; }
        if cc == CC_OPEN { SetStateUnattached(); }
      } else {
        delayCc := On;
      }
    }

    // ----- attach handlers

    method StartDebounce(e: Env)
      modifies this
      ensures View() == PdPort.StartDebounce(old(View()), e)
    {
      cc1, cc2 := e.cc1, e.cc2;
      debounceCnt := 0;
      timerMux := 2;
    }

    method HandleUnattached(e: Env, v: Events)
      modifies this
      ensures View() == PdPort.HandleUnattached(old(View()), e, v)
    {
      notify, isPdSupport := notify.(isCcConnected := Off), Off;
      if v.cc && ccState != NO_CC {
        vbusBegin := AsFlag(e.vbus);
        SetState(if ccState.ufp then AttachWaitSink else AttachWaitSource);
        StartDebounce(e);
      }
    }

    method Debounce(e: Env)
      modifies this
      ensures View() == PdPort.Debounce(old(View()), e)
    {
      if cc1 == e.cc1 && cc2 == e.cc2 {
        debounceCnt := debounceCnt + 1;
      } else {
        cc1, cc2, debounceCnt := e.cc1, e.cc2, 0;
      }
    }

    method HandleAttachWaitSink(e: Env, v: Events)
      modifies this
      ensures View() == PdPort.HandleAttachWaitSink(old(View()), e, v)
    {
      if v.timerMux {
        if e.vbus {
          timerMux := T_DISABLED;
          if role.RoleDrp? && tryRole.RoleDfp? && tryRoleComplete.Off? {
            TryAttachSet(RoleDfp);
            return;
          } else if tryRoleComplete.On? {
            timerMux := T_PD_SOURCE_ON;
            SetState(AttachedSink);
            return;
          }
        }
        Debounce(e);
        if debounceCnt > N_DEBOUNCE_CNT {
          timerMux := T_DISABLED;
          if (cc1 == CC_RP && cc2 == CC_OPEN) || (cc2 == CC_RP && cc1 == CC_OPEN) {
            timerMux := T_PD_SOURCE_ON;
            SetState(AttachedSink);
          } else {
            SetStateUnattached();
          }
          return;
        }
        timerMux := 2;
      }
    }

    method HandleAttachWaitSource(e: Env, v: Events)
      modifies this
      ensures View() == PdPort.HandleAttachWaitSource(old(View()), e, v)
    {
      if v.timerMux {
        Debounce(e);
        if debounceCnt > N_DEBOUNCE_CNT {
          if (cc1 == CC_OPEN || cc2 == CC_OPEN) && (cc1 == CC_RD || cc2 == CC_RD) {
            if role.RoleDrp? && tryRole.RoleUfp? && tryRoleComplete.Off? {
              TryAttachSet(RoleUfp);
            } else {
              SetState(AttachedSource);
            }
          } else {
            SetStateUnattached();
          }
          return;
        }
        timerMux := 2;
      }
    }

    method HandleAttachedSource()
      modifies this
      ensures View() == PdPort.HandleAttachedSource(old(View()))
    {
      notify := notify.(isCcConnected := On);
      notify := notify.(source := On, dfp := On);
      hardrstCount := 0;
      SetState(SrcStartup);
    }

    method SinkAttached()
      modifies this
      ensures View() == PdPort.SinkAttached(old(View()))
    {
      tryRoleComplete := On;
      notify := notify.(isCcConnected := On);
      notify := notify.(source := Off, dfp := Off);
      hardrstCount := 0;
      wire := wire.(hardResets := 0, foreign := 0, sinkAttach := On, heard := Off);
      SetState(SnkStartup);
    }

    method HandleAttachedSink(e: Env, v: Events)
      modifies this
      ensures View() == PdPort.HandleAttachedSink(old(View()), e, v)
    {
      hide PdPort.TryAttachSet, PdPort.SetStateUnattached, PdPort.SinkAttached;
      if e.vbus {
        timerMux, timerState := T_DISABLED, T_DISABLED;
        if tryRoleComplete.Off? && tryRole.RoleDfp? && role.RoleDrp? {
          TryAttachSet(RoleDfp);
          return;
        }
        SinkAttached();
        return;
      } else if v.timerMux {
        SetStateUnattached();
        return;
      }
      timerState := 2;
    }

    method HandleTryAttach(e: Env, v: Events, mode: Role)
      modifies this
      ensures View() == PdPort.HandleTryAttach(old(View()), e, v, mode)
    {
      if v.cc && ccState != NO_CC {
        tryRoleComplete := On;
        SetState(TrialResult(ccState.ufp, mode));
        StartDebounce(e);
      } else if v.timerMux {
        if tryRoleComplete.Off? {
          tryRoleComplete := On;
          hide PdPort.TryAttachSet;
          TryAttachSet(if mode.RoleDfp? then RoleUfp else RoleDfp);
        } else {
          SetState(ErrorRecovery);
        }
      }
    }

    // ----- source handlers

    method HandleSrcStartup()
      modifies this
      ensures View() == PdPort.HandleSrcStartup(old(View()))
    {
      notify := notify.(isPdConnected := Off);
      capsCounter := 0;
      wire := wire.(sourceCaps := 0);
      SetState(SrcSendCaps);
    }

    method SourceNoResponse()
      modifies this
      ensures View() == PdPort.SourceNoResponse(old(View()))
    {
      if isPdSupport.Off? { SetState(Disabled); }
      else if hardrstCount > N_HARDRESET_COUNT { SetState(ErrorRecovery); }
      else { SetState(SrcSendHardrst); }
    }

    method HandleSrcDiscovery(v: Events)
      modifies this
      ensures View() == PdPort.HandleSrcDiscovery(old(View()), v)
    {
      if subState == 0 {
        capsCounter := capsCounter + 1;
        if capsCounter < N_CAPS_COUNT {
          timerState := T_TYPEC_SEND_SOURCECAP;
          subState := 1;
        } else {
          SetState(Disabled);
        }
      } else if v.timerState {
        SetState(SrcSendCaps);
      } else if v.timerMux {
        SourceNoResponse();
      }
    }

    method HandleSrcSendCaps(e: Env, v: Events)
      modifies this
      ensures View() == PdPort.HandleSrcSendCaps(old(View()), e, v)
    {
      if subState <= 1 {
        SendCaps();
        if txState.TxFailed? {
          SetState(SrcDiscovery);
          return;
        }
        CapsSent();
        hide PdPort.SendCaps, StartSend, PdPort.CapsSent;
        if !v.Flag() { return; }
      }
      hide PdPort.SendCaps, StartSend, PdPort.CapsSent;
      if v.rx {
        if IsData(e.message, DMT_REQUEST) { SetState(SrcNegotiateCap); } else { SetState(SrcSendSoftrst); }
      } else if v.timerState {
        if hardrstCount <= N_HARDRESET_COUNT { SetState(SrcSendHardrst); } else { SetState(Disabled); }
      } else if v.timerMux {
        SourceNoResponse();
      }
    }

    method SendCaps()
      modifies this
      ensures View() == PdPort.SendCaps(StartSend(old(View())))
    {
      if subState == 0 { subState := 1; txState := TxIdle; }
      if txState.TxIdle? { wire := wire.(sourceCaps := wire.sourceCaps + 1); }
      SendData();
    }

    method CapsSent()
      modifies this
      ensures View() == PdPort.CapsSent(old(View()))
    {
      if txState.TxSuccess? {
        hardrstCount := 0;
        capsCounter := 0;
        timerState := T_SENDER_RESPONSE;
        timerMux := T_DISABLED;
        subState := subState + 1;
        isPdSupport := On;
      }
    }

    method HandleSrcTransitionDefault(v: Events)
      modifies this
      ensures View() == PdPort.HandleSrcTransitionDefault(old(View()), v)
    {
      if subState == 0 {
        notify := notify.(isPdConnected := Off);
        timerState := T_SRC_RECOVER;
        subState := subState + 1;
      } else if v.timerState {
        timerMux := T_NO_RESPONSE;
        SetState(SrcStartup);
      }
    }

    method HandleSendHardrst(v: Events, sink: bool)
      modifies this
      ensures View() == PdPort.HandleSendHardrst(old(View()), v, sink)
    {
      if subState == 0 { txState := TxIdle; subState := subState + 1; }
      SendHardrst(v);
      if txState.TxSuccess? {
        hardrstCount := hardrstCount + 1;
        SetState(if sink then SnkTransitionDefault else SrcTransitionDefault);
      } else if txState.TxFailed? {
        SetState(ErrorRecovery);
      }
    }

    method SoftResetDone(sink: bool)
      modifies this
      ensures View() == PdPort.SoftResetDone(old(View()), sink)
    {
      capsCounter := 0;
      if sink { timerState := T_TYPEC_SINK_WAIT_CAP; }
      SetState(if sink then SnkWaitCaps else SrcSendCaps);
    }

    method SendSoftrst(sink: bool)
      modifies this
      ensures View() == PdPort.SendSoftrst(old(View()), sink)
    {
      ghost var c := View();
      if subState == 0 { txState := TxIdle; subState := subState + 1; }
      SendData();
      assert View() == Transmit(c);
      hide Transmit;
      if txState.TxSuccess? {
        timerState := T_SENDER_RESPONSE;
        subState := 2;
      } else if txState.TxFailed? {
        SetState(HardrstState(sink));
      }
    }

    method HandleSendSoftrst(e: Env, v: Events, sink: bool)
      modifies this
      ensures View() == PdPort.HandleSendSoftrst(old(View()), e, v, sink)
    {
      if subState <= 1 {
        SendSoftrst(sink);
        hide PdPort.SendSoftrst;
        if !v.Flag() { return; }
      }
      hide PdPort.SendSoftrst, PdPort.AwaitAccept;
      AwaitAccept(e, v, sink);
    }

    method AwaitAccept(e: Env, v: Events, sink: bool)
      modifies this
      ensures View() == PdPort.AwaitAccept(old(View()), e, v, sink)
    {
      hide PdPort.SoftResetDone;
      if v.rx {
        if IsControl(e.message, CMT_ACCEPT) { SoftResetDone(sink); }
      } else if v.timerState {
        SetState(HardrstState(sink));
      }
    }

    method HandleSoftrst(sink: bool)
      modifies this
      ensures View() == PdPort.HandleSoftrst(old(View()), sink)
    {
      ghost var c := View();
      if subState == 0 { txState := TxIdle; subState := subState + 1; }
      SendData();
      assert View() == Transmit(c);
      hide Transmit, PdPort.SoftResetDone;
      if txState.TxSuccess? { SoftResetDone(sink); }
      else if txState.TxFailed? { SetState(HardrstState(sink)); }
    }

    // ----- sink handlers

    method HandleSnkStartup()
      modifies this
      ensures View() == PdPort.HandleSnkStartup(old(View()))
    {
      notify := notify.(isPdConnected := Off);
      capsCounter := 0;
      SetState(SnkDiscovery);
    }

    method HandleSnkDiscovery()
      modifies this
      ensures View() == PdPort.HandleSnkDiscovery(old(View()))
    {
      SetState(SnkWaitCaps);
      timerState := T_TYPEC_SINK_WAIT_CAP;
    }

    method HandleSnkWaitCaps(e: Env, v: Events)
      modifies this
      ensures View() == PdPort.HandleSnkWaitCaps(old(View()), e, v)
    {
      if v.rx {
        if IsData(e.message, DMT_SOURCECAPABILITIES) {
          isPdSupport := On;
          timerMux := T_DISABLED;
          SetState(SnkEvaluateCaps);
        }
      } else if v.timerState {
        if hardrstCount <= N_HARDRESET_COUNT {
          if vbusBegin.On? {
            vbusBegin := Off;
            SetState(SnkSendSoftrst);
          } else {
            SetState(SnkSendHardrst);
          }
        } else if isPdSupport.On? {
          SetState(ErrorRecovery);
        } else {
          SetState(Disabled);
        }
      } else if v.timerMux && hardrstCount > N_HARDRESET_COUNT {
        if isPdSupport.On? { SetState(ErrorRecovery); } else { SetState(Disabled); }
      }
    }

    method HandleSnkTransitionDefault(e: Env, v: Events)
      modifies this
      ensures View() == PdPort.HandleSnkTransitionDefault(old(View()), e, v)
    {
      if subState == 0 {
        notify := notify.(isPdConnected := Off);
        timerMux := T_NO_RESPONSE;
        timerState := T_PS_HARD_RESET_MAX + T_SAFE_0V;
        subState := subState + 1;
      }
      if subState == 1 {
        if !e.vbus {
          subState := subState + 1;
          timerState := T_SRC_RECOVER_MAX + T_SRC_TURN_ON;
        } else if v.timerState {
          SetState(SnkStartup);
        }
      } else if e.vbus {
        timerState := T_DISABLED;
        SetState(SnkStartup);
      } else if v.timerState {
        SetState(SnkStartup);
      }
    }

    /** The message-driven handlers, whose outcome the environment supplies. */
    method HandleOther(e: Env)
      modifies this
      ensures View() == PdPort.HandleOther(old(View()), e)
    {
      if PolicyExit(e.other.connState) {
        AdoptState(e.other);
        AdoptTimers(e.other);
        AdoptCable(e.other);
        AdoptCc(e.other);
      }
    }

    method AdoptState(o: Chip)
      modifies this
      ensures View() == PdPort.AdoptState(old(View()), o)
    {
      connState, subState, workContinue, delayCc := o.connState, o.subState, o.workContinue, o.delayCc;
    }

    method AdoptTimers(o: Chip)
      modifies this
      ensures View() == PdPort.AdoptTimers(old(View()), o)
    {
      txState, timerState, timerMux := o.txState, o.timerState, o.timerMux;
      hardrstCount, capsCounter := o.hardrstCount, o.capsCounter;
    }

    method AdoptCable(o: Chip)
      modifies this
      ensures View() == PdPort.AdoptCable(old(View()), o)
    {
      vbusBegin, isPdSupport := o.vbusBegin, o.isPdSupport;
      notify := Notify(o.isPdConnected, o.isCcConnected, o.source, o.dfp);
    }

    method AdoptCc(o: Chip)
      modifies this
      ensures View() == PdPort.AdoptCc(old(View()), o)
    {
      ccState, cc1, cc2, debounceCnt := o.ccState, o.cc1, o.cc2, o.debounceCnt;
    }

    // ----- one run of the work function

    method Dispatch(e: Env, v: Events)
      modifies this
      ensures View() == PdPort.Dispatch(old(View()), e, v)
    {
      match connState
      case Disabled =>
      case ErrorRecovery => SetStateUnattached();
      case Unattached => HandleUnattached(e, v);
      case AttachWaitSink => HandleAttachWaitSink(e, v);
      case AttachWaitSource => HandleAttachWaitSource(e, v);
      case AttachedSource => HandleAttachedSource();
      case AttachedSink => HandleAttachedSink(e, v);
      case AttachTrySrc => HandleTryAttach(e, v, RoleDfp);
      case AttachTrySnk => HandleTryAttach(e, v, RoleUfp);
      case SrcStartup => HandleSrcStartup();
      case SrcDiscovery => HandleSrcDiscovery(v);
      case SrcSendCaps =>
        HandleSrcSendCaps(e, v);
        if connState.SrcNegotiateCap? { HandleOther(e); }
      case SrcTransitionDefault => HandleSrcTransitionDefault(v);
      case SrcSendHardrst => HandleSendHardrst(v, false);
      case SrcSendSoftrst => HandleSendSoftrst(e, v, false);
      case SrcSoftrst => HandleSoftrst(false);
      case SnkStartup => HandleSnkStartup();
      case SnkDiscovery => HandleSnkDiscovery();
      case SnkWaitCaps => HandleSnkWaitCaps(e, v);
      case SnkTransitionDefault => HandleSnkTransitionDefault(e, v);
      case SnkSendHardrst => HandleSendHardrst(v, true);
      case SnkSendSoftrst => HandleSendSoftrst(e, v, true);
      case SnkSoftrst => HandleSoftrst(true);
      case _ => HandleOther(e);
    }

    /** `state_machine_typec`, after `fusb_timer_handler` has marked the timers that ran out. */
    method StateMachineTypec(e: Env)
      requires View() == Expire(View(), e)
      requires e.hardSent ==> wire.owed > 0
      modifies this, statics
      ensures View() == Step(old(View()), e)
    {
      var v := TcpcAlert(e);
      v := MuxAlert(v);
      ghost var m := View();
      assert m == Collect(old(View()), e) && v == Observed(old(View()), e);
      hide Collect, Observed, PdPort.MuxAlert, PdPort.TcpcAlert, MuxEvents, TcpcEvents, Expire, PdPort.Dispatch;
      if v.Any() {
        if notify.isCcConnected.On? && (v.cc || v.delayCc) { TryDetach(e); }
        if v.rx && IsControl(e.message, CMT_SOFTRESET) {
          if notify.source.On? { SetState(SrcSoftrst); } else { SetState(SnkSoftrst); }
        }
        assert View() == Settle(m, e, v);
        Dispatch(e, v);
      }
    }
  }

  /** What a timer does to the port it belongs to. */
  ghost function Fired(p: Port, t: HrTimer, c: Chip): Chip {
    Expire(c, PdAttained.Quiet.(stateTimer := t == p.timerStateMachine, muxTimer := t == p.timerMuxMachine))
  }

  ghost predicate Apart(p: Port, q: Port) {
    && p != q && p.timerStateMachine != q.timerStateMachine && p.timerStateMachine != q.timerMuxMachine
    && p.timerMuxMachine != q.timerStateMachine && p.timerMuxMachine != q.timerMuxMachine
  }

  ghost function Noticed(c: Chip, sent: bool, retry: Flag): Chip { Notice(c, sent).(retry := retry) }

  lemma ExpireTwice(c: Chip, e: Env)
    ensures Expire(Expire(c, e), e) == Expire(c, e)
    ensures Step(Expire(c, e), e) == Step(c, e) && HardSent(Expire(c, e), e) == HardSent(c, e)
  {
    hide TcpcAlert, MuxAlert, Dispatch, Settle;
  }

  lemma NewPort(config: Config, roles: (Role, Role), ws: seq<Work>)
    requires Within(ws, |config|)
    ensures Within(ws, |config| + 1)
    ensures var s, late := SystemRun(Start(config), ws), SystemRun(Start(config + [roles]), ws);
            && late.retry == s.retry
            && PdSystem.View(late, |config|)
               == WithRecord(PdPort.Probe(roles.0, roles.1).(retry := s.retry), PdSystem.View(late, |config|).wire)
  {
    hide SystemRun, Start;
    LateProbe(config, roles, ws);
  }

  lemma OldPort(config: Config, roles: (Role, Role), ws: seq<Work>, j: nat)
    requires Within(ws, |config|) && j < |config|
    ensures Within(ws, |config| + 1)
    ensures PdSystem.View(SystemRun(Start(config + [roles]), ws), j) == PdSystem.View(SystemRun(Start(config), ws), j)
  {
    hide SystemRun, Start;
    LateProbe(config, roles, ws);
    assert SystemRun(Start(config + [roles]), ws).chips[..|config|][j] == SystemRun(Start(config), ws).chips[j];
  }

  /** One more work item, as each port sees it. */
  lemma OneMore(s: System, ws: seq<Work>, w: Work, j: nat)
    requires Within(ws, |s.chips|) && w.port < |s.chips| && j < |s.chips|
    ensures Within(ws + [w], |s.chips|)
    ensures var before, after := SystemRun(s, ws), SystemRun(s, ws + [w]);
            var c := PdSystem.View(before, w.port);
            && after.retry == Step(c, w.env).retry
            && PdSystem.View(after, j) ==
               if j == w.port then Step(c, w.env)
               else Noticed(PdSystem.View(before, j), HardSent(c, w.env), after.retry)
  {
    hide Step;
    assert (ws + [w])[..|ws|] == ws;
  }

  /** What the results about runs say of one port among many. */
  ghost predicate Kept(c: Chip, alone: bool) {
    && c.wire.trials <= 2 && PdAttach.Awake(c)
    && (PdHardReset.Silent(c) ==> c.wire.hardResets <= 2 + if alone then 0 else c.wire.foreign)
  }

  lemma EveryPortKept(config: Config, ws: seq<Work>, j: nat)
    requires Within(ws, |config|) && j < |config|
    ensures Kept(PdSystem.View(SystemRun(Start(config), ws), j), |config| == 1)
  {
    hide Step, Run, SystemRun, TurnsOf;
    EveryPortBounded(config, ws, j);
    Projection(Start(config), ws, j);
    PdAttach.NeverAsleep(config[j].0, config[j].1, TurnsOf(Start(config), ws, j));
    if |config| == 1 { AloneIsBounded(config, ws); }
  }

  /** All ports probed so far. */
  class Driver {
    const statics: Statics
    var ports: seq<Port>
    ghost var config: Config
    ghost var works: seq<Work>

    ghost predicate Shape()
      reads this
    {
      && |ports| <= 255
      && (forall j :: 0 <= j < |ports| ==> ports[j].statics == statics)
      && (forall j :: 0 <= j < |ports| ==> ports[j].timerStateMachine != ports[j].timerMuxMachine)
      && (forall j, k :: 0 <= j < k < |ports| ==> Apart(ports[j], ports[k]))
    }

    /** The objects are where the queued work items have led the system of `PdSystem`. */
    ghost predicate Valid()
      reads this, statics, ports
    {
      && Shape() && |config| == |ports| && Within(works, |ports|)
      && var s := SystemRun(Start(config), works);
         && statics.retry == s.retry
         && forall j :: 0 <= j < |ports| ==> ports[j].View() == PdSystem.View(s, j)
    }

    constructor ()
      ensures Valid() && fresh(statics) && ports == [] && works == []
    {
      statics := new Statics();
      ports, config, works := [], [], [];
    }

    /** `fusb_timer_handler`: looks for the port the timer belongs to. */
    method TimerHandler(t: HrTimer) returns (i: nat)
      requires Shape()
      modifies ports
      ensures i <= |ports| && (forall j :: 0 <= j < |ports| ==> ports[j].wire == old(ports[j].wire))
      ensures forall j :: 0 <= j < |ports| ==> ports[j].View() == Fired(ports[j], t, old(ports[j].View()))
      ensures i < |ports| ==> t == ports[i].timerStateMachine || t == ports[i].timerMuxMachine
      ensures i == |ports| ==> forall j :: 0 <= j < |ports| ==>
                t != ports[j].timerStateMachine && t != ports[j].timerMuxMachine
    {
      i := 0;
      while i < |ports|
        invariant i <= |ports|
        invariant forall j :: 0 <= j < i ==> t != ports[j].timerStateMachine && t != ports[j].timerMuxMachine
        invariant forall j :: 0 <= j < |ports| ==> ports[j].View() == old(ports[j].View())
        invariant forall j :: 0 <= j < |ports| ==> ports[j].wire == old(ports[j].wire)
      {
        if t == ports[i].timerStateMachine {
          if ports[i].timerState != T_DISABLED { ports[i].timerState := 0; }
          break;
        }
        if t == ports[i].timerMuxMachine {
          if ports[i].timerMux != T_DISABLED { ports[i].timerMux := 0; }
          break;
        }
        i := i + 1;
      }
    }

    /** `fusb30x_probe`, which refuses the 256th port. */
    method Probe(role: Role, tryRole: Role) returns (ok: bool)
      requires Valid()
      modifies this
      ensures Valid() && works == old(works)
      ensures ok == (|old(ports)| < 0xff)
      ensures ok ==> config == old(config) + [(role, tryRole)] && |ports| == |old(ports)| + 1
      ensures ok ==> fresh(ports[|ports|-1]) && ports[..|ports|-1] == old(ports)
      ensures !ok ==> config == old(config) && ports == old(ports)
    {
      hide SystemRun, Start, PdSystem.View, PdPort.Probe;
      if |ports| == 0xff { return false; }
      var p := new Port.Probe(statics, role, tryRole);
      NewPort(config, (role, tryRole), works);
      forall j | 0 <= j < |ports| {
        OldPort(config, (role, tryRole), works, j);
      }
      config := config + [(role, tryRole)];
      p.SetRecord(PdSystem.View(SystemRun(Start(config), works), |ports|).wire);
      ports := ports + [p];
      ok := true;
    }

    /** The interrupts of port i's two timers, as far as they ran out. */
    method FireTimers(i: nat, e: Env)
      requires Shape() && i < |ports|
      modifies ports
      ensures ports[i].View() == Expire(old(ports[i].View()), e) && ports[i].wire == old(ports[i].wire)
      ensures forall j :: 0 <= j < |ports| && j != i ==> ports[j].View() == old(ports[j].View())
    {
      if e.stateTimer {
        var k := TimerHandler(ports[i].timerStateMachine);
      }
      if e.muxTimer {
        var k := TimerHandler(ports[i].timerMuxMachine);
      }
    }

    /** Port i's work function runs; the others may find the flag changed. */
    method RunPort(i: nat, e: Env)
      requires Shape() && i < |ports|
      requires ports[i].View() == Expire(ports[i].View(), e)
      requires e.hardSent ==> ports[i].wire.owed > 0
      modifies statics, ports
      ensures ports[i].View() == Step(old(ports[i].View()), e) && statics.retry == ports[i].View().retry
      ensures forall j :: 0 <= j < |ports| && j != i ==>
                ports[j].View() == Noticed(old(ports[j].View()), HardSent(old(ports[i].View()), e), statics.retry)
    {
      hide Step, Expire;
      ghost var sent := HardSent(ports[i].View(), e);
      ports[i].StateMachineTypec(e);
      forall j | 0 <= j < |ports| && j != i {
        ports[j].wire := Notice(ports[j].View(), sent).wire;
      }
    }

    /** A queued work item: the timers that ran out are marked, and port i's work function
        runs. Whatever was queued before it, every port keeps every bound. */
    method Work(i: nat, e: Env)
      requires Valid() && i < |ports|
      requires e.hardSent ==> ports[i].wire.owed > 0
      modifies this`works, statics, ports
      ensures Valid() && config == old(config) && works == old(works) + [PdSystem.Work(i, e)]
      ensures forall j :: 0 <= j < |ports| ==> Kept(ports[j].View(), |ports| == 1)
    {
      hide Step, SystemRun, Start, Expire, Kept, HardSent, Noticed, PdSystem.View, Port.View;
      ghost var w := PdSystem.Work(i, e);
      ghost var c := ports[i].View();
      ExpireTwice(c, e);
      ExpireSees(c, e);
      FireTimers(i, e);
      RunPort(i, e);
      forall j | 0 <= j < |ports| {
        OneMore(Start(config), works, w, j);
      }
      works := works + [w];
      forall j | 0 <= j < |ports| {
        EveryPortKept(config, works, j);
      }
    }
  }
}
