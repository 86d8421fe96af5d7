/** Which driver configurations hold a silent sink to two hard resets: one port, or
    ports that are never sinks. Every other one has a run in which three are sent. */
module PdRoles {
  import opened PdAttained
  import opened PdFrame
  import opened PdHardReset
  import opened PdPort
  import opened PdSystem

  /** What probe takes from the device tree. */
  predicate Probed(config: Config) {
    forall k | 0 <= k < |config| ::
      var (role, tryRole) := config[k];
      && (role.RoleDrp? || role.RoleUfp? || role.RoleDfp?)
      && (tryRole.RoleNone? || tryRole.RoleUfp? || tryRole.RoleDfp?)
  }

  /** Toggling finds only the role a port is set to (`tcpm_set_cc`). */
  predicate Fits(role: Role, e: Env) {
    e.toggleDone ==>
      && (e.toggled.ufp ==> !role.RoleDfp?)
      && (e.toggled != NO_CC && !e.toggled.ufp ==> !role.RoleUfp?)
  }

  predicate FitsAll(role: Role, es: seq<Env>) { forall e | e in es :: Fits(role, e) }

  /** A port nothing has happened to yet, but for the shared flag. */
  ghost predicate Fresh(c: Chip, role: Role, tryRole: Role, r: Flag) {
    && c.connState.Unattached? && c.role == role && c.tryRole == tryRole && c.tryRoleComplete.Off?
    && c.delayCc.Off? && c.isCcConnected.Off? && c.isPdSupport.Off? && c.vbusBegin.Off? && c.source.Off?
    && c.timerState == T_DISABLED && c.timerMux == T_DISABLED && c.wire.owed == 0 && c.retry == r
  }

  // ----- attaching as a sink without a trial

  const FoundRp := Found.(cc1 := CC_RP)
  /** The debounce timer runs out, the lines have not changed, and VBUS is not up. */
  const StillRp := Mux.(cc1 := CC_RP, vbus := false)

  function Again(e: Env, n: nat): (es: seq<Env>)
    ensures |es| == n
  {
    seq(n, _ => e)
  }

  lemma AgainMore(e: Env, n: nat)
    requires n > 0
    ensures Again(e, n) == Again(e, n - 1) + [e]
  {
  }

  /** A port that does not try to be a source first, debouncing Rp on CC1. */
  ghost predicate Settling(c: Chip, s: ConnState, n: nat, r: Flag) {
    && c.connState == s && !(c.role.RoleDrp? && c.tryRole.RoleDfp?) && c.tryRoleComplete.Off?
    && c.delayCc.Off? && c.isCcConnected.Off? && c.isPdSupport.Off? && c.vbusBegin.Off? && c.source.Off?
    && c.timerState == T_DISABLED && c.timerMux != 0 && c.timerMux != T_DISABLED && c.wire.owed == 0 && c.retry == r
    && c.cc1 == CC_RP && c.cc2 == CC_OPEN && c.debounceCnt == n
  }

  lemma FindsRp(c: Chip, role: Role, tryRole: Role, r: Flag)
    requires Fresh(c, role, tryRole, r) && !(role.RoleDrp? && tryRole.RoleDfp?)
    ensures Settling(Step(c, FoundRp), AttachWaitSink, 0, r)
  {
  }

  lemma StaysRp(c: Chip, n: nat, r: Flag)
    requires Settling(c, AttachWaitSink, n, r) && n <= N_DEBOUNCE_CNT
    ensures n < N_DEBOUNCE_CNT ==> Settling(Step(c, StillRp), AttachWaitSink, n + 1, r)
    ensures n == N_DEBOUNCE_CNT ==>
              Settling(Step(c, StillRp), AttachedSink, n + 1, r) && Step(c, StillRp).workContinue.On?
  {
  }

  lemma {:induction false} StaysRpLong(c: Chip, n: nat, r: Flag)
    requires Settling(c, AttachWaitSink, 0, r) && n <= N_DEBOUNCE_CNT
    ensures Settling(Play(c, Again(StillRp, n)), AttachWaitSink, n, r)
  {
    hide Step, Settling;
    if n > 0 {
      StaysRpLong(c, n - 1, r);
      AgainMore(StillRp, n);
      PlayThen(c, Again(StillRp, n - 1), [StillRp]);
      PlayOne(Play(c, Again(StillRp, n - 1)), StillRp);
      StaysRp(Play(c, Again(StillRp, n - 1)), n - 1, r);
    }
  }

  lemma StartsDirectly(c: Chip, r: Flag)
    requires Settling(c, AttachedSink, 34, r) && c.workContinue.On?
    ensures At(Step(c, Quiet), SnkStartup, 0, 0, r, 0, 0)
  {
  }

  const DIRECT := [FoundRp] + Again(StillRp, 33) + [StillRp, Quiet] + [Quiet, Quiet]

  lemma AttachesDirectly(c: Chip, role: Role, tryRole: Role, r: Flag)
    requires Fresh(c, role, tryRole, r) && !(role.RoleDrp? && tryRole.RoleDfp?)
    ensures At(Play(c, DIRECT), SnkWaitCaps, 0, 0, r, 0, 0)
  {
    hide Step, Play, Fresh, Settling, At, Again;
    var d := Step(c, FoundRp);
    FindsRp(c, role, tryRole, r);
    PlayOne(c, FoundRp);
    StaysRpLong(d, 33, r);
    var f := Play(d, Again(StillRp, 33));
    StaysRp(f, 33, r);
    StartsDirectly(Step(f, StillRp), r);
    PlayTwo(f, StillRp, Quiet);
    var g := Play(f, [StillRp, Quiet]);
    WaitsForCaps(g, 0, r, 0);
    PlayTwo(g, Quiet, Quiet);
    PlayThen(c, [FoundRp], Again(StillRp, 33));
    PlayThen(c, [FoundRp] + Again(StillRp, 33), [StillRp, Quiet]);
    PlayThen(c, [FoundRp] + Again(StillRp, 33) + [StillRp, Quiet], [Quiet, Quiet]);
  }

  /** How a port that can be a sink attaches as one: 35 equal readings, or a trial. */
  function AttachRun(role: Role, tryRole: Role): seq<Env> {
    if role.RoleDrp? && tryRole.RoleDfp? then ATTACH else DIRECT
  }

  lemma FreshJoins(c: Chip, r: Flag)
    requires Fresh(c, RoleDrp, RoleDfp, r)
    ensures Joining(c, Unattached, Off, r)
  {
  }

  lemma AttachesAny(c: Chip, role: Role, tryRole: Role, r: Flag)
    requires Fresh(c, role, tryRole, r)
    ensures At(Play(c, AttachRun(role, tryRole)), SnkWaitCaps, 0, 0, r, 0, 0)
  {
    hide Play, At, Fresh, Joining;
    if role.RoleDrp? && tryRole.RoleDfp? {
      FreshJoins(c, r);
      Attaches(c, r);
    } else {
      AttachesDirectly(c, role, tryRole, r);
    }
  }

  // ----- a source that sends a hard reset

  const FoundRd := Quiet.(toggleDone := true, toggled := CcState(true, false, false), cc1 := CC_RD)
  const StillRd := Mux.(cc1 := CC_RD)
  const Acked := Quiet.(txSent := true)

  ghost predicate SettlingRd(c: Chip, s: ConnState, n: nat) {
    && c.connState == s && c.role.RoleDfp? && c.delayCc.Off? && c.isCcConnected.Off?
    && c.timerState == T_DISABLED && c.timerMux != 0 && c.timerMux != T_DISABLED
    && c.wire.owed == 0 && c.retry.On? && c.cc1 == CC_RD && c.cc2 == CC_OPEN && c.debounceCnt == n
  }

  lemma FindsRd(c: Chip, tryRole: Role)
    requires Fresh(c, RoleDfp, tryRole, On)
    ensures SettlingRd(Step(c, FoundRd), AttachWaitSource, 0)
  {
  }

  lemma StaysRd(c: Chip, n: nat)
    requires SettlingRd(c, AttachWaitSource, n) && n <= N_DEBOUNCE_CNT
    ensures n < N_DEBOUNCE_CNT ==> SettlingRd(Step(c, StillRd), AttachWaitSource, n + 1)
    ensures n == N_DEBOUNCE_CNT ==> Supplying(Step(c, StillRd), AttachedSource, 0, 0)
  {
  }

  lemma {:induction false} StaysRdLong(c: Chip, n: nat)
    requires SettlingRd(c, AttachWaitSource, 0) && n <= N_DEBOUNCE_CNT
    ensures SettlingRd(Play(c, Again(StillRd, n)), AttachWaitSource, n)
  {
    hide Step, SettlingRd;
    if n > 0 {
      StaysRdLong(c, n - 1);
      AgainMore(StillRd, n);
      PlayThen(c, Again(StillRd, n - 1), [StillRd]);
      PlayOne(Play(c, Again(StillRd, n - 1)), StillRd);
      StaysRd(Play(c, Again(StillRd, n - 1)), n - 1);
    }
  }

  /** A source on its way to its first hard reset, with the shared flag set. */
  ghost predicate Supplying(c: Chip, s: ConnState, sub: nat, owed: nat) {
    && c.connState == s && c.subState == sub && c.delayCc.Off? && c.wire.owed == owed && c.retry.On?
    && c.timerMux != 0 && c.timerState != 0 && (sub == 0 ==> c.workContinue.On?) && (sub == 1 ==> c.txState.TxBusy?)
    && (!s.AttachedSource? ==> c.hardrstCount == 0) && (s.SrcSendCaps? && sub == 2 ==> c.timerState != T_DISABLED)
  }

  lemma SuppliesThenAsks(c: Chip)
    requires Supplying(c, AttachedSource, 0, 0)
    ensures Supplying(Step(Step(Step(c, Quiet), Quiet), Quiet), SrcSendCaps, 1, 0)
  {
    assert Supplying(Step(c, Quiet), SrcStartup, 0, 0);
    hide HandleAttachedSource;
    assert Supplying(Step(Step(c, Quiet), Quiet), SrcSendCaps, 0, 0);
  }

  /** Its capabilities are acknowledged, no request comes, and it sends a hard reset. */
  lemma AskedInVain(c: Chip)
    requires Supplying(c, SrcSendCaps, 1, 0)
    ensures Supplying(Step(Step(Step(c, Acked), Tick), Quiet), SrcSendHardrst, 1, 1)
  {
    var d := Step(c, Acked);
    assert Supplying(d, SrcSendCaps, 2, 0);
    hide Supplying;
    VainTick(d);
    VainSend(Step(d, Tick));
  }

  lemma VainTick(c: Chip)
    requires Supplying(c, SrcSendCaps, 2, 0)
    ensures Supplying(Step(c, Tick), SrcSendHardrst, 0, 0)
  {
  }

  lemma VainSend(c: Chip)
    requires Supplying(c, SrcSendHardrst, 0, 0)
    ensures Supplying(Step(c, Quiet), SrcSendHardrst, 1, 1)
  {
  }

  lemma SourceClears(c: Chip)
    requires Supplying(c, SrcSendHardrst, 1, 1)
    ensures Step(c, Reset).retry.Off?
  {
    hide Step;
    StepFlips(c, Reset);
  }

  const SUPPLY := [FoundRd] + Again(StillRd, 33) + [StillRd] + [Quiet, Quiet, Quiet] + [Acked, Tick, Quiet] + [Reset]

  lemma SupplyClears(c: Chip, tryRole: Role)
    requires Fresh(c, RoleDfp, tryRole, On)
    ensures Play(c, SUPPLY).retry.Off?
  {
    hide Step, Play, Fresh, SettlingRd, Supplying, Again;
    FindsRd(c, tryRole);
    PlayOne(c, FoundRd);
    var d := Step(c, FoundRd);
    StaysRdLong(d, 33);
    var f := Play(d, Again(StillRd, 33));
    StaysRd(f, 33);
    PlayOne(f, StillRd);
    var g := Step(f, StillRd);
    SuppliesThenAsks(g);
    PlayThree(g, Quiet, Quiet, Quiet);
    var h := Play(g, [Quiet, Quiet, Quiet]);
    AskedInVain(h);
    PlayThree(h, Acked, Tick, Quiet);
    var i := Play(h, [Acked, Tick, Quiet]);
    SourceClears(i);
    PlayOne(i, Reset);
    PlayThen(c, [FoundRd], Again(StillRd, 33));
    PlayThen(c, [FoundRd] + Again(StillRd, 33), [StillRd]);
    PlayThen(c, [FoundRd] + Again(StillRd, 33) + [StillRd], [Quiet, Quiet, Quiet]);
    PlayThen(c, [FoundRd] + Again(StillRd, 33) + [StillRd] + [Quiet, Quiet, Quiet], [Acked, Tick, Quiet]);
    PlayThen(c, [FoundRd] + Again(StillRd, 33) + [StillRd] + [Quiet, Quiet, Quiet] + [Acked, Tick, Quiet], [Reset]);
  }

  // ----- any port clears the flag, whichever role it is set to

  function ClearRun(role: Role, tryRole: Role): seq<Env> {
    if role.RoleDfp? then SUPPLY else AttachRun(role, tryRole) + SEND + [Reset]
  }

  lemma Clears(c: Chip, role: Role, tryRole: Role)
    requires Fresh(c, role, tryRole, On)
    ensures Play(c, ClearRun(role, tryRole)).retry.Off?
  {
    hide Step, Play, Fresh, At, AttachRun;
    if role.RoleDfp? {
      SupplyClears(c, tryRole);
    } else {
      AttachesAny(c, role, tryRole, On);
      var d := Play(c, AttachRun(role, tryRole));
      Sends(d, On, 0);
      var f := Play(d, SEND);
      SentClears(f);
      PlayOne(f, Reset);
      PlayThen(c, AttachRun(role, tryRole), SEND);
      PlayThen(c, AttachRun(role, tryRole) + SEND, [Reset]);
    }
  }

  lemma SentClears(c: Chip)
    requires At(c, SnkSendHardrst, 1, 0, On, 1, 1)
    ensures Step(c, Reset).retry.Off?
  {
    hide Step;
    StepFlips(c, Reset);
  }

  // ----- the run in which three are sent

  lemma PrivateFresh(c: Chip, role: Role, tryRole: Role)
    requires Private(c) == Probe(role, tryRole)
    ensures Fresh(c, role, tryRole, c.retry)
  {
    assert Private(c).wire.owed == c.wire.owed;
  }

  function FirstPart(role: Role, tryRole: Role): seq<Env> { AttachRun(role, tryRole) + ROUND }

  /** Port i attaches and sends one that goes uncounted, port j clears the flag, and port
      i sends two more before it gives up. */
  function ThreeRun(config: Config, i: nat, j: nat): seq<Work>
    requires i < |config| && j < |config|
  {
    Solo(i, FirstPart(config[i].0, config[i].1)) + Solo(j, ClearRun(config[j].0, config[j].1)) + Solo(i, ROUND + LAST)
  }

  lemma FirstSent(c: Chip, role: Role, tryRole: Role)
    requires Fresh(c, role, tryRole, Off)
    ensures At(Play(c, FirstPart(role, tryRole)), SnkWaitCaps, 0, 0, On, 0, 1)
  {
    hide Play, At, Fresh, AttachRun;
    AttachesAny(c, role, tryRole, Off);
    UncountedRound(Play(c, AttachRun(role, tryRole)), 0);
    PlayThen(c, AttachRun(role, tryRole), ROUND);
  }

  lemma LastSent(c: Chip)
    requires At(c, SnkWaitCaps, 0, 0, Off, 0, 1)
    ensures var d := Play(c, ROUND + LAST); Silent(d) && d.wire.hardResets == 3
  {
    hide Play, At;
    UncountedRound(c, 1);
    CountedRound(Play(c, ROUND), 2);
    PlayThen(c, ROUND, LAST);
  }

  lemma StartFresh(config: Config, k: nat)
    requires k < |config|
    ensures Start(config).retry.Off? && Private(View(Start(config), k)) == Probe(config[k].0, config[k].1)
  {
  }

  /** In every configuration with a port i that can be a sink and any other port j. */
  lemma ThreeAreSent(config: Config, i: nat, j: nat)
    requires i < |config| && j < |config| && i != j
    ensures Within(ThreeRun(config, i, j), |config|)
    ensures var d := View(SystemRun(Start(config), ThreeRun(config, i, j)), i); Silent(d) && d.wire.hardResets == 3
  {
    hide Step, SystemRun, Play, At, Fresh, Start, View, Private, FirstPart, ClearRun;
    var s := Start(config);
    var a, b := FirstPart(config[i].0, config[i].1), ClearRun(config[j].0, config[j].1);
    StartFresh(config, i);
    StartFresh(config, j);
    PlainRetry(s, i);
    PrivateFresh(View(s, i), config[i].0, config[i].1);
    FirstSent(View(s, i), config[i].0, config[i].1);
    var t := SystemRun(s, Solo(i, a));
    SoloRun(s, i, a, i);
    SoloRun(s, i, a, j);
    AtRetry(View(t, i), SnkWaitCaps, 0, 0, On, 0, 1);
    PlainRetry(t, j);
    PrivateFresh(View(t, j), config[j].0, config[j].1);
    Clears(View(t, j), config[j].0, config[j].1);
    var u := SystemRun(t, Solo(j, b));
    SoloRun(t, j, b, i);
    PlainRetry(u, i);
    PrivateAt(View(t, i), View(u, i), SnkWaitCaps, 0, On, 0, 1);
    LastSent(View(u, i));
    SoloRun(u, i, ROUND + LAST, i);
    SystemRunThen(s, Solo(i, a), Solo(j, b));
    SystemRunThen(s, Solo(i, a) + Solo(j, b), Solo(i, ROUND + LAST));
  }

  // ----- which environments that takes

  /** Every toggle result is one the port's role can give. */
  predicate Real(config: Config, ws: seq<Work>)
    requires Within(ws, |config|)
  {
    forall w | w in ws :: Fits(config[w.port].0, w.env)
  }

  lemma AttachFits(role: Role, tryRole: Role)
    requires !role.RoleDfp?
    ensures FitsAll(role, FirstPart(role, tryRole)) && FitsAll(role, AttachRun(role, tryRole) + SEND + [Reset])
    ensures FitsAll(role, ROUND + LAST)
  {
  }

  lemma SupplyFits()
    ensures FitsAll(RoleDfp, SUPPLY)
  {
  }

  lemma ThreeRunReal(config: Config, i: nat, j: nat)
    requires i < |config| && j < |config| && !config[i].0.RoleDfp?
    ensures Within(ThreeRun(config, i, j), |config|) && Real(config, ThreeRun(config, i, j))
  {
    hide FirstPart, AttachRun, Fits;
    AttachFits(config[i].0, config[i].1);
    if config[j].0.RoleDfp? { SupplyFits(); } else { AttachFits(config[j].0, config[j].1); }
    SoloFits(i, FirstPart(config[i].0, config[i].1), config[i].0);
    SoloFits(j, ClearRun(config[j].0, config[j].1), config[j].0);
    SoloFits(i, ROUND + LAST, config[i].0);
  }

  lemma SoloFits(i: nat, es: seq<Env>, role: Role)
    requires FitsAll(role, es)
    ensures forall w | w in Solo(i, es) :: w.port == i && Fits(role, w.env)
  {
    forall w | w in Solo(i, es)
      ensures Fits(role, w.env)
    {
      var k :| 0 <= k < |es| && Solo(i, es)[k] == w;
      assert es[k] in es;
    }
  }

  // ----- a port that is only ever a source

  predicate SinkState(s: ConnState) {
    s.AttachWaitSink? || s.AttachedSink? || s.AttachTrySrc? || s.AttachTrySnk?
  }

  ghost predicate NeverSink(c: Chip) {
    && c.role.RoleDfp? && c.wire.sinkAttach.Off? && !SinkState(c.connState)
    && (!PolicyExit(c.connState) ==> !c.ccState.ufp)
  }

  lemma AlertedNeverSink(c: Chip, e: Env)
    requires NeverSink(c) && Fits(RoleDfp, e)
    ensures NeverSink(Alerted(c, e))
  {
    assert NeverSink(AlertHardReset(AlertTx(AlertToggle(c, e), e), e));
  }

  lemma CollectNeverSink(c: Chip, e: Env)
    requires NeverSink(c) && Fits(RoleDfp, e)
    ensures NeverSink(Collect(c, e))
  {
    hide Alerted, Fits;
    assert NeverSink(Expire(c, e));
    AlertedNeverSink(Expire(c, e), e);
  }

  lemma SettleNeverSink(c: Chip, e: Env, v: Events)
    requires NeverSink(c)
    ensures NeverSink(Settle(c, e, v))
  {
    assert NeverSink(TryDetach(c, e));
  }

  lemma AttachNeverSink(c: Chip, e: Env, v: Events)
    requires NeverSink(c)
    ensures NeverSink(SetStateUnattached(c))
    ensures c.connState.Unattached? ==> NeverSink(HandleUnattached(c, e, v))
    ensures c.connState.AttachWaitSource? ==> NeverSink(HandleAttachWaitSource(c, e, v))
    ensures c.connState.AttachedSource? ==> NeverSink(HandleAttachedSource(c))
  {
  }

  lemma DispatchNeverSink(c: Chip, e: Env, v: Events)
    requires NeverSink(c)
    ensures NeverSink(Dispatch(c, e, v))
  {
    if AttachHandled(c.connState) {
      AttachNeverSink(c, e, v);
    } else {
      hide Dispatch;
      DispatchFramed(c, e, v);
      DispatchSees(c, e, v);
    }
  }

  lemma StepNeverSink(c: Chip, e: Env)
    requires NeverSink(c) && Fits(RoleDfp, e)
    ensures NeverSink(Step(c, e))
  {
    hide Collect, Observed, Settle, Dispatch, NeverSink;
    var m, v := Collect(c, e), Observed(c, e);
    CollectNeverSink(c, e);
    SettleNeverSink(m, e, v);
    DispatchNeverSink(Settle(m, e, v), e, v);
  }

  lemma {:induction false} RunNeverSink(c: Chip, ts: seq<Turn>)
    requires NeverSink(c) && forall t | t in ts :: t.Own? ==> Fits(RoleDfp, t.env)
    ensures NeverSink(Run(c, ts))
  {
    hide Step, Fits;
    if ts != [] {
      RunNeverSink(c, ts[..|ts|-1]);
      assert ts[|ts|-1] in ts;
      if ts[|ts|-1].Own? { StepNeverSink(Run(c, ts[..|ts|-1]), ts[|ts|-1].env); }
    }
  }

  lemma {:induction false} OwnTurnsFit(config: Config, s: System, ws: seq<Work>, j: nat)
    requires |s.chips| == |config| && Within(ws, |config|) && j < |config| && Real(config, ws)
    ensures forall t | t in TurnsOf(s, ws, j) && t.Own? :: Fits(config[j].0, t.env)
  {
    hide Fits, HardSent, Step;
    if ws == [] {
      assert TurnsOf(s, ws, j) == [];
    } else {
      var before, w := ws[..|ws|-1], ws[|ws|-1];
      OwnTurnsFit(config, s, before, j);
      assert w in ws;
      forall t | t in TurnsOf(s, ws, j) && t.Own?
        ensures Fits(config[j].0, t.env)
      {
        assert t in TurnsOf(s, before, j) || (w.port == j && t == Own(w.env)) || t == Foreign;
      }
    }
  }

  lemma SourceIsNeverSilent(config: Config, ws: seq<Work>, j: nat)
    requires Within(ws, |config|) && j < |config| && Real(config, ws) && config[j].0.RoleDfp?
    ensures AtMostTwo(config, ws, j)
  {
    hide Step, Run, SystemRun, TurnsOf, Fits;
    var s := Start(config);
    Projection(s, ws, j);
    OwnTurnsFit(config, s, ws, j);
    RunNeverSink(View(s, j), TurnsOf(s, ws, j));
  }

  // ----- the configurations

  ghost predicate TwoAlways(config: Config) {
    forall ws: seq<Work>, j: nat | Within(ws, |config|) && j < |config| && Real(config, ws) :: AtMostTwo(config, ws, j)
  }

  /** A silent sink is held to two hard resets in every run of a configuration if and
      only if it has at most one port, or no port that can be a sink. */
  lemma TwoExactlyWhen(config: Config)
    requires Probed(config)
    ensures TwoAlways(config) <==> |config| <= 1 || forall k | 0 <= k < |config| :: config[k].0.RoleDfp?
  {
    hide AtMostTwo, SystemRun, Real;
    if |config| <= 1 {
      forall ws: seq<Work>, j: nat | Within(ws, |config|) && j < |config| && Real(config, ws)
        ensures AtMostTwo(config, ws, j)
      {
        AloneIsBounded(config, ws);
      }
    } else if i :| 0 <= i < |config| && !config[i].0.RoleDfp? {
      var j := if i == 0 then 1 else 0;
      ThreeRunReal(config, i, j);
      NotAtMostTwo(config, i, j);
    } else {
      forall ws: seq<Work>, j: nat | Within(ws, |config|) && j < |config| && Real(config, ws)
        ensures AtMostTwo(config, ws, j)
      {
        SourceIsNeverSilent(config, ws, j);
      }
    }
  }

  lemma NotAtMostTwo(config: Config, i: nat, j: nat)
    requires i < |config| && j < |config| && i != j
    ensures Within(ThreeRun(config, i, j), |config|) && !AtMostTwo(config, ThreeRun(config, i, j), i)
  {
    hide SystemRun, ThreeRun;
    ThreeAreSent(config, i, j);
  }

  /** Over all configurations of n ports, that is for n at most one. */
  lemma TwoOnlyAlone(n: nat)
    ensures (forall config: Config | |config| == n && Probed(config) :: TwoAlways(config)) <==> n <= 1
  {
    hide TwoAlways;
    forall config: Config | |config| == n && Probed(config)
      ensures TwoAlways(config) <==> n <= 1 || forall k | 0 <= k < n :: config[k].0.RoleDfp?
    {
      TwoExactlyWhen(config);
    }
    var sinks: Config := seq(n, k => (RoleUfp, RoleNone));
    assert Probed(sinks) && (n > 1 ==> !sinks[0].0.RoleDfp?);
  }
}
