/** Several ports under one driver. Each has its own fields, but the flag that
    remembers an uncounted HARDSENT is one variable for all of them. */
module PdSystem {
  import opened PdPort
  import opened PdFrame
  import opened PdHardReset
  import opened PdAttained
  import PdRoleTrial

  /** The ports' own `retry` fields are never read: `View` puts the shared one in. */
  datatype System = System(retry: Flag, chips: seq<Chip>)

  /** One port's work function runs. */
  datatype Work = Work(port: nat, env: Env)

  type Config = seq<(Role, Role)>

  predicate Within(ws: seq<Work>, n: nat) { forall w | w in ws :: w.port < n }

  function View(s: System, j: nat): Chip
    requires j < |s.chips|
  {
    s.chips[j].(retry := s.retry)
  }

  /** What a port's record of its attach gains when another port runs. */
  function Notice(c: Chip, sent: bool): Chip {
    if sent then c.(wire := c.wire.(foreign := c.wire.foreign + 1)) else c
  }

  function SystemStep(s: System, w: Work): (after: System)
    requires w.port < |s.chips|
    ensures |after.chips| == |s.chips|
  {
    var c := View(s, w.port);
    System(Step(c, w.env).retry,
           seq(|s.chips|, j requires 0 <= j < |s.chips| =>
             if j == w.port then Step(c, w.env) else Notice(s.chips[j], HardSent(c, w.env))))
  }

  function SystemRun(s: System, ws: seq<Work>): (after: System)
    requires Within(ws, |s.chips|)
    ensures |after.chips| == |s.chips|
  {
    if ws == [] then s else SystemStep(SystemRun(s, ws[..|ws|-1]), ws[|ws|-1])
  }

  function Start(config: Config): (s: System)
    ensures |s.chips| == |config|
  {
    System(Off, seq(|config|, j requires 0 <= j < |config| => Probe(config[j].0, config[j].1)))
  }

  // ----- what a port can notice of the others

  /** Nothing but a HARDSENT changes `retry`, a port never counts its own, and its role
      is set for good. */
  ghost predicate Sees(c: Chip, d: Chip) {
    d.retry == c.retry && d.wire.foreign <= c.wire.foreign && d.role == c.role
  }

  lemma AttachHandlersSee(c: Chip, e: Env, v: Events)
    ensures Sees(c, SetStateUnattached(c)) && Sees(c, HandleUnattached(c, e, v))
    ensures Sees(c, HandleAttachWaitSink(c, e, v)) && Sees(c, HandleAttachWaitSource(c, e, v))
    ensures Sees(c, HandleAttachedSource(c)) && Sees(c, HandleAttachedSink(c, e, v))
    ensures Sees(c, HandleTryAttach(c, e, v, RoleDfp)) && Sees(c, HandleTryAttach(c, e, v, RoleUfp))
  {
  }

  lemma SourceHandlersSee(c: Chip, e: Env, v: Events)
    ensures Sees(c, HandleSrcStartup(c)) && Sees(c, HandleSrcDiscovery(c, v))
    ensures Sees(c, HandleSrcSendCaps(c, e, v)) && Sees(c, HandleSrcTransitionDefault(c, v))
  {
  }

  lemma SinkHandlersSee(c: Chip, e: Env, v: Events)
    ensures Sees(c, HandleSnkStartup(c)) && Sees(c, HandleSnkDiscovery(c))
    ensures Sees(c, HandleSnkWaitCaps(c, e, v)) && Sees(c, HandleSnkTransitionDefault(c, e, v))
    ensures Sees(c, HandleOther(c, e))
  {
  }

  lemma ResetHandlersSee(c: Chip, e: Env, v: Events, sink: bool)
    ensures Sees(c, HandleSendHardrst(c, v, sink)) && Sees(c, HandleSoftrst(c, sink))
    ensures Sees(c, HandleSendSoftrst(c, e, v, sink))
  {
    assert Sees(c, SendSoftrst(c, sink));
  }

  lemma DispatchSees(c: Chip, e: Env, v: Events)
    ensures Sees(c, Dispatch(c, e, v))
  {
    hide HandleUnattached, HandleAttachWaitSink, HandleAttachWaitSource, HandleAttachedSource, HandleAttachedSink;
    hide HandleTryAttach, HandleSrcStartup, HandleSrcDiscovery, HandleSrcSendCaps, HandleSrcTransitionDefault;
    hide HandleSnkStartup, HandleSnkDiscovery, HandleSnkWaitCaps, HandleSnkTransitionDefault, HandleOther;
    hide HandleSendHardrst, HandleSendSoftrst, HandleSoftrst, SetStateUnattached;
    AttachHandlersSee(c, e, v);
    SourceHandlersSee(c, e, v);
    SinkHandlersSee(c, e, v);
    SinkHandlersSee(HandleSrcSendCaps(c, e, v), e, v);
    ResetHandlersSee(c, e, v, false);
    ResetHandlersSee(c, e, v, true);
  }

  lemma CollectFlips(c: Chip, e: Env)
    ensures Collect(c, e).retry == if HardSent(c, e) then Flip(c.retry) else c.retry
    ensures Collect(c, e).wire.foreign == c.wire.foreign && Collect(c, e).role == c.role
  {
    hide Expire, Alerted;
    AlertedSees(Expire(c, e), e);
    ExpireSees(c, e);
  }

  lemma SettleSees(c: Chip, e: Env, v: Events)
    ensures Sees(c, Settle(c, e, v))
  {
  }

  lemma StepFlips(c: Chip, e: Env)
    ensures Step(c, e).retry == if HardSent(c, e) then Flip(c.retry) else c.retry
    ensures Step(c, e).wire.foreign <= c.wire.foreign && Step(c, e).role == c.role
  {
    hide Dispatch, Collect, Observed, Settle;
    var m, v := Collect(c, e), Observed(c, e);
    CollectFlips(c, e);
    SettleSees(m, e, v);
    DispatchSees(Settle(m, e, v), e, v);
  }

  /** The turns of port j in a run of the system: its own, and every HARDSENT of another. */
  function TurnsOf(s: System, ws: seq<Work>, j: nat): seq<Turn>
    requires Within(ws, |s.chips|)
  {
    if ws == [] then [] else
      var before, w := ws[..|ws|-1], ws[|ws|-1];
      TurnsOf(s, before, j) +
      if w.port == j then [Own(w.env)]
      else if HardSent(View(SystemRun(s, before), w.port), w.env) then [Foreign] else []
  }

  lemma StepView(s: System, w: Work, j: nat)
    requires w.port < |s.chips| && j < |s.chips|
    ensures View(SystemStep(s, w), j) ==
            if w.port == j then Step(View(s, j), w.env)
            else if HardSent(View(s, w.port), w.env) then ForeignSent(View(s, j)) else View(s, j)
  {
    hide Step;
    StepFlips(View(s, w.port), w.env);
  }

  lemma RunLast(c: Chip, ts: seq<Turn>, t: Turn)
    ensures Run(c, ts + [t]) == Take(Run(c, ts), t)
  {
    hide Take;
    assert (ts + [t])[..|ts|] == ts;
  }

  lemma RunNone(c: Chip)
    ensures Run(c, []) == c
  {
  }

  /** Every port of a running system lives a life of its own: what it sees is one run
      of `PdPort`, in which the others appear only by their HARDSENT interrupts. */
  lemma {:induction false} Projection(s: System, ws: seq<Work>, j: nat)
    requires Within(ws, |s.chips|) && j < |s.chips|
    ensures View(SystemRun(s, ws), j) == Run(View(s, j), TurnsOf(s, ws, j))
  {
    hide Step, Run, ForeignSent, SystemStep, View, HardSent;
    if ws == [] {
      RunNone(View(s, j));
    } else {
      var before, w := ws[..|ws|-1], ws[|ws|-1];
      Projection(s, before, j);
      StepView(SystemRun(s, before), w, j);
      if w.port == j {
        RunLast(View(s, j), TurnsOf(s, before, j), Own(w.env));
      } else if HardSent(View(SystemRun(s, before), w.port), w.env) {
        RunLast(View(s, j), TurnsOf(s, before, j), Foreign);
      } else {
        assert TurnsOf(s, before, j) + [] == TurnsOf(s, before, j);
      }
    }
  }

  // ----- the bounds, for every port of every system

  lemma EveryPortBounded(config: Config, ws: seq<Work>, j: nat)
    requires Within(ws, |config|) && j < |config|
    ensures var d := View(SystemRun(Start(config), ws), j);
            d.wire.trials <= 2 && (Silent(d) ==> d.wire.hardResets <= 2 + d.wire.foreign)
  {
    hide Step, Run, TurnsOf;
    var s := Start(config);
    Projection(s, ws, j);
    PdRoleTrial.AtMostTwoTrials(config[j].0, config[j].1, TurnsOf(s, ws, j));
    HardResetsBounded(config[j].0, config[j].1, TurnsOf(s, ws, j));
  }

  lemma {:induction false} OnlyOwn(c: Chip, ts: seq<Turn>)
    requires c.wire.foreign == 0 && forall t | t in ts :: t.Own?
    ensures Run(c, ts).wire.foreign == 0
  {
    hide Step;
    if ts != [] {
      OnlyOwn(c, ts[..|ts|-1]);
      assert ts[|ts|-1] in ts;
      StepFlips(Run(c, ts[..|ts|-1]), ts[|ts|-1].env);
    }
  }

  lemma {:induction false} AloneIsOwn(s: System, ws: seq<Work>)
    requires |s.chips| == 1 && Within(ws, 1)
    ensures forall t | t in TurnsOf(s, ws, 0) :: t.Own?
  {
    if ws == [] {
      assert TurnsOf(s, ws, 0) == [];
    } else {
      var before, w := ws[..|ws|-1], ws[|ws|-1];
      AloneIsOwn(s, before);
      assert w in ws;
      forall t | t in TurnsOf(s, ws, 0)
        ensures t.Own?
      {
        assert t in TurnsOf(s, before, 0) || t == Own(w.env);
      }
    }
  }

  /** A port that is probed late has missed nothing but the flag. */
  lemma {:induction false} LateProbe(config: Config, roles: (Role, Role), ws: seq<Work>)
    requires Within(ws, |config|)
    ensures Within(ws, |config| + 1)
    ensures var s, late := SystemRun(Start(config), ws), SystemRun(Start(config + [roles]), ws);
            && late.retry == s.retry && late.chips[..|config|] == s.chips
            && Private(late.chips[|config|]) == Probe(roles.0, roles.1)
  {
    hide Step;
    if ws != [] {
      var before, w := ws[..|ws|-1], ws[|ws|-1];
      LateProbe(config, roles, before);
      var s, late := SystemRun(Start(config), before), SystemRun(Start(config + [roles]), before);
      assert w in ws;
      assert late.chips[w.port] == s.chips[w.port];
    }
  }

  // ----- the bound of two, and one port running alone

  ghost predicate AtMostTwo(config: Config, ws: seq<Work>, j: nat)
    requires Within(ws, |config|) && j < |config|
  {
    var d := View(SystemRun(Start(config), ws), j);
    Silent(d) ==> d.wire.hardResets <= 2
  }

  /** One port's runs, with no other port in between. */
  function Solo(i: nat, es: seq<Env>): (ws: seq<Work>)
    ensures |ws| == |es| && forall w | w in ws :: w.port == i
  {
    seq(|es|, k requires 0 <= k < |es| => Work(i, es[k]))
  }

  /** What is a port's own: all but the shared flag and the count of foreign interrupts. */
  function Private(c: Chip): Chip { c.(retry := Off, wire := c.wire.(foreign := 0)) }

  lemma {:induction false} SystemRunThen(s: System, a: seq<Work>, b: seq<Work>)
    requires Within(a, |s.chips|) && Within(b, |s.chips|)
    ensures Within(a + b, |s.chips|) && SystemRun(s, a + b) == SystemRun(SystemRun(s, a), b)
  {
    hide SystemStep;
    if b == [] {
      assert a + b == a;
    } else {
      var init := b[..|b|-1];
      assert (a + b)[..|a + b|-1] == a + init;
      SystemRunThen(s, a, init);
    }
  }

  /** While port i runs alone, the others keep what is their own. */
  lemma {:induction false} SoloRun(s: System, i: nat, es: seq<Env>, j: nat)
    requires i < |s.chips| && j < |s.chips|
    ensures var after := SystemRun(s, Solo(i, es));
            && View(after, i) == Play(View(s, i), es)
            && after.retry == Play(View(s, i), es).retry
            && (i != j ==> Private(View(after, j)) == Private(View(s, j)))
  {
    hide Step, SystemStep;
    if es != [] {
      var before := es[..|es|-1];
      assert Solo(i, es)[..|es|-1] == Solo(i, before);
      SoloRun(s, i, before, j);
      StepView(SystemRun(s, Solo(i, before)), Solo(i, es)[|es|-1], i);
      StepView(SystemRun(s, Solo(i, before)), Solo(i, es)[|es|-1], j);
    }
  }

  lemma PrivateAt(c: Chip, d: Chip, s: ConnState, sub: nat, r: Flag, owed: nat, sent: nat)
    requires Private(c) == Private(d) && At(c, s, sub, 0, r, owed, sent)
    ensures At(d, s, sub, 0, d.retry, owed, sent)
  {
    assert Private(c).connState == c.connState && Private(c).wire.owed == c.wire.owed;
  }

  lemma PlainRetry(s: System, j: nat)
    requires j < |s.chips|
    ensures View(s, j).retry == s.retry
  {
  }

  lemma AtRetry(c: Chip, s: ConnState, sub: nat, count: int, r: Flag, owed: nat, sent: nat)
    requires At(c, s, sub, count, r, owed, sent)
    ensures c.retry == r
  {
  }

  lemma AloneIsBounded(config: Config, ws: seq<Work>)
    requires |config| == 1 && Within(ws, 1)
    ensures AtMostTwo(config, ws, 0)
  {
    hide Step, SystemRun;
    var s := Start(config);
    EveryPortBounded(config, ws, 0);
    Projection(s, ws, 0);
    AloneIsOwn(s, ws);
    OnlyOwn(View(s, 0), TurnsOf(s, ws, 0));
  }
}
