/** The bound of `PdHardReset` is attained, from probe on, for every number of
    interrupts other ports handle. */
module PdAttained {
  import opened PdPort
  import opened PdHardReset

  const Quiet := Env(false, false, false, NO_CC, false, false, false, false, false, false, false,
                     true, true, 0, 0, Message(0, 0), Probe(RoleDrp, RoleNone))
  /** The state timer or the mux timer runs out, HARDSENT is raised, or toggling finds
      a source on CC1 before VBUS is up. */
  const Tick := Quiet.(stateTimer := true)
  const Mux := Quiet.(muxTimer := true)
  const Reset := Quiet.(hardSent := true)
  const Found := Quiet.(toggleDone := true, toggled := CcState(true, false, true), vbus := false)

  /** One port's own runs, one after the other. */
  function Play(c: Chip, es: seq<Env>): Chip {
    if es == [] then c else Step(Play(c, es[..|es|-1]), es[|es|-1])
  }

  lemma {:induction false} PlayThen(c: Chip, a: seq<Env>, b: seq<Env>)
    ensures Play(c, a + b) == Play(Play(c, a), b)
  {
    hide Step;
    if b == [] {
      assert a + b == a;
    } else {
      var init := b[..|b|-1];
      assert (a + b)[..|a + b|-1] == a + init;
      PlayThen(c, a, init);
    }
  }

  lemma PlayOne(c: Chip, e: Env)
    ensures Play(c, [e]) == Step(c, e)
  {
    hide Step;
    assert [e][..0] == [];
  }

  lemma PlayTwo(c: Chip, e: Env, f: Env)
    ensures Play(c, [e, f]) == Step(Step(c, e), f)
  {
    hide Step;
    PlayOne(c, e);
    assert [e, f][..1] == [e];
  }

  lemma PlayThree(c: Chip, e: Env, f: Env, g: Env)
    ensures Play(c, [e, f, g]) == Step(Step(Step(c, e), f), g)
  {
    hide Step;
    PlayTwo(c, e, f);
    assert [e, f, g][..2] == [e, f];
  }

  function Owns(es: seq<Env>): (ts: seq<Turn>)
    ensures |ts| == |es|
  {
    seq(|es|, i requires 0 <= i < |es| => Own(es[i]))
  }

  lemma {:induction false} RunThen(c: Chip, a: seq<Turn>, b: seq<Turn>)
    ensures Run(c, a + b) == Run(Run(c, a), b)
  {
    hide Take;
    if b == [] {
      assert a + b == a;
    } else {
      var init := b[..|b|-1];
      assert (a + b)[..|a + b|-1] == a + init;
      RunThen(c, a, init);
    }
  }

  lemma {:induction false} OwnRun(c: Chip, es: seq<Env>)
    ensures Run(c, Owns(es)) == Play(c, es)
  {
    hide Step;
    if es != [] {
      OwnRun(c, es[..|es|-1]);
      assert Owns(es)[..|es|-1] == Owns(es[..|es|-1]);
    }
  }

  // ----- from probe to the wait for capabilities

  /** A dual-role port that tries to be a source first, on its way to a sink attach. */
  ghost predicate Joining(c: Chip, s: ConnState, complete: Flag, retry: Flag) {
    && c.connState == s && c.role.RoleDrp? && c.tryRole.RoleDfp? && c.tryRoleComplete == complete
    && c.delayCc.Off? && c.isCcConnected.Off? && c.isPdSupport.Off? && c.vbusBegin.Off? && c.source.Off?
    && c.timerState == T_DISABLED && c.timerMux != 0 && (!s.Unattached? ==> c.timerMux != T_DISABLED)
    && c.wire.owed == 0 && c.retry == retry
  }

  /** A silent sink on a port without PD support, at a given point of the game. */
  ghost predicate At(c: Chip, s: ConnState, sub: nat, count: int, retry: Flag, owed: nat, sent: nat) {
    && c.connState == s && c.subState == sub && c.hardrstCount == count && c.retry == retry
    && c.wire.owed == owed && c.wire.hardResets == sent && Silent(c)
    && c.source.Off? && c.isPdSupport.Off? && c.vbusBegin.Off? && c.delayCc.Off?
    && c.timerMux != 0 && c.timerState != 0
    && (s.SnkWaitCaps? || s.SnkTransitionDefault? ==> c.timerState != T_DISABLED)
    && (s.SnkStartup? || s.SnkDiscovery? || (s.SnkSendHardrst? && sub == 0) ==> c.workContinue.On?)
    && (s.SnkSendHardrst? && sub == 1 ==> c.txState.TxBusy?)
  }

  const ATTACH := [Found, Mux, Mux] + [Found, Mux, Quiet] + [Quiet, Quiet]

  lemma FindsSource(c: Chip, r: Flag)
    requires Joining(c, Unattached, Off, r)
    ensures Joining(Step(c, Found), AttachWaitSink, Off, r)
  {
  }

  lemma TriesSource(c: Chip, r: Flag)
    requires Joining(c, AttachWaitSink, Off, r)
    ensures Joining(Step(c, Mux), AttachTrySrc, Off, r)
  {
  }

  lemma TriesSink(c: Chip, r: Flag)
    requires Joining(c, AttachTrySrc, Off, r)
    ensures Joining(Step(c, Mux), AttachTrySnk, On, r)
  {
  }

  lemma FindsSourceAgain(c: Chip, r: Flag)
    requires Joining(c, AttachTrySnk, On, r)
    ensures Joining(Step(c, Found), AttachWaitSink, On, r)
  {
  }

  lemma AttachesSink(c: Chip, r: Flag)
    requires Joining(c, AttachWaitSink, On, r)
    ensures Joining(Step(c, Mux), AttachedSink, On, r) && Step(c, Mux).workContinue.On?
  {
  }

  lemma StartsSink(c: Chip, r: Flag)
    requires Joining(c, AttachedSink, On, r) && c.workContinue.On?
    ensures At(Step(c, Quiet), SnkStartup, 0, 0, r, 0, 0) && Step(c, Quiet).wire.foreign == 0
  {
  }

  lemma WaitsForCaps(c: Chip, count: int, r: Flag, sent: nat)
    requires At(c, SnkStartup, 0, count, r, 0, sent)
    ensures At(Step(Step(c, Quiet), Quiet), SnkWaitCaps, 0, count, r, 0, sent)
    ensures Step(Step(c, Quiet), Quiet).wire.foreign == c.wire.foreign
  {
    assert At(Step(c, Quiet), SnkDiscovery, 0, count, r, 0, sent) && Step(c, Quiet).wire.foreign == c.wire.foreign;
  }

  /** Eight runs take a port from probe to the wait for capabilities. */
  lemma Attaches(c: Chip, r: Flag)
    requires Joining(c, Unattached, Off, r)
    ensures At(Play(c, ATTACH), SnkWaitCaps, 0, 0, r, 0, 0) && Play(c, ATTACH).wire.foreign == 0
  {
    hide Step, Joining, At;
    FindsSource(c, r);
    TriesSource(Step(c, Found), r);
    TriesSink(Step(Step(c, Found), Mux), r);
    PlayThree(c, Found, Mux, Mux);
    var d := Play(c, [Found, Mux, Mux]);
    FindsSourceAgain(d, r);
    AttachesSink(Step(d, Found), r);
    StartsSink(Step(Step(d, Found), Mux), r);
    PlayThree(d, Found, Mux, Quiet);
    var f := Play(d, [Found, Mux, Quiet]);
    WaitsForCaps(f, 0, r, 0);
    PlayTwo(f, Quiet, Quiet);
    PlayThen(c, [Found, Mux, Mux], [Found, Mux, Quiet]);
    PlayThen(c, [Found, Mux, Mux] + [Found, Mux, Quiet], [Quiet, Quiet]);
  }

  // ----- one hard reset after another

  const SEND := [Tick, Quiet]
  const RECOVER := [Tick] + [Quiet, Quiet]
  const ROUND := SEND + [Reset] + RECOVER
  const LAST := SEND + [Reset, Quiet] + RECOVER + [Tick]

  lemma Sends(c: Chip, r: Flag, sent: nat)
    requires At(c, SnkWaitCaps, 0, 0, r, 0, sent)
    ensures At(Play(c, SEND), SnkSendHardrst, 1, 0, r, 1, sent + 1) && Play(c, SEND).wire.foreign == c.wire.foreign
  {
    PlayTwo(c, Tick, Quiet);
    hide Play;
    assert At(Step(c, Tick), SnkSendHardrst, 0, 0, r, 0, sent) && Step(c, Tick).wire.foreign == c.wire.foreign;
    hide HandleSnkWaitCaps;
  }

  lemma FirstSentIsNotCounted(c: Chip, sent: nat)
    requires At(c, SnkSendHardrst, 1, 0, Off, 1, sent)
    ensures At(Step(c, Reset), SnkTransitionDefault, 1, 0, On, 0, sent) && Step(c, Reset).wire.foreign == c.wire.foreign
  {
  }

  lemma SecondSentIsCounted(c: Chip, sent: nat)
    requires At(c, SnkSendHardrst, 1, 0, On, 1, sent)
    ensures At(Step(Step(c, Reset), Quiet), SnkTransitionDefault, 1, 1, Off, 0, sent)
    ensures Step(Step(c, Reset), Quiet).wire.foreign == c.wire.foreign
  {
    var d := Step(c, Reset);
    assert d.connState.SnkTransitionDefault? && d.subState == 0 && d.hardrstCount == 1 && d.workContinue.On?;
  }

  lemma Recovers(c: Chip, count: int, r: Flag, sent: nat)
    requires At(c, SnkTransitionDefault, 1, count, r, 0, sent)
    ensures At(Play(c, RECOVER), SnkWaitCaps, 0, count, r, 0, sent) && Play(c, RECOVER).wire.foreign == c.wire.foreign
  {
    var d := Step(c, Tick);
    assert At(d, SnkStartup, 0, count, r, 0, sent) && d.wire.foreign == c.wire.foreign;
    hide Step, At;
    WaitsForCaps(d, count, r, sent);
    PlayOne(c, Tick);
    PlayTwo(d, Quiet, Quiet);
    PlayThen(c, [Tick], [Quiet, Quiet]);
  }

  lemma GivesUp(c: Chip, r: Flag, sent: nat)
    requires At(c, SnkWaitCaps, 0, 1, r, 0, sent)
    ensures var d := Step(c, Tick);
            d.connState.Disabled? && d.wire.hardResets == sent && Silent(d) && d.wire.foreign == c.wire.foreign
  {
  }

  /** With `retry` clear, a hard reset goes uncounted and the game starts over. */
  lemma UncountedRound(c: Chip, sent: nat)
    requires At(c, SnkWaitCaps, 0, 0, Off, 0, sent)
    ensures At(Play(c, ROUND), SnkWaitCaps, 0, 0, On, 0, sent + 1) && Play(c, ROUND).wire.foreign == c.wire.foreign
  {
    hide Step, At, Play;
    Sends(c, Off, sent);
    var d := Play(c, SEND);
    FirstSentIsNotCounted(d, sent + 1);
    PlayOne(d, Reset);
    Recovers(Step(d, Reset), 0, On, sent + 1);
    PlayThen(c, SEND, [Reset]);
    PlayThen(c, SEND + [Reset], RECOVER);
  }

  /** With `retry` set it is counted, and the next wait ends in `Disabled`. */
  lemma CountedRound(c: Chip, sent: nat)
    requires At(c, SnkWaitCaps, 0, 0, On, 0, sent)
    ensures var d := Play(c, LAST);
            d.connState.Disabled? && d.wire.hardResets == sent + 1 && Silent(d) && d.wire.foreign == c.wire.foreign
  {
    hide Step, At, Play;
    Sends(c, On, sent);
    var d := Play(c, SEND);
    SecondSentIsCounted(d, sent + 1);
    PlayTwo(d, Reset, Quiet);
    var f := Play(d, [Reset, Quiet]);
    Recovers(f, 1, Off, sent + 1);
    GivesUp(Play(f, RECOVER), Off, sent + 1);
    PlayOne(Play(f, RECOVER), Tick);
    PlayThen(c, SEND, [Reset, Quiet]);
    PlayThen(c, SEND + [Reset, Quiet], RECOVER);
    PlayThen(c, SEND + [Reset, Quiet] + RECOVER, [Tick]);
  }

  /** Each interrupt of another port, at the right moment, buys one more round. */
  lemma {:induction false} Rounds(k: nat) returns (ts: seq<Turn>)
    ensures var d := Run(Probe(RoleDrp, RoleDfp), ts); At(d, SnkWaitCaps, 0, 0, Off, 0, k) && d.wire.foreign == k
  {
    hide Step, Play, At, Run;
    var c := Probe(RoleDrp, RoleDfp);
    if k == 0 {
      Attaches(c, Off);
      ts := Owns(ATTACH);
      OwnRun(c, ATTACH);
    } else {
      var before := Rounds(k - 1);
      var d := Run(c, before);
      UncountedRound(d, k - 1);
      OwnRun(d, ROUND);
      RunThen(c, before, Owns(ROUND));
      RunThen(c, before + Owns(ROUND), [Foreign]);
      ts := before + Owns(ROUND) + [Foreign];
      ForeignAllows(Play(d, ROUND), k);
    }
  }

  lemma ForeignAllows(c: Chip, sent: nat)
    requires At(c, SnkWaitCaps, 0, 0, On, 0, sent)
    ensures var d := Run(c, [Foreign]); At(d, SnkWaitCaps, 0, 0, Off, 0, sent) && d.wire.foreign == c.wire.foreign + 1
  {
    hide Step;
    assert [Foreign][..0] == [];
  }

  /** For every k there is a run from probe in which other ports handle k interrupts
      and a silent sink sends 2 + k hard resets before it is disabled. */
  lemma BoundAttained(k: nat) returns (ts: seq<Turn>)
    ensures var d := Run(Probe(RoleDrp, RoleDfp), ts);
            d.connState.Disabled? && Silent(d) && d.wire.foreign == k && d.wire.hardResets == 2 + k
  {
    hide Step, Play, At, Run;
    var c := Probe(RoleDrp, RoleDfp);
    var before := Rounds(k);
    var d := Run(c, before);
    UncountedRound(d, k);
    CountedRound(Play(d, ROUND), k + 1);
    PlayThen(d, ROUND, LAST);
    OwnRun(d, ROUND + LAST);
    RunThen(c, before, Owns(ROUND + LAST));
    ts := before + Owns(ROUND + LAST);
  }
}
