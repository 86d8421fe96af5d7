/** The sender NAT2.5 remembers (`scdb_mac`, `scdb_ip`, `scdb_entry`) beside its table,
    over whole runs of the bridge, and what the receive shortcut may make of it. */
module NatShortcut {
  import opened NatRuns
  import opened NatSpec
  import opened Wrappers

  /** What is remembered; `on` says whether an entry is. */
  datatype Scdb = Scdb(mac: Mac, ip: Ip, on: bool)
  const FORGOTTEN := Scdb(NO_MAC, NO_IP, false)

  /** An operation on the table, or an IPv4 frame sent by a client. */
  datatype Event = Done(op: Op) | Sent(mac: Mac, ip: Ip, now: Time)

  /** The operations the table has seen, and the sender remembered. */
  datatype Bridge = Bridge(ops: seq<Op>, scdb: Scdb)

  predicate Known(b: Bridge, ip: Ip, age: Time) { Ipv4Addr(ip) in RunMap(b.ops, age) }

  function After(b: Bridge, e: Event, age: Time): Bridge {
    match e
    case Done(op) =>
      var d := b.(ops := b.ops + [op]);
      if b.scdb.on && !Known(d, b.scdb.ip, age) then d.(scdb := FORGOTTEN) else d
    case Sent(mac, ip, now) =>
      if mac != b.scdb.mac then
        Bridge(b.ops + [Op.Touch(Ipv4Addr(ip), now)],
               if Known(b, ip, age) then Scdb(mac, ip, true) else b.scdb.(on := false))
      else if b.scdb.on then b.(ops := b.ops + [Op.Touch(Ipv4Addr(b.scdb.ip), now)])
      else b.(scdb := FORGOTTEN)
  }

  function BridgeRun(es: seq<Event>, age: Time): Bridge {
    if es == [] then Bridge([], FORGOTTEN)
    else After(BridgeRun(es[..|es|-1], age), es[|es|-1], age)
  }

  lemma TouchKeepsKeys(ops: seq<Op>, a: Addr, now: Time, age: Time)
    ensures RunMap(ops + [Op.Touch(a, now)], age).Keys == RunMap(ops, age).Keys
  {
    assert (ops + [Op.Touch(a, now)])[..|ops|] == ops;
  }

  /** While an entry is remembered, the table has the remembered address. */
  lemma {:induction false} RememberedIsKnown(es: seq<Event>, age: Time)
    ensures var b := BridgeRun(es, age); b.scdb.on ==> Known(b, b.scdb.ip, age)
  {
    hide Ipv4Addr, RunMap;
    if es != [] {
      var b, e := BridgeRun(es[..|es|-1], age), es[|es|-1];
      RememberedIsKnown(es[..|es|-1], age);
      if e.Sent? {
        TouchKeepsKeys(b.ops, Ipv4Addr(e.ip), e.now, age);
        TouchKeepsKeys(b.ops, Ipv4Addr(b.scdb.ip), e.now, age);
      }
    }
  }

  /** What the shortcut writes is what the table holds for the address. */
  predicate Agrees(b: Bridge, age: Time) {
    Known(b, b.scdb.ip, age) && RunMap(b.ops, age)[Ipv4Addr(b.scdb.ip)].mac == b.scdb.mac
  }

  /** Exactly then: the address is still in the table, which is certain only while an
      entry is remembered, and its latest insert was for the remembered sender. */
  lemma AgreesExactly(es: seq<Event>, age: Time)
    ensures var b := BridgeRun(es, age);
            var a := Ipv4Addr(b.scdb.ip);
            && (Agrees(b, age) <==> Known(b, b.scdb.ip, age) && LatestInsert(b.ops, a, age) == Some(b.scdb.mac))
            && (b.scdb.on ==> (Agrees(b, age) <==> LatestInsert(b.ops, a, age) == Some(b.scdb.mac)))
  {
    hide BridgeRun, Ipv4Addr, RunMap, LatestInsert;
    var b := BridgeRun(es, age);
    RememberedIsKnown(es, age);
    if Known(b, b.scdb.ip, age) {
      LookupGivesLatestInsert(b.ops, Ipv4Addr(b.scdb.ip), age);
    }
  }

  /** The address the shortcut serves is one the table knows; guarded, the shortcut would
      also ask for a remembered entry. */
  predicate ServesKnown(b: Bridge, guarded: bool, age: Time) {
    b.scdb.ip != NO_IP && (guarded ==> b.scdb.on) ==> Known(b, b.scdb.ip, age)
  }

  const CLIENT: Mac := [2, 0, 0, 0, 0, 1]
  const STRANGER: Mac := [2, 0, 0, 0, 0, 2]
  const HOST: Ip := [10, 0, 0, 1]
  const OTHER: Ip := [10, 0, 0, 2]

  /** A client is inserted and remembered, a stranger sends, and the client's entry
      expires: nothing is left of it but the address and MAC in the shortcut. */
  function Stale(t: Time, now: Time): seq<Event> {
    [Done(Op.Insert(Ipv4Addr(HOST), CLIENT, t, true)), Sent(CLIENT, HOST, t), Sent(STRANGER, OTHER, t),
     Done(Op.Expire(now))]
  }

  lemma RunOneMore(es: seq<Event>, e: Event, age: Time)
    ensures BridgeRun(es + [e], age) == After(BridgeRun(es, age), e, age)
  {
    hide After;
    assert (es + [e])[..|es|] == es;
  }

  lemma MapOneMore(ops: seq<Op>, op: Op, age: Time)
    ensures RunMap(ops + [op], age) == Apply(RunMap(ops, age), op, age)
  {
    hide Apply;
    assert (ops + [op])[..|ops|] == ops;
  }

  lemma AddressesDiffer()
    ensures Ipv4Addr(HOST) != Ipv4Addr(OTHER)
  {
    assert Ipv4Addr(HOST)[10] == 1 && Ipv4Addr(OTHER)[10] == 2;
  }

  lemma StaleServed(t: Time, now: Time, age: Time)
    requires Expired(age, t, now)
    ensures var b := BridgeRun(Stale(t, now), age);
            b.scdb == Scdb(CLIENT, HOST, false) && !Known(b, HOST, age)
  {
    hide BridgeRun, RunMap, Expired, Ipv4Addr;
    var a, o := Ipv4Addr(HOST), Ipv4Addr(OTHER);
    AddressesDiffer();
    var x := Item(a, CLIENT, t, 1);
    var ops := [Op.Insert(a, CLIENT, t, true)];
    var es: seq<Event> := [Done(ops[0])];
    RunNothing(age);
    RunOneMore([], es[0], age);
    assert [] + [es[0]] == es && [] + ops == ops;
    MapOneMore([], ops[0], age);
    assert RunMap(ops, age) == map[a := x];
    var s1: Event := Sent(CLIENT, HOST, t);
    RunOneMore(es, s1, age);
    MapOneMore(ops, Op.Touch(a, t), age);
    var ops1 := ops + [Op.Touch(a, t)];
    assert BridgeRun(es + [s1], age) == Bridge(ops1, Scdb(CLIENT, HOST, true)) && RunMap(ops1, age) == map[a := x];
    var s2: Event := Sent(STRANGER, OTHER, t);
    RunOneMore(es + [s1], s2, age);
    MapOneMore(ops1, Op.Touch(o, t), age);
    var ops2 := ops1 + [Op.Touch(o, t)];
    assert BridgeRun(es + [s1] + [s2], age) == Bridge(ops2, Scdb(CLIENT, HOST, false));
    var s3: Event := Done(Op.Expire(now));
    RunOneMore(es + [s1] + [s2], s3, age);
    MapOneMore(ops2, Op.Expire(now), age);
    assert es + [s1] + [s2] + [s3] == Stale(t, now);
  }

  lemma RunNothing(age: Time)
    ensures BridgeRun([], age) == Bridge([], FORGOTTEN) && RunMap([], age) == map[]
  {
  }

  /** Over all runs the shortcut serves only addresses the table knows if and only if it
      also asks whether an entry is remembered, which the code does not. */
  lemma GuardDecides(guarded: bool)
    ensures (forall es: seq<Event>, age: Time :: ServesKnown(BridgeRun(es, age), guarded, age)) <==> guarded
  {
    hide BridgeRun, RunMap;
    if guarded {
      forall es: seq<Event>, age: Time
        ensures ServesKnown(BridgeRun(es, age), true, age)
      {
        RememberedIsKnown(es, age);
      }
    } else {
      StaleServed(0, 0, 0);
      assert !ServesKnown(BridgeRun(Stale(0, 0), 0), false, 0);
    }
  }
}
