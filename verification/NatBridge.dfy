/** The linked table and the remembered sender run together, and the receive shortcut
    afterwards. */
module NatBridge {
  import opened NatRuns
  import opened NatShortcut
  import opened NatSpec
  import opened NatTable
  import opened Wrappers

  /** The object stands for what the events make of the table and the sender. */
  ghost predicate Stands(t: NatTable, b: Bridge)
    reads t, t.nethash, t.live
  {
    && t.Valid() && t.OwnEntry() && t.items == RunBuckets(b.ops, t.ageingTime)
    && b.scdb == Scdb(t.scdbMac, t.scdbIp, t.scdbEntry != null)
  }

  lemma BucketsOneMore(ops: seq<Op>, op: Op, age: Time)
    ensures RunBuckets(ops + [op], age) == StepBuckets(RunBuckets(ops, age), op, age)
  {
    hide StepBuckets;
    assert (ops + [op])[..|ops|] == ops;
  }

  /** The search in its bucket knows whether the table has an address. */
  lemma KnownIsFound(b: Bridge, items: seq<seq<Item>>, ip: Ip, age: Time)
    requires items == RunBuckets(b.ops, age)
    ensures Known(b, ip, age) <==> Find(items[Hash(Ipv4Addr(ip))], Ipv4Addr(ip)).Some?
  {
    hide Hash, Find, RunBuckets, RunMap, Ipv4Addr;
    RunRepresents(b.ops, age);
    var a := Ipv4Addr(ip);
    assert Holds(items[Hash(a)], Hash(a), RunMap(b.ops, age));
    FindIsMember(items[Hash(a)], Hash(a), RunMap(b.ops, age), a);
  }

  method SendFrame(t: NatTable, ghost b: Bridge, mac: Mac, ip: Ip, now: Time)
    requires Stands(t, b)
    modifies t`items, t`scdbEntry, t`scdbMac, t`scdbIp, t.live`ageingTimer
    ensures Stands(t, After(b, Sent(mac, ip, now), t.ageingTime))
  {
    hide Hash, Find, RunBuckets, StepBuckets, RunMap, Ipv4Addr, NatTable.Valid, Known;
    KnownIsFound(b, t.items, ip, t.ageingTime);
    BucketsOneMore(b.ops, Op.Touch(Ipv4Addr(ip), now), t.ageingTime);
    BucketsOneMore(b.ops, Op.Touch(Ipv4Addr(t.scdbIp), now), t.ageingTime);
    var _ := t.ScdbUpdate(mac, ip, now);
  }

  /** After an operation the address of e0 is known exactly when e0 was not freed. */
  lemma KnownIsLive(t: NatTable, b: Bridge, ip: Ip, e0: Entry, before: set<Entry>)
    requires t.Valid() && t.items == RunBuckets(b.ops, t.ageingTime)
    requires e0 in before && e0.networkAddr == Ipv4Addr(ip)
    requires forall e, f | e in before && f in before && e.networkAddr == f.networkAddr :: e == f
    requires e0 !in t.live ==> t.live <= before
    ensures Known(b, ip, t.ageingTime) <==> e0 in t.live
  {
    hide Hash, Find, RunBuckets, Ipv4Addr, NatTable.Valid, Known;
    KnownIsFound(b, t.items, ip, t.ageingTime);
    if e0 in t.live {
      LiveIsFound(t, e0);
    } else if Find(t.items[Hash(e0.networkAddr)], e0.networkAddr).Some? {
      var e := FoundIsLive(t, e0.networkAddr);
    }
  }

  method DoOp(t: NatTable, ghost b: Bridge, op: Op, frame: array<bv8>)
    requires Stands(t, b) && frame.Length >= 6 && frame as object != t.nethash as object
    modifies t, t.nethash, t.live, frame
    ensures Stands(t, After(b, Done(op), t.ageingTime)) && fresh(t.live - old(t.live))
  {
    hide Hash, Find, RunBuckets, StepBuckets, RunMap, Ipv4Addr, NatTable.Valid, Known, Expired;
    ghost var e0, before, d := t.scdbEntry, t.live, b.(ops := b.ops + [op]);
    BucketsOneMore(b.ops, op, t.ageingTime);
    OneEntryEach(t);
    t.ScdbLive();
    match op {
      case Insert(a, mac, now, room) => t.Insert(mac, a, now, room);
      case Lookup(a, now) => var _ := t.Lookup(frame, a, now);
      case Touch(a, now) => var _ := t.Refresh(a, now);
      case Expire(now) => t.Expire(now);
      case Cleanup => t.Cleanup();
    }
    if e0 != null {
      KnownIsLive(t, d, b.scdb.ip, e0, before);
    }
  }

  /** The objects do what the events say. */
  method RunBridge(es: seq<Event>, ageingTime: Time) returns (t: NatTable)
    ensures fresh(t) && fresh(t.nethash) && fresh(t.live) && t.ageingTime == ageingTime
    ensures Stands(t, BridgeRun(es, ageingTime))
  {
    hide Hash, RunMap, StepBuckets, NatTable.Valid, After, BridgeRun, Known;
    t := new NatTable(ageingTime);
    StartStands(t, ageingTime);
    var frame := new bv8[6];
    assert es[..0] == [];
    for i := 0 to |es|
      invariant fresh(t) && fresh(t.nethash) && fresh(t.live) && t.ageingTime == ageingTime
      invariant Stands(t, BridgeRun(es[..i], ageingTime))
    {
      RunOneMore(es[..i], es[i], ageingTime);
      assert es[..i + 1] == es[..i] + [es[i]];
      match es[i]
      case Done(op) => DoOp(t, BridgeRun(es[..i], ageingTime), op, frame);
      case Sent(mac, ip, now) => SendFrame(t, BridgeRun(es[..i], ageingTime), mac, ip, now);
    }
    assert es[..|es|] == es;
  }

  lemma StartStands(t: NatTable, age: Time)
    requires t.Valid() && t.ageingTime == age && t.items == seq(NAT25_HASH_SIZE, _ => [])
    requires t.scdbEntry == null && t.scdbMac == NO_MAC && t.scdbIp == NO_IP
    ensures Stands(t, BridgeRun([], age))
  {
    hide NatTable.Valid;
  }

  /** After any run, a frame that takes the receive shortcut gets the MAC the table holds
      exactly when the table still has its address and inserted it last for that MAC;
      that it still has it is certain while an entry is remembered. */
  method RxAfterRun(es: seq<Event>, ageingTime: Time, frame: array<bv8>) returns (taken: bool)
    requires frame.Length >= 34
    modifies frame
    ensures var b := BridgeRun(es, ageingTime);
            && (taken <==> old(frame[12..14]) == ETH_P_IP && old(frame[30..34]) == b.scdb.ip)
            && frame[..] == (if taken then b.scdb.mac + old(frame[6..]) else old(frame[..]))
            && (b.scdb.on ==> Known(b, b.scdb.ip, ageingTime))
    ensures taken ==>
              var b, a: Addr := BridgeRun(es, ageingTime), Ipv4Addr(BridgeRun(es, ageingTime).scdb.ip);
              var m := RunMap(b.ops, ageingTime);
              a in m && frame[..6] == m[a].mac <==> a in m && LatestInsert(b.ops, a, ageingTime) == Some(b.scdb.mac)
  {
    hide Hash, RunMap, NatTable.Valid, BridgeRun, LatestInsert, Ipv4Addr;
    var t := RunBridge(es, ageingTime);
    RememberedIsKnown(es, ageingTime);
    AgreesExactly(es, ageingTime);
    taken := t.RxShortcut(frame, false);
    assert taken ==> frame[..6] == t.scdbMac;
  }
}
