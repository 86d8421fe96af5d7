/** Properties of the NAT2.5 table over whole runs. */
module NatRuns {
  import opened NatSpec
  import opened Wrappers

  ghost function RunBuckets(ops: seq<Op>, age: Time): (r: seq<seq<Item>>)
    ensures |r| == NAT25_HASH_SIZE
  {
    if ops == [] then seq(NAT25_HASH_SIZE, _ => []) else StepBuckets(RunBuckets(ops[..|ops|-1], age), ops[|ops|-1], age)
  }

  /** After any sequence of operations, with any allocation failures, the buckets
      stand for the plain map the same operations build. */
  lemma {:induction false} RunRepresents(ops: seq<Op>, age: Time)
    ensures Represents(RunBuckets(ops, age), RunMap(ops, age))
  {
    if ops == [] {
      hide Hash;
    } else {
      RunRepresents(ops[..|ops|-1], age);
      StepRepresents(RunBuckets(ops[..|ops|-1], age), RunMap(ops[..|ops|-1], age), ops[|ops|-1], age);
      hide Represents, StepBuckets, Apply;
    }
  }

  /** The MAC of the latest insert for a that took effect: one that found the
      address in the table or got memory for a new entry. */
  function LatestInsert(ops: seq<Op>, a: Addr, age: Time): Option<Mac> {
    if ops == [] then None
    else
      var before, op := ops[..|ops|-1], ops[|ops|-1];
      if op.Insert? && op.addr == a && (op.room || a in RunMap(before, age)) then Some(op.mac)
      else LatestInsert(before, a, age)
  }

  /** Whatever expires, is looked up or fails in between, the table maps an
      address to the MAC of its latest successful insert. */
  lemma {:induction false} LookupGivesLatestInsert(ops: seq<Op>, a: Addr, age: Time)
    requires a in RunMap(ops, age)
    ensures LatestInsert(ops, a, age) == Some(RunMap(ops, age)[a].mac)
    ensures RunMap(ops, age)[a].addr == a && RunMap(ops, age)[a].useCount >= 1
  {
    hide Expired;
    var before, op := ops[..|ops|-1], ops[|ops|-1];
    if a in RunMap(before, age) {
      LookupGivesLatestInsert(before, a, age);
      TableKeys(before, age);
    }
  }

  lemma {:induction false} TableKeys(ops: seq<Op>, age: Time)
    ensures forall b | b in RunMap(ops, age) :: RunMap(ops, age)[b].addr == b
  {
    hide Expired;
    if ops != [] {
      TableKeys(ops[..|ops|-1], age);
    }
  }

  /** Operations during which nothing refreshes a, and its entry x is past its age
      each time the table is searched for it or swept. */
  predicate Unrefreshed(ops: seq<Op>, a: Addr, x: Item, age: Time) {
    forall op | op in ops ::
      match op
      case Insert(b, _, _, _) => b != a
      case Touch(b, _) => b != a
      case Lookup(b, now) => b == a ==> Expired(age, x.ageing, now)
      case Expire(now) => Expired(age, x.ageing, now)
      case Cleanup => false
  }

  function Passes(ops: seq<Op>): nat {
    if ops == [] then 0 else Passes(ops[..|ops|-1]) + if ops[|ops|-1].Expire? then 1 else 0
  }

  function RunFrom(m: Table, ops: seq<Op>, age: Time): Table {
    if ops == [] then m else Apply(RunFrom(m, ops[..|ops|-1], age), ops[|ops|-1], age)
  }

  /** An expired entry with use count k that nothing refreshes stays, counting
      down, for fewer than k passes and is gone from the k-th pass on. */
  lemma {:induction false} GoneAfterUseCountPasses(m: Table, ops: seq<Op>, a: Addr, x: Item, age: Time)
    requires a in m && m[a] == x && x.useCount >= 1 && Unrefreshed(ops, a, x, age)
    ensures var r := RunFrom(m, ops, age);
            && (a in r <==> Passes(ops) < x.useCount)
            && (a in r ==> r[a] == x.(useCount := x.useCount - Passes(ops)))
  {
    if ops != [] {
      var before, op := ops[..|ops|-1], ops[|ops|-1];
      assert forall o | o in before :: o in ops;
      GoneAfterUseCountPasses(m, before, a, x, age);
      hide Expired;
      assert op in ops;
    }
  }

  /** When a was last inserted or touched, and by which MAC inserted last, by the
      operations alone; t and mac are what held before. */
  function TimeAfter(ops: seq<Op>, a: Addr, t: Time): Time {
    if ops == [] then t
    else match ops[|ops|-1]
         case Insert(b, _, now, _) => if b == a then now else TimeAfter(ops[..|ops|-1], a, t)
         case Touch(b, now) => if b == a then now else TimeAfter(ops[..|ops|-1], a, t)
         case _ => TimeAfter(ops[..|ops|-1], a, t)
  }

  function MacAfter(ops: seq<Op>, a: Addr, mac: Mac): Mac {
    if ops == [] then mac
    else if ops[|ops|-1].Insert? && ops[|ops|-1].addr == a then ops[|ops|-1].mac
    else MacAfter(ops[..|ops|-1], a, mac)
  }

  /** Lookups of a that come before it expires. */
  function Hits(ops: seq<Op>, a: Addr, t: Time, age: Time): nat {
    if ops == [] then 0
    else
      var before, op := ops[..|ops|-1], ops[|ops|-1];
      Hits(before, a, t, age)
      + if op.Lookup? && op.addr == a && !Expired(age, TimeAfter(before, a, t), op.now) then 1 else 0
  }

  /** No clean-up, and no pass that comes when a has expired. */
  ghost predicate FreshAtPasses(ops: seq<Op>, a: Addr, t: Time, age: Time) {
    forall k | 0 <= k < |ops| ::
      !ops[k].Cleanup? && (ops[k].Expire? ==> !Expired(age, TimeAfter(ops[..k], a, t), ops[k].now))
  }

  /** A client that is refreshed in time stays: it is still there after any such run, with
      its latest MAC and time, one use more for each hit, and none lost to a pass. */
  lemma {:induction false} FreshStays(m: Table, ops: seq<Op>, a: Addr, age: Time)
    requires a in m && FreshAtPasses(ops, a, m[a].ageing, age)
    ensures a in RunFrom(m, ops, age)
    ensures RunFrom(m, ops, age)[a]
            == Item(m[a].addr, MacAfter(ops, a, m[a].mac), TimeAfter(ops, a, m[a].ageing),
                    m[a].useCount + Hits(ops, a, m[a].ageing, age))
  {
    if ops != [] {
      var before, op := ops[..|ops|-1], ops[|ops|-1];
      assert forall k | 0 <= k < |before| :: before[k] == ops[k] && before[..k] == ops[..k];
      FreshStays(m, before, a, age);
      FateOfFresh(RunFrom(m, before, age), op, a, age);
      hide Expired, Apply;
    }
  }

  lemma FateOfFresh(m: Table, op: Op, a: Addr, age: Time)
    requires a in m && !op.Cleanup? && (op.Expire? ==> !Expired(age, m[a].ageing, op.now))
    ensures a in Apply(m, op, age)
    ensures Apply(m, op, age)[a]
            == match op {
                 case Insert(b, mac, now, _) => if b == a then Item(m[a].addr, mac, now, m[a].useCount) else m[a]
                 case Touch(b, now) => if b == a then Item(m[a].addr, m[a].mac, now, m[a].useCount) else m[a]
                 case Lookup(b, now) =>
                   if b == a && !Expired(age, m[a].ageing, now)
                   then Item(m[a].addr, m[a].mac, m[a].ageing, m[a].useCount + 1) else m[a]
                 case _ => m[a]
               }
  {
    hide Expired, Apply;
    match op
    case Insert(b, mac, now, room) => InsertSets(m, b, mac, now, room, age, a);
    case Lookup(b, now) => LookupAndTouch(m, b, now, age, a);
    case Touch(b, now) => LookupAndTouch(m, b, now, age, a);
    case Expire(now) => PassFate(m, a, now, age);
  }

  /** The table a run builds is where any later operations start from. */
  lemma {:induction false} RunMapThen(ops: seq<Op>, more: seq<Op>, age: Time)
    ensures RunMap(ops + more, age) == RunFrom(RunMap(ops, age), more, age)
  {
    hide Apply;
    if more == [] {
      assert ops + more == ops;
    } else {
      RunMapThen(ops, more[..|more|-1], age);
      assert (ops + more)[..|ops + more|-1] == ops + more[..|more|-1];
    }
  }

  /** From start-up: once an insert of a has taken effect, a is found with that client's
      MAC as long as every pass comes while it is fresh. */
  lemma InsertedStays(ops: seq<Op>, a: Addr, mac: Mac, now: Time, more: seq<Op>, age: Time)
    requires FreshAtPasses(more, a, now, age)
    ensures a in RunMap(ops + [Insert(a, mac, now, true)] + more, age)
    ensures RunMap(ops + [Insert(a, mac, now, true)] + more, age)[a].mac == MacAfter(more, a, mac)
    ensures RunMap(ops + [Insert(a, mac, now, true)] + more, age)[a].ageing == TimeAfter(more, a, now)
  {
    hide Apply, RunMap, RunFrom, FreshAtPasses, MacAfter, TimeAfter;
    var op := Insert(a, mac, now, true);
    RunMapThen(ops, [op], age);
    RunFromOne(RunMap(ops, age), op, age);
    InsertSets(RunMap(ops, age), a, mac, now, true, age, a);
    RunMapThen(ops + [op], more, age);
    FreshStays(RunMap(ops + [op], age), more, a, age);
  }

  lemma RunFromOne(m: Table, op: Op, age: Time)
    ensures RunFrom(m, [op], age) == Apply(m, op, age)
  {
    hide Apply;
    assert [op][..0] == [];
  }
}
