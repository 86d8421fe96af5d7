/** What the NAT2.5 table means: buckets of entries as values, the plain map they
    stand for, and ageing by use count (rtw_br_ext.c). */
module NatSpec {
  import opened Wrappers

  const NAT25_HASH_SIZE := 16
  const MAX_NETWORK_ADDR_LEN := 17
  const NAT25_IPV4: bv8 := 1
  const NAT25_IPV6: bv8 := 2
  const NAT25_IPX: bv8 := 3
  const NAT25_APPLE: bv8 := 4
  const NAT25_PPPOE: bv8 := 5

  /** `unsigned long` counts jiffies modulo this. */
  const JIFFIES := 0x1_0000_0000

  type Addr = a: seq<bv8> | |a| == MAX_NETWORK_ADDR_LEN witness seq(MAX_NETWORK_ADDR_LEN, _ => 0)
  type Mac = m: seq<bv8> | |m| == 6 witness seq(6, _ => 0)
  type Ip = i: seq<bv8> | |i| == 4 witness seq(4, _ => 0)
  const NO_MAC: Mac := [0, 0, 0, 0, 0, 0]
  const NO_IP: Ip := [0, 0, 0, 0]
  type Time = t: nat | t < JIFFIES

  /** One table entry without its links. */
  datatype Item = Item(addr: Addr, mac: Mac, ageing: Time, useCount: int)

  function Mix(a: bv8, b: bv8): bv8 { a ^ b }

  function Xor(s: seq<bv8>): bv8 {
    if s == [] then 0 else Mix(s[0], Xor(s[1..]))
  }

  /** `x & (NAT25_HASH_SIZE - 1)`. */
  function Low(x: bv8): (h: nat)
    ensures h < NAT25_HASH_SIZE
  {
    (x & 15) as nat
  }

  /** `__nat25_network_hash`: which bytes are folded depends on the address type. */
  function Hash(a: Addr): (h: nat)
    ensures h < NAT25_HASH_SIZE
  {
    var x := if a[0] == NAT25_IPV4 then Xor(a[7..11])
             else if a[0] == NAT25_IPX then Xor(a[1..11])
             else if a[0] == NAT25_APPLE then Xor(a[1..4])
             else if a[0] == NAT25_PPPOE then Xor(a[0..9])
             else if a[0] == NAT25_IPV6 then Xor(a[1..17])
             else Xor(a);
    Low(x)
  }

  lemma MixFront(a: bv8, r: bv8, x: bv8)
    ensures Mix(x, r) == Mix(Mix(a, r), Mix(a, x))
  {
  }

  lemma MixBehind(a: bv8, r: bv8, d: bv8)
    ensures Mix(a, Mix(r, d)) == Mix(Mix(a, r), d)
  {
  }

  lemma LowSame(a: bv8, d: bv8)
    ensures Low(Mix(a, d)) == Low(a) <==> d & 15 == 0
  {
  }

  lemma {:induction false} XorUpdate(s: seq<bv8>, i: nat, x: bv8)
    requires i < |s|
    ensures Xor(s[i := x]) == Mix(Xor(s), Mix(s[i], x))
  {
    hide Mix;
    var t := s[i := x];
    if i == 0 {
      assert t[1..] == s[1..];
      MixFront(s[0], Xor(s[1..]), x);
    } else {
      XorUpdate(s[1..], i - 1, x);
      assert t[1..] == s[1..][i - 1 := x];
      MixBehind(s[0], Xor(s[1..]), Mix(s[i], x));
    }
  }

  lemma SliceUpdate(s: seq<bv8>, lo: nat, hi: nat, i: nat, x: bv8)
    requires lo <= hi <= |s| && i < |s|
    ensures s[i := x][lo..hi] == if lo <= i < hi then s[lo..hi][i - lo := x] else s[lo..hi]
  {
  }

  /** The bytes of an address that choose its bucket, by the type in its first byte. */
  function Folded(a: Addr): (r: (nat, nat)) {
    if a[0] == 1 then (7, 11) else if a[0] == 3 then (1, 11) else if a[0] == 4 then (1, 4)
    else if a[0] == 5 then (0, 9) else if a[0] == 2 then (1, 17) else (0, 17)
  }

  /** Exactly these bytes count, each with its low four bits: changing one byte moves the
      address to another bucket if and only if one of those bits changes. */
  lemma HashFolds(a: Addr, i: nat, x: bv8)
    requires 0 < i < 17
    ensures Hash(a[i := x]) == Hash(a) <==> !(Folded(a).0 <= i < Folded(a).1) || Mix(a[i], x) & 15 == 0
  {
    hide Xor, Mix, Low;
    var (lo, hi) := Folded(a);
    SliceUpdate(a, lo, hi, i, x);
    assert a[..] == a[0..17] && a[i := x][0..17] == a[i := x];
    if lo <= i < hi {
      XorUpdate(a[lo..hi], i - lo, x);
      LowSame(Xor(a[lo..hi]), Mix(a[i], x));
    }
  }

  /** `__nat25_generate_ipv4_network_addr`. */
  function Ipv4Addr(ip: Ip): Addr {
    [NAT25_IPV4, 0, 0, 0, 0, 0, 0] + ip + [0, 0, 0, 0, 0, 0]
  }

  /** Type in the first byte, the address in bytes 7 to 10, zeros elsewhere; only the
      address bytes choose the bucket. */
  lemma Ipv4Layout(ip: Ip)
    ensures var a := Ipv4Addr(ip);
            && a[0] == 1 && a[7..11] == ip && (forall i | 1 <= i < 7 || 11 <= i < 17 :: a[i] == 0)
            && Hash(a) == Low(Xor(ip))
  {
    var a := Ipv4Addr(ip);
    assert a[0] == NAT25_IPV4 && a[7..11] == ip;
  }

  // ----- ageing

  /** `time_before_eq(ageing, now - age)` on a counter that wraps: the difference,
      read as a signed number, is not negative. */
  predicate Expired(age: Time, ageing: Time, now: Time) {
    (now - age - ageing) % JIFFIES < JIFFIES / 2
  }

  /** The verdict on the wrapped counter agrees with the true elapsed time exactly
      when the time beyond the age falls in the first half of the counter's range. */
  lemma ExpiredExactly(age: Time, then_: nat, now: nat)
    requires then_ <= now && age <= JIFFIES / 2
    ensures (Expired(age, then_ % JIFFIES, now % JIFFIES) == (now - then_ >= age))
            <==> (now - then_ < age || (now - then_ - age) % JIFFIES < JIFFIES / 2)
    ensures now - then_ < JIFFIES / 2 + age ==> Expired(age, then_ % JIFFIES, now % JIFFIES) == (now - then_ >= age)
  {
    var d := now - then_ - age;
    WrapDifference(age, then_, now);
    if d < 0 {
      assert d % JIFFIES == d + JIFFIES;
    }
  }

  lemma WrapDifference(age: int, then_: nat, now: nat)
    ensures (now % JIFFIES - age - then_ % JIFFIES) % JIFFIES == (now - then_ - age) % JIFFIES
  {
    var q, p := now / JIFFIES, then_ / JIFFIES;
    var x := now % JIFFIES - age - then_ % JIFFIES;
    assert now - then_ - age == x + (q - p) * JIFFIES;
    Multiple(x, q - p);
  }

  lemma {:induction false} Multiple(x: int, k: int)
    ensures (x + k * JIFFIES) % JIFFIES == x % JIFFIES
    decreases if k < 0 then -k else k
  {
    if k > 0 {
      Multiple(x, k - 1);
      assert (x + k * JIFFIES) == (x + (k - 1) * JIFFIES) + JIFFIES;
    } else if k < 0 {
      Multiple(x, k + 1);
      assert (x + k * JIFFIES) == (x + (k + 1) * JIFFIES) - JIFFIES;
    }
  }

  // ----- one bucket

  function Find(bucket: seq<Item>, a: Addr): (i: Option<nat>)
    ensures i.Some? ==> i.value < |bucket| && bucket[i.value].addr == a
    ensures i.None? ==> forall k: nat | k < |bucket| :: bucket[k].addr != a
  {
    if bucket == [] then None
    else if bucket[0].addr == a then Some(0)
    else match Find(bucket[1..], a) { case None => None case Some(k) => Some(k + 1) }
  }

  lemma {:induction false} FindFirst(bucket: seq<Item>, a: Addr, k: nat)
    requires k <= |bucket| && forall i: nat | i < k :: bucket[i].addr != a
    ensures k == |bucket| ==> Find(bucket, a) == None
    ensures k < |bucket| && bucket[k].addr == a ==> Find(bucket, a) == Some(k)
  {
    if bucket != [] && k > 0 {
      FindFirst(bucket[1..], a, k - 1);
    }
  }

  /** No address twice, every entry in its own bucket, every use count positive. */
  ghost predicate WellFormed(bucket: seq<Item>, h: nat) {
    && (forall i: nat | i < |bucket| :: Hash(bucket[i].addr) == h && bucket[i].useCount >= 1)
    && (forall i: nat, j: nat | i < j < |bucket| :: bucket[i].addr != bucket[j].addr)
  }

  function Used(x: Item): Item {
    x.(useCount := x.useCount + 1)
  }

  function Renewed(x: Item, mac: Mac, now: Time): Item {
    x.(mac := mac, ageing := now)
  }

  function Refreshed(x: Item, now: Time): Item {
    x.(ageing := now)
  }

  function Lowered(x: Item): Item {
    x.(useCount := x.useCount - 1)
  }

  function PutItem(bucket: seq<Item>, a: Addr, mac: Mac, now: Time, room: bool): seq<Item> {
    match Find(bucket, a)
    case Some(i) => bucket[i := Renewed(bucket[i], mac, now)]
    case None => if room then [Item(a, mac, now, 1)] + bucket else bucket
  }

  function UseItem(bucket: seq<Item>, a: Addr, age: Time, now: Time): seq<Item> {
    match Find(bucket, a)
    case Some(i) => if Expired(age, bucket[i].ageing, now) then bucket
                    else bucket[i := Used(bucket[i])]
    case None => bucket
  }

  /** What one expire pass leaves of an entry. */
  function Aged(x: Item, age: Time, now: Time): Option<Item> {
    if !Expired(age, x.ageing, now) then Some(x)
    else if x.useCount - 1 == 0 then None
    else Some(Lowered(x))
  }

  function AgeBucket(bucket: seq<Item>, age: Time, now: Time): (r: seq<Item>)
    ensures |r| <= |bucket|
  {
    if bucket == [] then []
    else
      var init := AgeBucket(bucket[..|bucket|-1], age, now);
      match Aged(bucket[|bucket|-1], age, now) { case None => init case Some(x) => init + [x] }
  }

  function TouchItem(bucket: seq<Item>, a: Addr, now: Time): seq<Item> {
    match Find(bucket, a)
    case Some(i) => bucket[i := Refreshed(bucket[i], now)]
    case None => bucket
  }

  // ----- the plain map

  type Table = map<Addr, Item>

  datatype Op =
    | Insert(addr: Addr, mac: Mac, now: Time, room: bool)
    | Lookup(addr: Addr, now: Time)
    | Touch(addr: Addr, now: Time)
    | Expire(now: Time)
    | Cleanup

  function Apply(m: Table, op: Op, age: Time): Table {
    match op
    case Insert(a, mac, now, room) =>
      if a in m then m[a := Renewed(m[a], mac, now)]
      else if room then m[a := Item(a, mac, now, 1)] else m
    case Lookup(a, now) =>
      if a in m && !Expired(age, m[a].ageing, now) then m[a := Used(m[a])] else m
    case Touch(a, now) => if a in m then m[a := Refreshed(m[a], now)] else m
    case Expire(now) => map a | a in m && Aged(m[a], age, now).Some? :: Aged(m[a], age, now).value
    case Cleanup => map[]
  }

  /** One pass, entry by entry: what has not expired is left alone, an expired entry
      loses one use, and only one on its last use goes. */
  lemma PassFate(m: Table, a: Addr, now: Time, age: Time)
    ensures var r := Apply(m, Expire(now), age);
            && (a in r <==> a in m && !(Expired(age, m[a].ageing, now) && m[a].useCount == 1))
            && (a in r && !Expired(age, m[a].ageing, now) ==> r[a] == m[a])
            && (a in r && Expired(age, m[a].ageing, now) ==>
                  r[a] == Item(m[a].addr, m[a].mac, m[a].ageing, m[a].useCount - 1))
  {
    hide Expired;
  }

  /** An insert gives the address the new MAC and time, a known one keeping its uses and a
      new one, if there is memory for it, starting with one; no other address is touched. */
  lemma InsertSets(m: Table, a: Addr, mac: Mac, now: Time, room: bool, age: Time, b: Addr)
    ensures var r := Apply(m, Insert(a, mac, now, room), age);
            && (a in r <==> a in m || room)
            && (a in m ==> r[a] == Item(m[a].addr, mac, now, m[a].useCount))
            && (a !in m && room ==> r[a] == Item(a, mac, now, 1))
            && (b != a ==> (b in r <==> b in m) && (b in m ==> r[b] == m[b]))
  {
    hide Expired;
  }

  /** A lookup adds one use to an unexpired entry and a touch gives an entry the time;
      both change nothing else. */
  lemma LookupAndTouch(m: Table, a: Addr, now: Time, age: Time, b: Addr)
    ensures var r := Apply(m, Lookup(a, now), age);
            && r.Keys == m.Keys
            && (a in m ==> r[a] == if Expired(age, m[a].ageing, now) then m[a]
                                   else Item(m[a].addr, m[a].mac, m[a].ageing, m[a].useCount + 1))
            && (b != a && b in m ==> r[b] == m[b])
    ensures var r := Apply(m, Touch(a, now), age);
            && r.Keys == m.Keys
            && (a in m ==> r[a] == Item(m[a].addr, m[a].mac, now, m[a].useCount))
            && (b != a && b in m ==> r[b] == m[b])
  {
    hide Expired;
  }

  function RunMap(ops: seq<Op>, age: Time): Table {
    if ops == [] then map[] else Apply(RunMap(ops[..|ops|-1], age), ops[|ops|-1], age)
  }

  // ----- buckets that stand for a map

  function StepBucket(bucket: seq<Item>, h: nat, op: Op, age: Time): seq<Item> {
    match op
    case Insert(a, mac, now, room) => if Hash(a) == h then PutItem(bucket, a, mac, now, room) else bucket
    case Lookup(a, now) => if Hash(a) == h then UseItem(bucket, a, age, now) else bucket
    case Touch(a, now) => if Hash(a) == h then TouchItem(bucket, a, now) else bucket
    case Expire(now) => AgeBucket(bucket, age, now)
    case Cleanup => []
  }

  /** The bucket holds exactly the map's entries for addresses that hash to h. */
  ghost predicate Holds(bucket: seq<Item>, h: nat, m: Table) {
    && WellFormed(bucket, h)
    && (forall i: nat | i < |bucket| :: bucket[i].addr in m && m[bucket[i].addr] == bucket[i])
    && (forall a | a in m && Hash(a) == h :: Find(bucket, a).Some?)
  }

  lemma FindUnique(bucket: seq<Item>, h: nat, i: nat)
    requires WellFormed(bucket, h) && i < |bucket|
    ensures Find(bucket, bucket[i].addr) == Some(i)
  {
  }

  lemma UpdateHolds(bucket: seq<Item>, h: nat, m: Table, i: nat, x: Item)
    requires Holds(bucket, h, m) && i < |bucket| && x.addr == bucket[i].addr && x.useCount >= 1
    ensures Holds(bucket[i := x], h, m[x.addr := x])
  {
    hide Hash;
    var r := bucket[i := x];
    forall a | a in m[x.addr := x] && Hash(a) == h
      ensures Find(r, a).Some?
    {
      var k := Find(bucket, a).value;
      assert r[k].addr == a;
    }
  }

  lemma {:induction false} AgeMembers(bucket: seq<Item>, age: Time, now: Time)
    ensures forall x :: x in AgeBucket(bucket, age, now) <==>
            exists i: nat :: i < |bucket| && Aged(bucket[i], age, now) == Some(x)
  {
    if bucket != [] {
      var init, last := bucket[..|bucket|-1], bucket[|bucket|-1];
      AgeMembers(init, age, now);
      hide Aged;
      forall x
        ensures x in AgeBucket(bucket, age, now) <==>
                exists i: nat :: i < |bucket| && Aged(bucket[i], age, now) == Some(x)
      {
        if x in AgeBucket(init, age, now) {
          var i: nat :| i < |init| && Aged(init[i], age, now) == Some(x);
          assert bucket[i] == init[i];
        }
        if i: nat :| i < |bucket| && Aged(bucket[i], age, now) == Some(x) {
          if i < |init| { assert init[i] == bucket[i]; }
        }
      }
    }
  }

  lemma AgedKeeps(x: Item, age: Time, now: Time)
    ensures var r := Aged(x, age, now);
            r.Some? ==> r.value.addr == x.addr && (x.useCount >= 1 ==> r.value.useCount >= 1)
  {
    hide Expired;
  }

  lemma AppendWellFormed(r: seq<Item>, x: Item, h: nat)
    requires WellFormed(r, h) && Hash(x.addr) == h && x.useCount >= 1
    requires forall k: nat | k < |r| :: r[k].addr != x.addr
    ensures WellFormed(r + [x], h)
  {
    hide Hash;
  }

  lemma {:induction false} AgeWellFormed(bucket: seq<Item>, h: nat, age: Time, now: Time)
    requires WellFormed(bucket, h)
    ensures WellFormed(AgeBucket(bucket, age, now), h)
  {
    if bucket != [] {
      var init, last := bucket[..|bucket|-1], bucket[|bucket|-1];
      AgeWellFormed(init, h, age, now);
      AgeMembers(init, age, now);
      var r := AgeBucket(init, age, now);
      hide AgeBucket, Hash, Aged;
      AgedKeeps(last, age, now);
      forall k: nat | k < |r|
        ensures r[k].addr != last.addr
      {
        assert r[k] in r;
        var i: nat :| i < |init| && Aged(init[i], age, now) == Some(r[k]);
        assert init[i] == bucket[i];
        AgedKeeps(init[i], age, now);
      }
      if Aged(last, age, now).Some? { AppendWellFormed(r, Aged(last, age, now).value, h); }
    }
    AgeStep(bucket, age, now);
  }

  lemma AgeStep(bucket: seq<Item>, age: Time, now: Time)
    ensures AgeBucket(bucket, age, now) ==
            if bucket == [] then []
            else AgeBucket(bucket[..|bucket|-1], age, now)
                 + match Aged(bucket[|bucket|-1], age, now) { case None => [] case Some(x) => [x] }
  {
  }

  lemma ConsWellFormed(bucket: seq<Item>, h: nat, x: Item)
    requires WellFormed(bucket, h) && Hash(x.addr) == h && x.useCount >= 1
    requires forall i: nat | i < |bucket| :: bucket[i].addr != x.addr
    ensures WellFormed([x] + bucket, h)
  {
  }

  lemma ConsHolds(bucket: seq<Item>, h: nat, m: Table, x: Item)
    requires Holds(bucket, h, m) && Hash(x.addr) == h && x.useCount >= 1 && x.addr !in m
    ensures Holds([x] + bucket, h, m[x.addr := x])
  {
    hide WellFormed, Hash;
    ConsWellFormed(bucket, h, x);
    var r := [x] + bucket;
    assert r[1..] == bucket;
    forall b | b in m[x.addr := x] && Hash(b) == h
      ensures Find(r, b).Some?
    {
    }
  }

  lemma OtherHolds(bucket: seq<Item>, h: nat, m: Table, x: Item)
    requires Holds(bucket, h, m) && Hash(x.addr) != h
    ensures Holds(bucket, h, m[x.addr := x])
  {
  }

  lemma FindIsMember(bucket: seq<Item>, h: nat, m: Table, a: Addr)
    requires Holds(bucket, h, m) && Hash(a) == h
    ensures Find(bucket, a).Some? <==> a in m
    ensures a in m ==> m[a] == bucket[Find(bucket, a).value]
  {
  }

  /** One entry rewritten in place, in the bucket and in the map. */
  lemma RewriteHolds(bucket: seq<Item>, h: nat, m: Table, x: Item)
    requires Holds(bucket, h, m) && x.addr in m && x.useCount >= 1
    ensures Hash(x.addr) != h ==> Holds(bucket, h, m[x.addr := x])
    ensures Hash(x.addr) == h ==>
            Find(bucket, x.addr).Some? && Holds(bucket[Find(bucket, x.addr).value := x], h, m[x.addr := x])
  {
    if Hash(x.addr) == h {
      UpdateHolds(bucket, h, m, Find(bucket, x.addr).value, x);
    } else {
      OtherHolds(bucket, h, m, x);
    }
  }

  lemma InsertHolds(bucket: seq<Item>, h: nat, m: Table, op: Op, age: Time)
    requires Holds(bucket, h, m) && op.Insert?
            && (op.addr in m ==> m[op.addr].useCount >= 1 && m[op.addr].addr == op.addr)
    ensures Holds(StepBucket(bucket, h, op, age), h, Apply(m, op, age))
  {
    hide Holds, Find, Expired, Hash;
    var x := if op.addr in m then Renewed(m[op.addr], op.mac, op.now) else Item(op.addr, op.mac, op.now, 1);
    if Hash(op.addr) == h { FindIsMember(bucket, h, m, op.addr); }
    if op.addr in m {
      RewriteHolds(bucket, h, m, x);
    } else if op.room && Hash(op.addr) == h {
      ConsHolds(bucket, h, m, x);
    } else if op.room {
      OtherHolds(bucket, h, m, x);
    }
  }

  lemma UseItemIs(bucket: seq<Item>, m: Table, a: Addr, age: Time, now: Time)
    requires Find(bucket, a).Some? <==> a in m
    requires a in m ==> m[a] == bucket[Find(bucket, a).value]
    ensures UseItem(bucket, a, age, now) ==
            if a in m && !Expired(age, m[a].ageing, now)
            then bucket[Find(bucket, a).value := Used(m[a])] else bucket
  {
    hide Find, Expired, Hash;
  }

  lemma LookupHolds(bucket: seq<Item>, h: nat, m: Table, op: Op, age: Time)
    requires Holds(bucket, h, m) && op.Lookup?
            && (op.addr in m ==> m[op.addr].useCount >= 1 && m[op.addr].addr == op.addr)
    ensures Holds(StepBucket(bucket, h, op, age), h, Apply(m, op, age))
  {
    hide Holds, Find, UseItem;
    hide Expired, Hash;
    var a := op.addr;
    if Hash(a) == h {
      FindIsMember(bucket, h, m, a);
      UseItemIs(bucket, m, a, age, op.now);
    }
    if a in m && !Expired(age, m[a].ageing, op.now) {
      var x := Used(m[a]);
      RewriteHolds(bucket, h, m, x);
      assert Apply(m, op, age) == m[a := x];
      assert Hash(a) == h ==> StepBucket(bucket, h, op, age) == bucket[Find(bucket, a).value := x];
    } else {
      assert StepBucket(bucket, h, op, age) == bucket;
    }
  }

  lemma TouchHolds(bucket: seq<Item>, h: nat, m: Table, op: Op, age: Time)
    requires Holds(bucket, h, m) && op.Touch?
            && (op.addr in m ==> m[op.addr].useCount >= 1 && m[op.addr].addr == op.addr)
    ensures Holds(StepBucket(bucket, h, op, age), h, Apply(m, op, age))
  {
    hide Holds, Find, Expired, Hash;
    if Hash(op.addr) == h { FindIsMember(bucket, h, m, op.addr); }
    if op.addr in m {
      RewriteHolds(bucket, h, m, Refreshed(m[op.addr], op.now));
    }
  }

  /** The whole table stands for m: sixteen buckets, each the image of m. */
  ghost predicate Represents(buckets: seq<seq<Item>>, m: Table) {
    |buckets| == NAT25_HASH_SIZE && forall h: nat | h < NAT25_HASH_SIZE :: Holds(buckets[h], h, m)
  }

  function StepBuckets(buckets: seq<seq<Item>>, op: Op, age: Time): (r: seq<seq<Item>>)
    requires |buckets| == NAT25_HASH_SIZE
    ensures |r| == NAT25_HASH_SIZE
  {
    seq(NAT25_HASH_SIZE, h requires 0 <= h < NAT25_HASH_SIZE => StepBucket(buckets[h], h, op, age))
  }

  /** An operation on one address changes only that address's bucket. */
  lemma StepAt(buckets: seq<seq<Item>>, op: Op, age: Time, r: seq<Item>)
    requires |buckets| == NAT25_HASH_SIZE && (op.Insert? || op.Lookup? || op.Touch?)
    requires r == StepBucket(buckets[Hash(op.addr)], Hash(op.addr), op, age)
    ensures StepBuckets(buckets, op, age) == buckets[Hash(op.addr) := r]
  {
    hide PutItem, UseItem, TouchItem, Hash;
  }

  lemma CountsPositive(buckets: seq<seq<Item>>, m: Table, a: Addr)
    requires Represents(buckets, m) && a in m
    ensures m[a].useCount >= 1 && m[a].addr == a
  {
    assert Holds(buckets[Hash(a)], Hash(a), m);
    FindIsMember(buckets[Hash(a)], Hash(a), m, a);
  }

  /** Every operation on the buckets is the operation on the map. */
  lemma StepRepresents(buckets: seq<seq<Item>>, m: Table, op: Op, age: Time)
    requires Represents(buckets, m)
    ensures Represents(StepBuckets(buckets, op, age), Apply(m, op, age))
  {
    forall h: nat | h < NAT25_HASH_SIZE
      ensures Holds(StepBucket(buckets[h], h, op, age), h, Apply(m, op, age))
    {
      match op
      case Insert(a, _, _, _) =>
        if a in m { CountsPositive(buckets, m, a); }
        InsertHolds(buckets[h], h, m, op, age);
      case Lookup(a, _) =>
        if a in m { CountsPositive(buckets, m, a); }
        LookupHolds(buckets[h], h, m, op, age);
      case Touch(a, _) =>
        if a in m { CountsPositive(buckets, m, a); }
        TouchHolds(buckets[h], h, m, op, age);
      case Expire(now) => ExpireHolds(buckets[h], h, m, now, age);
      case Cleanup =>
    }
    hide Holds, StepBucket, Apply;
  }

  lemma ExpireHolds(bucket: seq<Item>, h: nat, m: Table, now: Time, age: Time)
    requires Holds(bucket, h, m)
    ensures Holds(AgeBucket(bucket, age, now), h, Apply(m, Expire(now), age))
  {
    hide AgeBucket, Aged, Hash, WellFormed;
    AgeWellFormed(bucket, h, age, now);
    AgeMembers(bucket, age, now);
    var r, m' := AgeBucket(bucket, age, now), Apply(m, Expire(now), age);
    forall i: nat | i < |r|
      ensures r[i].addr in m' && m'[r[i].addr] == r[i]
    {
      assert r[i] in r;
      var k: nat :| k < |bucket| && Aged(bucket[k], age, now) == Some(r[i]);
      AgedKeeps(bucket[k], age, now);
    }
    forall a | a in m' && Hash(a) == h
      ensures Find(r, a).Some?
    {
      var k := Find(bucket, a).value;
      assert Aged(bucket[k], age, now) == Some(m'[a]);
      assert m'[a] in r;
      AgedKeeps(bucket[k], age, now);
    }
  }
}
