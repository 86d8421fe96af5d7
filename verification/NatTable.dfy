/** The hash table of intrusive chains behind NAT2.5 (rtw_br_ext.c): every method
    relinks entries through their own link fields and is proved to be the bucket
    operation of the same name, so whole runs agree with the plain map. */
module NatTable {
  import opened NatSpec
  import opened NatRuns
  import opened Wrappers

  /** What `pprev_hash` points at: nothing, a bucket head, or the `next_hash` field
      of another entry. */
  datatype Link = NoLink | Bucket(hash: nat) | NextOf(entry: Entry)

  /** `struct nat25_network_db_entry`. */
  class Entry {
    var nextHash: Entry?
    var pprevHash: Link
    var useCount: int
    var macAddr: Mac
    var ageingTimer: Time
    const networkAddr: Addr

    constructor (networkAddr: Addr, macAddr: Mac, now: Time)
      ensures this.networkAddr == networkAddr && this.macAddr == macAddr && ageingTimer == now && useCount == 1
    {
      this.networkAddr, this.macAddr := networkAddr, macAddr;
      useCount, ageingTimer := 1, now;
      nextHash, pprevHash := null, NoLink;
    }
  }

  /** The entry after the i-th of c, and the link that points at the i-th. */
  ghost function NextAt(c: seq<Entry>, i: nat): Entry?
    requires i < |c|
  {
    if i + 1 < |c| then c[i + 1] else null
  }

  ghost function LinkTo(c: seq<Entry>, h: nat, i: nat): Link
    requires i < |c|
  {
    if i == 0 then Bucket(h) else NextOf(c[i - 1])
  }

  /** The chain that starts at head in bucket h visits exactly the entries of c:
      it ends in null and each back link is the link that points at its entry. */
  ghost predicate Linked(c: seq<Entry>, h: nat, head: Entry?)
    reads c`nextHash, c`pprevHash
  {
    && head == (if c == [] then null else c[0])
    && (forall i: nat | i < |c| :: c[i].nextHash == NextAt(c, i))
    && (forall i: nat | i < |c| :: c[i].pprevHash == LinkTo(c, h, i))
    && Distinct(c)
  }

  ghost predicate Distinct(c: seq<Entry>) {
    forall i: nat, j: nat | i < j < |c| :: c[i] != c[j]
  }

  /** How next and back links change when the k-th entry leaves the chain. */
  lemma Dropped(c: seq<Entry>, h: nat, k: nat)
    requires k < |c| && Distinct(c)
    ensures var d := Drop(c, k);
            && Distinct(d)
            && (if d == [] then null else d[0]) == (if k == 0 then NextAt(c, 0) else c[0])
            && (forall i: nat | i < |d| :: d[i] == if i < k then c[i] else c[i + 1])
            && (forall i: nat | i < |d| ::
                  NextAt(d, i) == NextAt(c, if i + 1 == k then k else if i < k then i else i + 1))
            && (forall i: nat | i < |d| :: LinkTo(d, h, i) == LinkTo(c, h, if i <= k then i else i + 1))
  {
  }

  /** The entries of c carry the data in items. */
  ghost predicate Shows(c: seq<Entry>, items: seq<Item>)
    reads c`useCount, c`macAddr, c`ageingTimer
  {
    && |items| == |c|
    && forall i: nat | i < |c| :: items[i] == Data(c[i])
  }

  ghost predicate Holding(c: seq<Entry>, items: seq<Item>, h: nat)
    reads c`useCount, c`macAddr, c`ageingTimer
  {
    Shows(c, items) && WellFormed(items, h)
  }

  lemma SetSame(items: seq<seq<Item>>, h: nat, k: nat)
    requires h < |items| && k < |items[h]|
    ensures SetItem(items, h, k, items[h][k]) == items
  {
    assert items[h][k := items[h][k]] == items[h];
  }

  /** An entry's data, apart from its links. */
  ghost function Data(e: Entry): Item
    reads e`useCount, e`macAddr, e`ageingTimer
  {
    Item(e.networkAddr, e.macAddr, e.ageingTimer, e.useCount)
  }

  lemma Rewritten(c: seq<Entry>, items: seq<Item>, h: nat, k: nat, x: Item)
    requires WellFormed(items, h) && k < |c| == |items| && x.useCount >= 1 && x.addr == items[k].addr
    requires forall i: nat | i < |c| :: Data(c[i]) == if i == k then x else items[i]
    ensures Holding(c, items[k := x], h)
  {
    hide Hash, Data;
  }

  ghost function SetItem(items: seq<seq<Item>>, h: nat, k: nat, x: Item): (r: seq<seq<Item>>)
    requires h < |items| && k < |items[h]|
    ensures |r| == |items| && r[h] == items[h][k := x]
    ensures forall g: nat | g < |r| && g != h :: r[g] == items[g]
  {
    items[h := items[h][k := x]]
  }

  function EntryOf(items: seq<seq<Item>>, a: Addr): Item
    requires |items| == NAT25_HASH_SIZE && Find(items[Hash(a)], a).Some?
  {
    items[Hash(a)][Find(items[Hash(a)], a).value]
  }

  lemma LookupStep(items: seq<seq<Item>>, a: Addr, now: Time, age: Time)
    requires |items| == NAT25_HASH_SIZE
    ensures var f := Find(items[Hash(a)], a);
      StepBuckets(items, Op.Lookup(a, now), age) ==
        if f.Some? && !Expired(age, EntryOf(items, a).ageing, now)
            then SetItem(items, Hash(a), f.value, Used(EntryOf(items, a))) else items
  {
    hide Hash, Find, Expired, StepBuckets;
    StepAt(items, Op.Lookup(a, now), age, StepBucket(items[Hash(a)], Hash(a), Op.Lookup(a, now), age));
  }

  lemma InsertStep(items: seq<seq<Item>>, a: Addr, mac: Mac, now: Time, room: bool, age: Time)
    requires |items| == NAT25_HASH_SIZE
    ensures var h, f := Hash(a), Find(items[Hash(a)], a);
      StepBuckets(items, Op.Insert(a, mac, now, room), age) ==
        if f.Some? then SetItem(items, h, f.value, Renewed(EntryOf(items, a), mac, now))
        else if room then items[h := [Item(a, mac, now, 1)] + items[h]] else items
  {
    hide Hash, Find, StepBuckets;
    StepAt(items, Op.Insert(a, mac, now, room), age,
        StepBucket(items[Hash(a)], Hash(a), Op.Insert(a, mac, now, room), age));
  }

  lemma TouchStep(items: seq<seq<Item>>, a: Addr, now: Time, age: Time)
    requires |items| == NAT25_HASH_SIZE
    ensures var h, f := Hash(a), Find(items[Hash(a)], a);
      StepBuckets(items, Op.Touch(a, now), age) ==
        if f.Some? then SetItem(items, h, f.value, Refreshed(EntryOf(items, a), now)) else items
  {
    hide Hash, Find, StepBuckets;
    StepAt(items, Op.Touch(a, now), age, StepBucket(items[Hash(a)], Hash(a), Op.Touch(a, now), age));
  }

  method CopyMac(frame: array<bv8>, mac: Mac)
    requires frame.Length >= 6
    modifies frame
    ensures frame[..] == mac + old(frame[6..])
  {
    forall i | 0 <= i < 6 {
      frame[i] := mac[i];
    }
    assert frame[..] == mac + old(frame[6..]);
  }

  /** Every entry of c is allocated and belongs in bucket h. */
  ghost predicate Members(c: seq<Entry>, h: nat, live: set<Entry>) {
    forall i: nat | i < |c| :: c[i] in live && Hash(c[i].networkAddr) == h
  }

  /** The neighbours of the k-th entry are other entries. */
  lemma Around(c: seq<Entry>, h: nat, k: nat)
    requires k < |c| && Distinct(c)
    ensures forall i: nat | i < |c| && i != k :: c[i] != c[k]
    ensures forall i: nat | i < |c| :: c[i] == NextAt(c, k) <==> i == k + 1
    ensures NextAt(c, k) == (if k + 1 < |c| then c[k + 1] else null)
    ensures LinkTo(c, h, k) == if k == 0 then Bucket(h) else NextOf(c[k - 1])
    ensures k > 0 ==> forall i: nat | i < |c| && i + 1 != k :: c[i] != c[k - 1]
  {
  }

  /** How next and back links change when an entry is put in front of the chain. */
  lemma Prepended(c: seq<Entry>, h: nat, e: Entry)
    requires e !in c && Distinct(c)
    ensures var d := [e] + c;
            && Distinct(d)
            && NextAt(d, 0) == (if c == [] then null else c[0]) && LinkTo(d, h, 0) == Bucket(h)
            && (forall i: nat | 0 < i < |d| :: d[i] == c[i - 1] && NextAt(d, i) == NextAt(c, i - 1))
            && (forall i: nat | 0 < i < |d| :: LinkTo(d, h, i) == if i == 1 then NextOf(e) else LinkTo(c, h, i - 1))
    ensures forall i: nat | 0 < i < |c| :: c[i] != c[0]
  {
  }

  /** `__network_hash_link`: puts ent in front of the chain of bucket h. */
  method HashLink(nethash: array<Entry?>, ent: Entry, h: nat, ghost c: seq<Entry>)
    requires h < nethash.Length && Linked(c, h, nethash[h]) && ent !in c
    modifies nethash, ent`nextHash, ent`pprevHash, c`pprevHash
    ensures Linked([ent] + c, h, nethash[h])
    ensures forall g: nat | g < nethash.Length && g != h :: nethash[g] == old(nethash[g])
  {
    hide NextAt, LinkTo, Distinct;
    Prepended(c, h, ent);
    ent.nextHash := nethash[h];
    if ent.nextHash != null {
      ent.nextHash.pprevHash := NextOf(ent);
    }
    nethash[h] := ent;
    ent.pprevHash := Bucket(h);
    ghost var d := [ent] + c;
    assert forall i: nat | i < |d| :: d[i].nextHash == NextAt(d, i);
    assert forall i: nat | i < |d| :: d[i].pprevHash == LinkTo(d, h, i);
  }

  /** The writes of `__network_hash_unlink`: through the back link of ent, and into
      the back link of its successor. */
  method CutLinks(nethash: array<Entry?>, ent: Entry, ghost h: nat, ghost c: seq<Entry>, ghost k: nat)
    requires h < nethash.Length && Linked(c, h, nethash[h]) && k < |c| && c[k] == ent
    modifies nethash, c`nextHash, c`pprevHash
    ensures ent.nextHash == null && ent.pprevHash == NoLink
    ensures forall i: nat | i < |c| && i != k :: c[i].nextHash == NextAt(c, if i + 1 == k then k else i)
    ensures forall i: nat | i < |c| && i != k :: c[i].pprevHash == LinkTo(c, h, if i == k + 1 then k else i)
    ensures nethash[..] == old(nethash[..])[h := if k == 0 then NextAt(c, 0) else c[0]]
  {
    hide NextAt, LinkTo, Distinct;
    Around(c, h, k);
    match ent.pprevHash {
      case Bucket(b) => nethash[b] := ent.nextHash;
      case NextOf(prev) => prev.nextHash := ent.nextHash;
      case NoLink => assert false;
    }
    if ent.nextHash != null {
      ent.nextHash.pprevHash := ent.pprevHash;
    }
    ent.nextHash := null;
    ent.pprevHash := NoLink;
  }

  /** `__network_hash_unlink`: the chain of bucket h without its k-th entry. */
  method HashUnlink(nethash: array<Entry?>, ent: Entry, ghost h: nat, ghost c: seq<Entry>, ghost k: nat)
    requires h < nethash.Length && Linked(c, h, nethash[h]) && k < |c| && c[k] == ent
    modifies nethash, c`nextHash, c`pprevHash
    ensures Linked(Drop(c, k), h, nethash[h])
    ensures forall g: nat | g < nethash.Length && g != h :: nethash[g] == old(nethash[g])
  {
    hide NextAt, LinkTo, Distinct, Drop;
    Dropped(c, h, k);
    CutLinks(nethash, ent, h, c, k);
    ghost var d := Drop(c, k);
    assert forall i: nat | i < |d| :: d[i].nextHash == NextAt(d, i);
    assert forall i: nat | i < |d| :: d[i].pprevHash == LinkTo(d, h, i);
  }

  /** The live entries are exactly the chained ones, each in its own bucket. */
  ghost predicate Filed(chains: seq<seq<Entry>>, live: set<Entry>)
    ensures Filed(chains, live) ==> |chains| == NAT25_HASH_SIZE
  {
    && |chains| == NAT25_HASH_SIZE
    && (forall h: nat | h < NAT25_HASH_SIZE :: Members(chains[h], h, live))
    && (forall e | e in live :: e in chains[Hash(e.networkAddr)])
  }

  lemma FiledLink(chains: seq<seq<Entry>>, live: set<Entry>, e: Entry, h: nat)
    requires Filed(chains, live) && h == Hash(e.networkAddr)
    ensures Filed(chains[h := [e] + chains[h]], live + {e})
  {
    hide Hash;
  }

  function Drop<T>(s: seq<T>, k: nat): (r: seq<T>)
    requires k < |s|
    ensures |r| == |s| - 1
    ensures forall i: nat | i < |r| :: r[i] == s[if i < k then i else i + 1]
  {
    s[..k] + s[k + 1..]
  }

  lemma FiledDrop(chains: seq<seq<Entry>>, live: set<Entry>, h: nat, k: nat)
    requires Filed(chains, live) && h < NAT25_HASH_SIZE && k < |chains[h]| && Distinct(chains[h])
    ensures Filed(chains[h := Drop(chains[h], k)], live - {chains[h][k]})
  {
    hide Hash;
    var c, e := chains[h], chains[h][k];
    forall x | x in live - {e}
      ensures x in chains[h := Drop(c, k)][Hash(x.networkAddr)]
    {
      if Hash(x.networkAddr) == h {
        var i: nat :| i < |c| && c[i] == x;
        assert Drop(c, k)[if i < k then i else i - 1] == x;
      }
    }
  }

  lemma HoldingDrop(c: seq<Entry>, items: seq<Item>, h: nat, k: nat)
    requires Holding(c, items, h) && k < |c|
    ensures |items| == |c| && Holding(Drop(c, k), Drop(items, k), h)
  {
    hide Hash;
  }

  lemma HoldingLink(c: seq<Entry>, items: seq<Item>, h: nat, e: Entry)
    requires Holding(c, items, h) && h == Hash(e.networkAddr) && e.useCount >= 1
    requires Find(items, e.networkAddr) == None
    ensures Holding([e] + c, [Data(e)] + items, h)
  {
    hide WellFormed, Hash, Find;
    ConsWellFormed(items, h, Data(e));
  }

  /** A bucket whose first i entries have been swept. */
  ghost function Mixed(b: seq<Item>, i: nat, age: Time, now: Time): seq<Item>
    requires i <= |b|
  {
    AgeBucket(b[..i], age, now) + b[i..]
  }

  lemma MixedParts(kept: seq<Item>, b: seq<Item>, i: nat)
    requires i < |b|
    ensures (kept + b[i..])[|kept|] == b[i] && Drop(kept + b[i..], |kept|) == kept + [] + b[i + 1..]
  {
  }

  lemma MixedNext(kept: seq<Item>, b: seq<Item>, i: nat, x: Item)
    requires i < |b|
    ensures (kept + b[i..])[|kept| := x] == kept + [x] + b[i + 1..]
  {
  }

  /** One entry of a sweep: either it leaves the bucket or it stays, changed. */
  lemma SweepStep(b: seq<Item>, i: nat, age: Time, now: Time)
    requires i < |b|
    ensures var k := |AgeBucket(b[..i], age, now)|;
      var mixed := Mixed(b, i, age, now);
      && k < |mixed| && mixed[k] == b[i]
      && Mixed(b, i + 1, age, now)
          == (match Aged(b[i], age, now) { case None => Drop(mixed, k) case Some(x) => mixed[k := x] })
      && |AgeBucket(b[..i + 1], age, now)| == k + if Aged(b[i], age, now).Some? then 1 else 0
  {
    hide AgeBucket, Aged;
    AgeStep(b[..i + 1], age, now);
    assert b[..i + 1][..i] == b[..i];
    var kept := AgeBucket(b[..i], age, now);
    MixedParts(kept, b, i);
    if Aged(b[i], age, now).Some? {
      MixedNext(kept, b, i, Aged(b[i], age, now).value);
    }
  }

  /** The sweep has reached entry i of the original chain c, now at place k. */
  ghost predicate Swept(chain: seq<Entry>, bucket: seq<Item>, c: seq<Entry>, b: seq<Item>, i: nat, k: nat, age: Time,
                        now: Time) {
    && i <= |b| == |c| && k == |AgeBucket(b[..i], age, now)| <= |chain|
    && chain[k..] == c[i..] && bucket == Mixed(b, i, age, now)
  }

  lemma SweptEnds(c: seq<Entry>, b: seq<Item>, age: Time, now: Time)
    requires |b| == |c|
    ensures Swept(c, b, c, b, 0, 0, age, now)
  {
  }

  lemma SweptDone(chain: seq<Entry>, bucket: seq<Item>, c: seq<Entry>, b: seq<Item>, k: nat, age: Time, now: Time)
    requires Swept(chain, bucket, c, b, |c|, k, age, now)
    ensures bucket == AgeBucket(b, age, now)
  {
    assert b[..|b|] == b;
  }

  lemma SweptNext(chain: seq<Entry>, bucket: seq<Item>, c: seq<Entry>, b: seq<Item>, i: nat, k: nat, age: Time,
                  now: Time)
    requires Swept(chain, bucket, c, b, i, k, age, now) && i < |c|
    ensures k < |chain| && k < |bucket| && chain[k] == c[i] && bucket[k] == b[i]
    ensures (if k + 1 < |chain| then chain[k + 1] else null) == (if i + 1 < |c| then c[i + 1] else null)
    ensures !Expired(age, b[i].ageing, now) ==> Swept(chain, bucket, c, b, i + 1, k + 1, age, now)
    ensures Expired(age, b[i].ageing, now) && b[i].useCount == 1 ==>
            Swept(Drop(chain, k), Drop(bucket, k), c, b, i + 1, k, age, now)
    ensures Expired(age, b[i].ageing, now) && b[i].useCount != 1 ==>
            Swept(chain, bucket[k := Lowered(b[i])], c, b, i + 1, k + 1, age, now)
  {
    hide AgeBucket, Mixed, Expired;
    SweepStep(b, i, age, now);
    assert !Expired(age, b[i].ageing, now) ==> bucket[k := b[i]] == bucket;
    assert chain[k] == chain[k..][0];
    if k + 1 < |chain| { assert chain[k + 1] == chain[k..][1]; }
    assert c[i + 1..] == c[i..][1..] == chain[k..][1..] == chain[k + 1..] == Drop(chain, k)[k..];
  }

  const ETH_P_IP: seq<bv8> := [0x08, 0x00]

  /** An IPv4 frame to a single receiver, not sent by the bridge itself. */
  predicate Unicast(f: seq<bv8>, brMac: Mac)
    requires |f| >= 14
  {
    f[0] & 1 == 0 && f[6..12] != brMac && f[12..14] == ETH_P_IP
  }

  class NatTable {
    const nethash: array<Entry?>
    const ageingTime: Time
    var scdbEntry: Entry?
    var scdbMac: Mac
    var scdbIp: Ip
    /** The entries of each chain in order, the data they carry, and the entries
        allocated and not yet freed. */
    ghost var chains: seq<seq<Entry>>
    ghost var items: seq<seq<Item>>
    ghost var live: set<Entry>

    /** Every chain is well linked and stays in its bucket; the live entries are
        exactly the linked ones; the shortcut entry is never a freed one. */
    ghost predicate Structure()
      reads this`chains, this`live, this`scdbEntry, nethash, live`nextHash, live`pprevHash
    {
      && nethash.Length == NAT25_HASH_SIZE && Filed(chains, live)
      && (forall h: nat | h < NAT25_HASH_SIZE :: Linked(chains[h], h, nethash[h]))
      && (scdbEntry != null ==> scdbEntry in live)
    }

    /** What the chains hold: no address twice, every use count at least one. */
    ghost predicate Content()
      requires Filed(chains, live)
      reads this`chains, this`live, this`items, live`useCount, live`macAddr, live`ageingTimer
    {
      && |items| == NAT25_HASH_SIZE
      && (forall h: nat | h < NAT25_HASH_SIZE :: Holding(chains[h], items[h], h))
    }

    ghost predicate Valid()
      reads this, nethash, live
      ensures Valid() ==> |chains| == NAT25_HASH_SIZE == |items|
    {
      Structure() && Content()
    }

    constructor (ageingTime: Time)
      ensures Valid() && this.ageingTime == ageingTime && live == {} && fresh(nethash)
      ensures items == seq(NAT25_HASH_SIZE, _ => [])
      ensures scdbEntry == null && scdbMac == NO_MAC && scdbIp == NO_IP
    {
      nethash := new Entry?[NAT25_HASH_SIZE](_ => null);
      this.ageingTime := ageingTime;
      scdbEntry, scdbMac, scdbIp := null, NO_MAC, NO_IP;
      chains, items, live := seq(NAT25_HASH_SIZE, _ => []), seq(NAT25_HASH_SIZE, _ => []), {};
      new;
      hide Hash;
    }

    /** The remembered sender stays remembered while its entry lives, and is forgotten
        altogether when that is freed. */
    ghost predicate KeptScdb(entry: Entry?, mac: Mac, ip: Ip)
      reads this`live, this`scdbEntry, this`scdbMac, this`scdbIp
    {
      if entry == null || entry in live then scdbEntry == entry && scdbMac == mac && scdbIp == ip
      else scdbEntry == null && scdbMac == NO_MAC && scdbIp == NO_IP
    }

    /** Its entry is the one of its IP address. */
    ghost predicate OwnEntry()
      reads this`scdbEntry, this`scdbIp
    {
      scdbEntry != null ==> scdbEntry.networkAddr == Ipv4Addr(scdbIp)
    }

    lemma Apart(h: nat)
      requires Structure() && h < NAT25_HASH_SIZE
      ensures forall g: nat, i: nat, j: nat ::
                g < NAT25_HASH_SIZE && g != h && i < |chains[g]| && j < |chains[h]| ==> chains[g][i] != chains[h][j]
      ensures Distinct(chains[h])
    {
      hide Hash, Distinct;
    }

    lemma Placed(h: nat, k: nat)
      requires Valid() && h < NAT25_HASH_SIZE && k < |chains[h]|
      ensures chains[h][k] in live && |items| == NAT25_HASH_SIZE && |items[h]| == |chains[h]|
      ensures items[h][k] == Data(chains[h][k])
    {
      hide Hash, Linked, WellFormed;
    }

    lemma Shown(h: nat)
      requires Valid() && h < NAT25_HASH_SIZE
      ensures |items| == NAT25_HASH_SIZE && |items[h]| == |chains[h]| && WellFormed(items[h], h)
      ensures forall i: nat | i < |chains[h]| :: items[h][i] == Data(chains[h][i]) && items[h][i].useCount >= 1
      ensures forall i: nat, j: nat | i < j < |chains[h]| :: chains[h][i] != chains[h][j]
    {
      hide Hash;
    }

    /** Where the search stands and where it goes next. */
    lemma Follow(h: nat, k: nat)
      requires Valid() && h < NAT25_HASH_SIZE && k < |chains[h]|
      ensures chains[h][k].nextHash == if k + 1 < |chains[h]| then chains[h][k + 1] else null
    {
      hide Hash, Content, Filed;
    }

    lemma Begins(h: nat)
      requires Valid() && h < NAT25_HASH_SIZE
      ensures nethash.Length == NAT25_HASH_SIZE && |items[h]| == |chains[h]|
      ensures nethash[h] == if chains[h] == [] then null else chains[h][0]
    {
      hide Hash, Filed, WellFormed;
    }

    /** The search loop shared by lookup, insert and `scdb_findEntry`. */
    method FindEntry(networkAddr: Addr) returns (db: Entry?, ghost k: nat)
      requires Valid()
      ensures var h := Hash(networkAddr);
        && |items[h]| == |chains[h]|
        && db == (match Find(items[h], networkAddr) { case None => null case Some(i) => chains[h][i] })
        && (db != null ==> Find(items[h], networkAddr) == Some(k))
    {
      hide Hash, Find, Structure, Content;
      var h := Hash(networkAddr);
      Begins(h);
      k := 0;
      db := nethash[h];
      while db != null
        invariant k <= |chains[h]| && db == if k < |chains[h]| then chains[h][k] else null
        invariant forall i: nat | i < k :: items[h][i].addr != networkAddr
        decreases |chains[h]| - k
      {
        Placed(h, k);
        if db.networkAddr == networkAddr {
          FindFirst(items[h], networkAddr, k);
          return;
        }
        Follow(h, k);
        db, k := db.nextHash, k + 1;
      }
      FindFirst(items[h], networkAddr, k);
    }

    /** `atomic_inc(&db->use_count)`. */
    method UseEntry(db: Entry, ghost h: nat, ghost k: nat)
      requires Valid() && h < NAT25_HASH_SIZE && k < |chains[h]| && chains[h][k] == db
      modifies this`items, db`useCount
      ensures Valid() && k < |old(items[h])|
      ensures items == SetItem(old(items), h, k, Used(old(items[h][k])))
    {
      hide Hash, Linked, Members, Holding, SetItem, WellFormed;
      Apart(h);
      Shown(h);
      db.useCount := db.useCount + 1;
      ghost var x := Used(items[h][k]);
      Rewritten(chains[h], items[h], h, k, x);
      items := SetItem(items, h, k, x);
    }

    /** The new MAC and time of an address that is inserted again. */
    method RenewEntry(db: Entry, macAddr: Mac, now: Time, ghost h: nat, ghost k: nat)
      requires Valid() && h < NAT25_HASH_SIZE && k < |chains[h]| && chains[h][k] == db
      modifies this`items, db`macAddr, db`ageingTimer
      ensures Valid() && k < |old(items[h])|
      ensures items == SetItem(old(items), h, k, Renewed(old(items[h][k]), macAddr, now))
    {
      hide Hash, Linked, Members, Holding, SetItem, WellFormed;
      Apart(h);
      Shown(h);
      db.macAddr := macAddr;
      db.ageingTimer := now;
      ghost var x := Renewed(items[h][k], macAddr, now);
      Rewritten(chains[h], items[h], h, k, x);
      items := SetItem(items, h, k, x);
    }

    /** `scdb_entry->ageing_timer = jiffies`. */
    method RefreshEntry(db: Entry, now: Time, ghost h: nat, ghost k: nat)
      requires Valid() && h < NAT25_HASH_SIZE && k < |chains[h]| && chains[h][k] == db
      modifies this`items, db`ageingTimer
      ensures Valid() && k < |old(items[h])|
      ensures items == SetItem(old(items), h, k, Refreshed(old(items[h][k]), now))
    {
      hide Hash, Linked, Members, Holding, SetItem, WellFormed;
      Apart(h);
      Shown(h);
      db.ageingTimer := now;
      ghost var x := Refreshed(items[h][k], now);
      Rewritten(chains[h], items[h], h, k, x);
      items := SetItem(items, h, k, x);
    }

    /** `__nat25_db_network_lookup_and_replace`: an entry that has not expired gives
        the frame its MAC and gains a use; an expired one is found but not used.
        (A byte array is never the bucket array, which the types alone do not tell.) */
    method Lookup(frame: array<bv8>, networkAddr: Addr, now: Time) returns (found: bool)
      requires Valid() && frame.Length >= 6 && frame as object != nethash as object
      modifies this`items, live`useCount, frame
      ensures Valid() && items == StepBuckets(old(items), Op.Lookup(networkAddr, now), ageingTime)
      ensures found == Find(old(items[Hash(networkAddr)]), networkAddr).Some?
      ensures frame[..] == if found && !Expired(ageingTime, EntryOf(old(items), networkAddr).ageing, now)
                           then EntryOf(old(items), networkAddr).mac + old(frame[6..]) else old(frame[..])
    {
      hide Hash, Expired, Find, Structure, Content, SetItem;
      var db, k := FindEntry(networkAddr);
      LookupStep(items, networkAddr, now, ageingTime);
      ghost var h := Hash(networkAddr);
      if db == null {
        return false;
      }
      Placed(h, k);
      if !Expired(ageingTime, db.ageingTimer, now) {
        CopyMac(frame, db.macAddr);
        UseEntry(db, h, k);
      }
      return true;
    }

    /** `__nat25_db_network_insert`: room says whether memory can be had. */
    method Insert(macAddr: Mac, networkAddr: Addr, now: Time, room: bool)
      requires Valid()
      modifies this`chains, this`items, this`live, nethash, live
      ensures Valid() && old(live) <= live && fresh(live - old(live))
      ensures items == StepBuckets(old(items), Op.Insert(networkAddr, macAddr, now, room), ageingTime)
    {
      hide Hash, Find, Structure, Content, SetItem;
      var db, k := FindEntry(networkAddr);
      InsertStep(items, networkAddr, macAddr, now, room, ageingTime);
      var h := Hash(networkAddr);
      if db != null {
        Placed(h, k);
        RenewEntry(db, macAddr, now, h, k);
        return;
      }
      if !room {
        return;
      }
      db := new Entry(networkAddr, macAddr, now);
      LinkEntry(db, h);
    }

    method LinkEntry(db: Entry, h: nat)
      requires Valid() && h == Hash(db.networkAddr) && db !in live && db.useCount == 1
      requires Find(items[h], db.networkAddr) == None
      modifies this`chains, this`items, this`live, nethash, db`nextHash, db`pprevHash, live`pprevHash
      ensures Valid() && live == old(live) + {db}
      ensures items == old(items)[h := [old(Data(db))] + old(items[h])]
    {
      hide Hash, Find, Linked, Holding, Filed, Members;
      Apart(h);
      LinkFacts(db, h);
      ghost var c, b := chains[h], items[h];
      FiledLink(chains, live, db, h);
      HoldingLink(c, b, h, db);
      HashLink(nethash, db, h, c);
      chains, items, live := chains[h := [db] + c], items[h := [Data(db)] + b], live + {db};
    }

    lemma LinkFacts(db: Entry, h: nat)
      requires Valid() && h < NAT25_HASH_SIZE && db !in live
      ensures forall g: nat, i: nat | g < NAT25_HASH_SIZE && i < |chains[g]| ::
                chains[g][i] in live && chains[g][i] != db
    {
      hide Hash, Linked, Holding;
    }

    /** Forgets the shortcut if it is the entry, then unlinks and frees the entry. */
    method FreeEntry(ent: Entry, ghost h: nat, ghost k: nat)
      requires Structure() && h < NAT25_HASH_SIZE && k < |chains[h]| && chains[h][k] == ent
      requires |items| == NAT25_HASH_SIZE && |items[h]| == |chains[h]|
      requires forall g: nat | g < NAT25_HASH_SIZE && g != h :: Holding(chains[g], items[g], g)
      requires Holding(Drop(chains[h], k), Drop(items[h], k), h)
      modifies this`chains, this`items, this`live, this`scdbEntry, this`scdbMac, this`scdbIp, nethash, live`nextHash,
              live`pprevHash
      ensures Valid() && live == old(live) - {ent}
      ensures chains == old(chains)[h := Drop(old(chains[h]), k)]
      ensures items == old(items)[h := Drop(old(items[h]), k)]
      ensures KeptScdb(old(scdbEntry), old(scdbMac), old(scdbIp))
    {
      hide Hash, Linked, Holding, Filed, Members, Drop;
      Apart(h);
      AllLive();
      ghost var c := chains[h];
      FiledDrop(chains, live, h, k);
      if scdbEntry == ent {
        scdbMac, scdbIp := NO_MAC, NO_IP;
        scdbEntry := null;
      }
      HashUnlink(nethash, ent, h, c, k);
      chains, items, live := chains[h := Drop(c, k)], items[h := Drop(items[h], k)], live - {ent};
      assert Structure();
    }

    lemma AllLive()
      requires Structure()
      ensures forall g: nat, i: nat | g < NAT25_HASH_SIZE && i < |chains[g]| :: chains[g][i] in live
    {
      hide Hash, Linked;
    }

    /** One entry of the sweep: an expired entry loses a use, and is freed on the last. */
    method ExpireEntry(f: Entry, now: Time, ghost h: nat, ghost k: nat)
      requires Valid() && h < NAT25_HASH_SIZE && k < |chains[h]| && chains[h][k] == f
      modifies this`chains, this`items, this`live, this`scdbEntry, this`scdbMac, this`scdbIp, nethash, live
      ensures Valid() && live <= old(live) && k < |old(items[h])|
      ensures KeptScdb(old(scdbEntry), old(scdbMac), old(scdbIp))
      ensures var x := old(items[h][k]);
              if !Expired(ageingTime, x.ageing, now) then chains[h] == old(chains[h]) && items[h] == old(items[h])
              else if x.useCount == 1 then chains[h] == Drop(old(chains[h]), k) && items[h] == Drop(old(items[h]), k)
              else chains[h] == old(chains[h]) && items[h] == old(items[h])[k := Lowered(x)]
      ensures forall g: nat | g < NAT25_HASH_SIZE && g != h :: items[g] == old(items[g])
    {
      hide Hash, Linked, Members, Holding, SetItem, WellFormed, Drop, Expired;
      Apart(h);
      Shown(h);
      AllLive();
      SetSame(items, h, k);
      if Expired(ageingTime, f.ageingTimer, now) {
        ghost var x := Lowered(items[h][k]);
        HoldingDrop(chains[h], items[h], h, k);
        f.useCount := f.useCount - 1;
        if f.useCount == 0 {
          FreeEntry(f, h, k);
        } else {
          Rewritten(chains[h], items[h], h, k, x);
          items := SetItem(items, h, k, x);
        }
      }
    }

    /** One bucket of the sweep, which frees entries while it walks the chain. */
    method ExpireBucket(h: nat, now: Time)
      requires Valid() && h < NAT25_HASH_SIZE
      modifies this`chains, this`items, this`live, this`scdbEntry, this`scdbMac, this`scdbIp, nethash, live
      ensures Valid() && live <= old(live)
      ensures KeptScdb(old(scdbEntry), old(scdbMac), old(scdbIp))
      ensures items[h] == AgeBucket(old(items[h]), ageingTime, now)
      ensures forall g: nat | g < NAT25_HASH_SIZE && g != h :: items[g] == old(items[g])
    {
      hide Hash, Structure, Content, SetItem, Drop, AgeBucket, Swept, Expired;
      ScdbLive();
      HeadOf(h);
      ghost var c, b, i: nat, k: nat := chains[h], items[h], 0, 0;
      var f := nethash[h];
      SweptEnds(c, b, ageingTime, now);
      while f != null
        invariant Valid() && live <= old(live) && i <= |c|
        invariant KeptScdb(old(scdbEntry), old(scdbMac), old(scdbIp))
        invariant f == if i < |c| then c[i] else null
        invariant Swept(chains[h], items[h], c, b, i, k, ageingTime, now)
        invariant forall g: nat | g < NAT25_HASH_SIZE && g != h :: items[g] == old(items[g])
        decreases |c| - i
      {
        SweptNext(chains[h], items[h], c, b, i, k, ageingTime, now);
        NextOfChain(h, k);
        var g := f.nextHash;
        ghost var stays := !Expired(ageingTime, b[i].ageing, now) || b[i].useCount != 1;
        ExpireEntry(f, now, h, k);
        if stays { k := k + 1; }
        i := i + 1;
        f := g;
      }
      SweptDone(chains[h], items[h], c, b, k, ageingTime, now);
    }

    lemma HeadOf(h: nat)
      requires Valid() && h < NAT25_HASH_SIZE
      ensures nethash.Length == NAT25_HASH_SIZE && |items[h]| == |chains[h]|
      ensures nethash[h] == if chains[h] == [] then null else chains[h][0]
    {
      hide Hash, WellFormed;
    }

    lemma NextOfChain(h: nat, k: nat)
      requires Valid() && h < NAT25_HASH_SIZE && k < |chains[h]|
      ensures chains[h][k].nextHash == if k + 1 < |chains[h]| then chains[h][k + 1] else null
    {
      hide Hash, WellFormed;
    }

    /** `nat25_db_expire`: an entry that has not expired keeps everything, an expired one
        loses a use and keeps the rest, and only one on its last use is freed. */
    method Expire(now: Time)
      requires Valid()
      modifies this`chains, this`items, this`live, this`scdbEntry, this`scdbMac, this`scdbIp, nethash, live
      ensures Valid() && live <= old(live)
      ensures forall e | e in old(live) ::
                e in live <==> !(Expired(ageingTime, old(e.ageingTimer), now) && old(e.useCount) == 1)
      ensures forall e | e in old(live) && e in live ::
                && e.macAddr == old(e.macAddr) && e.ageingTimer == old(e.ageingTimer)
                && e.useCount == old(e.useCount) - (if Expired(ageingTime, old(e.ageingTimer), now) then 1 else 0)
      ensures KeptScdb(old(scdbEntry), old(scdbMac), old(scdbIp))
      ensures items == StepBuckets(old(items), Op.Expire(now), ageingTime)
    {
      hide Hash, Structure, Content, AgeBucket, Expired, StepBuckets, KeptScdb;
      ScdbLive();
      OneEntryEach(this);
      ghost var before, was := live, map e | e in live :: Data(e);
      ghost var b := items;
      forall e | e in live
        ensures WasIn(b, e, was[e])
      {
        WasThere(e);
      }
      Sweep(now);
      forall e | e in before
        ensures e in live <==> !(Expired(ageingTime, was[e].ageing, now) && was[e].useCount == 1)
        ensures e in live ==> Data(e) == if Expired(ageingTime, was[e].ageing, now) then Lowered(was[e]) else was[e]
      {
        FateOf(this, e, was[e], b, before, now);
      }
    }

    lemma WasThere(e: Entry)
      requires Valid() && e in live
      ensures WasIn(items, e, Data(e))
    {
      hide Hash, Structure, Content;
      var h, k := Located(e);
      Shown(h);
    }

    /** The loop over the buckets. */
    method Sweep(now: Time)
      requires Valid()
      modifies this`chains, this`items, this`live, this`scdbEntry, this`scdbMac, this`scdbIp, nethash, live
      ensures Valid() && live <= old(live)
      ensures KeptScdb(old(scdbEntry), old(scdbMac), old(scdbIp))
      ensures items == StepBuckets(old(items), Op.Expire(now), ageingTime)
    {
      hide Hash, Structure, Content, AgeBucket;
      ScdbLive();
      for i: nat := 0 to NAT25_HASH_SIZE
        invariant Valid() && live <= old(live)
        invariant KeptScdb(old(scdbEntry), old(scdbMac), old(scdbIp))
        invariant forall g: nat | g < i :: items[g] == AgeBucket(old(items[g]), ageingTime, now)
        invariant forall g: nat | i <= g < NAT25_HASH_SIZE :: items[g] == old(items[g])
      {
        ExpireBucket(i, now);
      }
    }

    /** One bucket of `nat25_db_cleanup`. */
    method CleanBucket(h: nat)
      requires Valid() && h < NAT25_HASH_SIZE
      modifies this`chains, this`items, this`live, this`scdbEntry, this`scdbMac, this`scdbIp, nethash, live`nextHash,
              live`pprevHash
      ensures Valid() && live <= old(live) && items[h] == []
      ensures KeptScdb(old(scdbEntry), old(scdbMac), old(scdbIp))
      ensures forall g: nat | g < NAT25_HASH_SIZE && g != h :: items[g] == old(items[g])
    {
      hide Hash, Structure, Content, Drop, Holding;
      ScdbLive();
      HeadOf(h);
      var f := nethash[h];
      while f != null
        invariant Valid() && live <= old(live) && |items[h]| == |chains[h]|
        invariant KeptScdb(old(scdbEntry), old(scdbMac), old(scdbIp))
        invariant f == if chains[h] == [] then null else chains[h][0]
        invariant forall g: nat | g < NAT25_HASH_SIZE && g != h :: items[g] == old(items[g])
        decreases |chains[h]|
      {
        NextOfChain(h, 0);
        var g := f.nextHash;
        CanFree(h, 0);
        FreeEntry(f, h, 0);
        f := g;
      }
    }

    lemma CanFree(h: nat, k: nat)
      requires Valid() && h < NAT25_HASH_SIZE && k < |chains[h]|
      ensures |items[h]| == |chains[h]| && Holding(Drop(chains[h], k), Drop(items[h], k), h)
      ensures forall g: nat | g < NAT25_HASH_SIZE :: Holding(chains[g], items[g], g)
    {
      hide Hash, Structure, Drop, Holding;
      HoldingDrop(chains[h], items[h], h, k);
    }

    /** `nat25_db_cleanup`. */
    method Cleanup()
      requires Valid()
      modifies this`chains, this`items, this`live, this`scdbEntry, this`scdbMac, this`scdbIp, nethash, live`nextHash,
              live`pprevHash
      ensures Valid() && live == {} && scdbEntry == null
      ensures KeptScdb(old(scdbEntry), old(scdbMac), old(scdbIp))
      ensures items == StepBuckets(old(items), Op.Cleanup, ageingTime)
    {
      hide Hash, Structure, Content;
      ScdbLive();
      for i: nat := 0 to NAT25_HASH_SIZE
        invariant Valid() && live <= old(live)
        invariant KeptScdb(old(scdbEntry), old(scdbMac), old(scdbIp))
        invariant forall g: nat | g < i :: items[g] == []
      {
        CleanBucket(i);
      }
      NothingLive();
    }

    lemma NothingLive()
      requires Valid() && forall g: nat | g < NAT25_HASH_SIZE :: items[g] == []
      ensures live == {} && scdbEntry == null
    {
      hide Linked, Holding, Hash;
      forall h: nat | h < NAT25_HASH_SIZE ensures chains[h] == [] { HeadOf(h); }
    }

    /** `scdb_findEntry` and the refresh of what it found (rtw_xmit.c). */
    method Refresh(networkAddr: Addr, now: Time) returns (db: Entry?)
      requires Valid()
      modifies this`items, live`ageingTimer
      ensures Valid() && items == StepBuckets(old(items), Op.Touch(networkAddr, now), ageingTime)
      ensures db != null <==> Find(old(items[Hash(networkAddr)]), networkAddr).Some?
      ensures db != null ==> db in live && db.networkAddr == networkAddr
    {
      hide Hash, Find, Structure, Content, SetItem;
      ghost var k: nat;
      db, k := FindEntry(networkAddr);
      TouchStep(items, networkAddr, now, ageingTime);
      ghost var h := Hash(networkAddr);
      if db != null {
        Placed(h, k);
        RefreshEntry(db, now, h, k);
      }
    }

    method SetScdb(db: Entry?)
      requires Valid() && (db != null ==> db in live)
      modifies this`scdbEntry
      ensures Valid() && scdbEntry == db
    {
      hide Hash, Filed, Linked, Content;
      scdbEntry := db;
    }

    /** The shortcut of `rtw_br_client_tx`: a unicast IPv4 frame of the sender remembered
        last gets the station's own source MAC, its entry is refreshed, and nothing else
        of the bridge is run. */
    method FastPath(frame: array<bv8>, brPort: bool, brMac: Mac, ownMac: Mac, now: Time) returns (fast: bool)
      requires Valid() && frame.Length >= 14 && frame as object != nethash as object
      modifies this`items, live`ageingTimer, frame
      ensures Valid() && |old(items)| == NAT25_HASH_SIZE
      ensures fast <==> scdbEntry != null && brPort && old(frame[0]) & 1 == 0 && old(frame[6..12]) != brMac
                        && old(frame[12..14]) == [0x08, 0x00] && old(frame[6..12]) == scdbMac
      ensures items == if fast then StepBuckets(old(items), Op.Touch(scdbEntry.networkAddr, now), ageingTime)
                       else old(items)
      ensures frame[..] == if fast then old(frame[..6]) + ownMac + old(frame[12..]) else old(frame[..])
    {
      hide Hash, Find, Structure, Content, SetItem, StepBuckets;
      fast := scdbEntry != null && brPort && Unicast(frame[..], brMac) && frame[6..12] == scdbMac;
      if fast {
        SetSource(frame, ownMac);
        RefreshScdb(now);
      }
    }

    static method SetSource(frame: array<bv8>, mac: Mac)
      requires frame.Length >= 12
      modifies frame
      ensures frame[..] == old(frame[..6]) + mac + old(frame[12..])
    {
      forall i | 0 <= i < 6 {
        frame[6 + i] := mac[i];
      }
      assert frame[..6] == old(frame[..6]) && frame[6..12] == mac && frame[12..] == old(frame[12..]);
    }

    /** `scdb_entry->ageing_timer = jiffies`, for an entry that is remembered. */
    method RefreshScdb(now: Time)
      requires Valid() && scdbEntry != null
      modifies this`items, live`ageingTimer
      ensures Valid() && items == StepBuckets(old(items), Op.Touch(scdbEntry.networkAddr, now), ageingTime)
    {
      hide Hash, Find, Structure, Content, SetItem;
      ScdbLive();
      ghost var h, k := Located(scdbEntry);
      TouchStep(items, scdbEntry.networkAddr, now, ageingTime);
      RefreshEntry(scdbEntry, now, h, k);
    }

    /** A transmitted IPv4 frame (rtw_xmit.c): the sender is looked up again when its
        MAC is new, the remembered entry is refreshed otherwise; NAT2.5 is bypassed
        exactly while an entry is remembered, and what is remembered of a new sender is
        the MAC and the IP address of this frame, whose entry it is. */
    method ScdbUpdate(srcMac: Mac, srcIp: Ip, now: Time) returns (doNat25: bool)
      requires Valid()
      modifies this`items, this`scdbEntry, this`scdbMac, this`scdbIp, live`ageingTimer
      ensures Valid() && doNat25 == (scdbEntry == null) && (old(OwnEntry()) ==> OwnEntry())
      ensures srcMac != old(scdbMac) ==>
                && items == StepBuckets(old(items), Op.Touch(Ipv4Addr(srcIp), now), ageingTime)
                && (scdbEntry != null <==> Find(old(items[Hash(Ipv4Addr(srcIp))]), Ipv4Addr(srcIp)).Some?)
                && (scdbEntry != null ==>
                      scdbMac == srcMac && scdbIp == srcIp && scdbEntry.networkAddr == Ipv4Addr(scdbIp))
                && (scdbEntry == null ==> scdbMac == old(scdbMac) && scdbIp == old(scdbIp))
      ensures srcMac == old(scdbMac) && old(scdbEntry) != null ==>
                && items == StepBuckets(old(items), Op.Touch(old(scdbEntry).networkAddr, now), ageingTime)
                && scdbEntry == old(scdbEntry) && scdbMac == old(scdbMac) && scdbIp == old(scdbIp)
      ensures srcMac == old(scdbMac) && old(scdbEntry) == null ==>
                items == old(items) && scdbEntry == null && scdbMac == NO_MAC && scdbIp == NO_IP
    {
      hide Hash, Find, Structure, Content, SetItem, Ipv4Addr;
      if srcMac != scdbMac {
        var db := Refresh(Ipv4Addr(srcIp), now);
        SetScdb(db);
        if scdbEntry != null {
          scdbMac, scdbIp := srcMac, srcIp;
        }
      } else if scdbEntry != null {
        RefreshScdb(now);
      } else {
        scdbMac, scdbIp := NO_MAC, NO_IP;
      }
      doNat25 := scdbEntry == null;
    }

    /** The receive shortcut of `nat25_handle_frame`: it compares the remembered IP address
        and writes the remembered MAC, and never asks whether an entry is remembered. */
    method RxShortcut(frame: array<bv8>, disabled: bool) returns (taken: bool)
      requires frame.Length >= 34
      modifies frame
      ensures taken <==> !disabled && old(frame[12..14]) == [0x08, 0x00] && old(frame[30..34]) == scdbIp
      ensures frame[..] == if taken then scdbMac + old(frame[6..]) else old(frame[..])
    {
      taken := !disabled && frame[12..14] == ETH_P_IP && frame[30..34] == scdbIp;
      if taken { CopyMac(frame, scdbMac); }
    }

    lemma Located(e: Entry) returns (h: nat, k: nat)
      requires Valid() && e in live
      ensures h == Hash(e.networkAddr) && k < |chains[h]| && chains[h][k] == e
              && Find(items[h], e.networkAddr) == Some(k)
    {
      hide Hash, Linked;
      h := Hash(e.networkAddr);
      assert e in chains[h];
      k :| k < |chains[h]| && chains[h][k] == e;
      Shown(h);
      FindUnique(items[h], h, k);
    }

    lemma ScdbLive()
      requires Valid()
      ensures scdbEntry != null ==> scdbEntry in live
    {
      hide Filed, Linked;
    }
  }

  /** Two live entries have different addresses. */
  lemma OneEntryEach(t: NatTable)
    requires t.Valid()
    ensures forall e, f | e in t.live && f in t.live && e.networkAddr == f.networkAddr :: e == f
  {
    hide Hash, Find, NatTable.Structure, NatTable.Content;
    forall e, f | e in t.live && f in t.live && e.networkAddr == f.networkAddr
      ensures e == f
    {
      var h, k := t.Located(e);
      var g, j := t.Located(f);
    }
  }

  lemma LiveIsFound(t: NatTable, e: Entry)
    requires t.Valid() && e in t.live
    ensures Find(t.items[Hash(e.networkAddr)], e.networkAddr).Some?
  {
    hide Hash, Find, NatTable.Structure, NatTable.Content;
    var h, k := t.Located(e);
  }

  lemma FoundIsLive(t: NatTable, a: Addr) returns (e: Entry)
    requires t.Valid() && Find(t.items[Hash(a)], a).Some?
    ensures e in t.live && e.networkAddr == a
  {
    hide Hash, NatTable.Structure, NatTable.Content;
    var k := Find(t.items[Hash(a)], a).value;
    t.Shown(Hash(a));
    t.Placed(Hash(a), k);
    e := t.chains[Hash(a)][k];
  }

  /** Before the sweep the entry e stood in its bucket with the data x. */
  ghost predicate WasIn(b: seq<seq<Item>>, e: Entry, x: Item) {
    && |b| == NAT25_HASH_SIZE && x.addr == e.networkAddr && WellFormed(b[Hash(x.addr)], Hash(x.addr))
    && x in b[Hash(x.addr)]
  }

  /** What the sweep has made of it. */
  lemma FateOf(t: NatTable, e: Entry, x: Item, b: seq<seq<Item>>, before: set<Entry>, now: Time)
    requires t.Valid() && WasIn(b, e, x) && e in before && t.live <= before
    requires forall f, g | f in before && g in before && f.networkAddr == g.networkAddr :: f == g
    requires t.items == StepBuckets(b, Op.Expire(now), t.ageingTime)
    ensures e in t.live <==> !(Expired(t.ageingTime, x.ageing, now) && x.useCount == 1)
    ensures e in t.live ==> Data(e) == if Expired(t.ageingTime, x.ageing, now) then Lowered(x) else x
  {
    hide Hash, NatTable.Valid, StepBuckets, Expired, WasIn;
    if e in t.live { FoundAged(t, e, x, b, now); }
    if y :| Aged(x, t.ageingTime, now) == Some(y) { AgedFound(t, e, x, y, b, before, now); }
  }

  /** An entry still there carries the aged data. */
  lemma FoundAged(t: NatTable, e: Entry, x: Item, b: seq<seq<Item>>, now: Time)
    requires t.Valid() && WasIn(b, e, x) && e in t.live && t.items == StepBuckets(b, Op.Expire(now), t.ageingTime)
    ensures Aged(x, t.ageingTime, now) == Some(Data(e))
  {
    hide Hash, NatTable.Structure, NatTable.Content, AgeBucket, Expired, Find, Aged;
    var h := Hash(x.addr);
    AgeMembers(b[h], t.ageingTime, now);
    var g, j := t.Located(e);
    t.Shown(g);
    assert Data(e) in t.items[h];
    var i: nat :| i < |b[h]| && Aged(b[h][i], t.ageingTime, now) == Some(Data(e));
    AgedKeeps(b[h][i], t.ageingTime, now);
  }

  /** Data that survived is carried by the entry it belonged to. */
  lemma AgedFound(t: NatTable, e: Entry, x: Item, y: Item, b: seq<seq<Item>>, before: set<Entry>, now: Time)
    requires t.Valid() && WasIn(b, e, x) && e in before && t.live <= before
    requires forall f, g | f in before && g in before && f.networkAddr == g.networkAddr :: f == g
    requires t.items == StepBuckets(b, Op.Expire(now), t.ageingTime) && Aged(x, t.ageingTime, now) == Some(y)
    ensures e in t.live
  {
    hide Hash, NatTable.Structure, NatTable.Content, AgeBucket, Expired, Find, Aged;
    var h := Hash(x.addr);
    AgeMembers(b[h], t.ageingTime, now);
    assert y in t.items[h];
    var k: nat :| k < |t.items[h]| && t.items[h][k] == y;
    AgedKeeps(x, t.ageingTime, now);
    t.Shown(h);
    t.Placed(h, k);
    assert t.chains[h][k] in before;
  }

  /** A table driven through any operations holds exactly the buckets they describe. */
  method Run(ops: seq<Op>, ageingTime: Time) returns (t: NatTable)
    ensures fresh(t) && fresh(t.nethash) && fresh(t.live) && t.Valid() && t.ageingTime == ageingTime
    ensures t.items == RunBuckets(ops, ageingTime)
  {
    hide Hash, StepBuckets, NatTable.Valid;
    t := new NatTable(ageingTime);
    var frame := new bv8[6];
    for i := 0 to |ops|
      invariant fresh(t) && fresh(t.nethash) && fresh(t.live) && t.Valid() && t.ageingTime == ageingTime
      invariant t.items == RunBuckets(ops[..i], ageingTime)
    {
      assert ops[..i + 1][..i] == ops[..i];
      match ops[i]
      case Insert(a, mac, now, room) => t.Insert(mac, a, now, room);
      case Lookup(a, now) => var _ := t.Lookup(frame, a, now);
      case Touch(a, now) => var _ := t.Refresh(a, now);
      case Expire(now) => t.Expire(now);
      case Cleanup => t.Cleanup();
    }
    assert ops[..|ops|] == ops;
  }

  /** After any run, a lookup finds an address exactly when the plain map holds it,
      and a found, unexpired one puts the MAC of its latest insert into the frame. */
  method LookupAfterRun(ops: seq<Op>, ageingTime: Time, frame: array<bv8>, a: Addr, now: Time) returns (found: bool)
    requires frame.Length >= 6
    modifies frame
    ensures found == (a in RunMap(ops, ageingTime))
    ensures found && !Expired(ageingTime, RunMap(ops, ageingTime)[a].ageing, now) ==>
              LatestInsert(ops, a, ageingTime).Some?
                  && frame[..] == LatestInsert(ops, a, ageingTime).value + old(frame[6..])
    ensures (found ==> Expired(ageingTime, RunMap(ops, ageingTime)[a].ageing, now)) ==> frame[..] == old(frame[..])
  {
    hide Hash, Expired, StepBuckets, Find, NatTable.Valid, LatestInsert, RunMap, RunBuckets;
    var t := Run(ops, ageingTime);
    RunRepresents(ops, ageingTime);
    FindIsMember(t.items[Hash(a)], Hash(a), RunMap(ops, ageingTime), a);
    if a in RunMap(ops, ageingTime) {
      LookupGivesLatestInsert(ops, a, ageingTime);
    }
    found := t.Lookup(frame, a, now);
  }
}
