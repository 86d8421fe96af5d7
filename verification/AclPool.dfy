/** The MAC address list of the access control (rtw_ap.c): a fixed pool of nodes and a
    list through them, which together are a bounded set in order of insertion. */
module AclPool {
  import opened Octets

  const NUM_ACL := 16
  const RTW_ACL_MODE_DISABLED := 0
  const BROADCAST: Mac := [255, 255, 255, 255, 255, 255]

  // ----- the bounded set

  predicate Distinct<T(==)>(s: seq<T>) {
    forall i: nat, j: nat | i < j < |s| :: s[i] != s[j]
  }

  function AddTo(list: seq<Mac>, a: Mac): seq<Mac> {
    if a in list || |list| >= NUM_ACL then list else list + [a]
  }

  function Without(list: seq<Mac>, a: Mac): seq<Mac> {
    if list == [] then []
    else Without(list[..|list|-1], a) + if list[|list|-1] == a || a == BROADCAST then [] else [list[|list|-1]]
  }

  lemma {:induction false} WithoutMembers(list: seq<Mac>, a: Mac, x: Mac)
    ensures x in Without(list, a) <==> x in list && x != a && a != BROADCAST
  {
    if list != [] {
      WithoutMembers(list[..|list|-1], a, x);
      assert list == list[..|list|-1] + [list[|list|-1]];
    }
  }

  datatype Op = Init | Deinit | Add(addr: Mac) | Remove(addr: Mac) | SetMode(mode: nat)

  function Apply(list: seq<Mac>, op: Op): seq<Mac> {
    match op
    case Init => []
    case Deinit => []
    case Add(a) => AddTo(list, a)
    case Remove(a) => Without(list, a)
    case SetMode(mode) => if mode == RTW_ACL_MODE_DISABLED then [] else list
  }

  function RunList(ops: seq<Op>): seq<Mac> {
    if ops == [] then [] else Apply(RunList(ops[..|ops|-1]), ops[|ops|-1])
  }

  /** Over any run the list is a set of at most sixteen addresses. */
  lemma {:induction false} RunBounded(ops: seq<Op>)
    ensures |RunList(ops)| <= NUM_ACL && Distinct(RunList(ops))
  {
    if ops != [] {
      var before, op := RunList(ops[..|ops|-1]), ops[|ops|-1];
      RunBounded(ops[..|ops|-1]);
      if op.Remove? { WithoutDistinct(before, op.addr); }
    }
  }

  lemma {:induction false} WithoutDistinct(list: seq<Mac>, a: Mac)
    requires Distinct(list)
    ensures Distinct(Without(list, a)) && |Without(list, a)| <= |list|
  {
    if list != [] {
      var init, last := list[..|list|-1], list[|list|-1];
      WithoutDistinct(init, a);
      WithoutMembers(init, a, last);
      assert forall i: nat | i < |init| :: init[i] == list[i];
      assert last !in init;
    }
  }

  /** An address is on the list exactly when it was added with room, or found there,
      after it was last removed or the list last cleared. */
  lemma MembershipStep(list: seq<Mac>, op: Op, x: Mac)
    ensures x in Apply(list, op) <==>
      match op
      case Init => false
      case Deinit => false
      case Add(a) => x in list || (x == a && |list| < NUM_ACL)
      case Remove(a) => x in list && x != a && a != BROADCAST
      case SetMode(mode) => x in list && mode != RTW_ACL_MODE_DISABLED
  {
    if op.Remove? { WithoutMembers(list, op.addr, x); }
  }

  /** A new address goes to the end; one that is removed leaves a gap that closes, the
      others keeping their order; removing one that is not there changes nothing. */
  lemma OrderKept(x: seq<Mac>, y: seq<Mac>, a: Mac)
    requires a !in x && a !in y && a != BROADCAST
    ensures |x| < 16 ==> AddTo(x, a) == x + [a]
    ensures Without(x + [a] + y, a) == x + y && Without(x + y, a) == x + y
  {
    hide Without;
    WithoutAppend(x + [a], y, a);
    WithoutAppend(x, [a], a);
    WithoutAppend(x, y, a);
    WithoutOther(x, a);
    WithoutOther(y, a);
    WithoutSelf(a);
  }

  lemma WithoutSelf(a: Mac)
    ensures Without([a], a) == []
  {
    assert [a][..0] == [];
  }

  lemma {:induction false} WithoutAppend(x: seq<Mac>, y: seq<Mac>, a: Mac)
    ensures Without(x + y, a) == Without(x, a) + Without(y, a)
  {
    if y == [] {
      assert x + y == x;
    } else {
      WithoutAppend(x, y[..|y|-1], a);
      assert (x + y)[..|x + y|-1] == x + y[..|y|-1];
    }
  }

  lemma {:induction false} WithoutOther(x: seq<Mac>, a: Mac)
    requires a !in x && a != BROADCAST
    ensures Without(x, a) == x
  {
    if x != [] { WithoutOther(x[..|x|-1], a); }
  }

  // ----- the pool

  /** Fewer nodes on the list than in the pool leave a free one. */
  lemma FreeNode(queue: seq<nat>, n: nat)
    requires Distinct(queue) && |queue| < n && forall k: nat | k < |queue| :: queue[k] < n
    ensures exists i: nat :: i < n && i !in queue
  {
    if forall i: nat | i < n :: i in queue {
      Pigeonhole(queue, n);
      assert false;
    }
  }

  lemma {:induction false} Pigeonhole(queue: seq<nat>, n: nat)
    requires Distinct(queue) && forall i: nat | i < n :: i in queue
    ensures |queue| >= n
  {
    if n > 0 {
      assert n - 1 in queue;
      var at: nat :| at < |queue| && queue[at] == n - 1;
      var rest := queue[..at] + queue[at + 1..];
      assert forall i: nat | i < |rest| :: rest[i] == queue[if i < at then i else i + 1];
      forall i: nat | i < n - 1 ensures i in rest {
        assert i in queue;
        var k: nat :| k < |queue| && queue[k] == i;
        assert rest[if k < at then k else k - 1] == i;
      }
      Pigeonhole(rest, n - 1);
    }
  }

  function Addresses(addr: seq<Mac>, queue: seq<nat>): (l: seq<Mac>)
    requires forall k: nat | k < |queue| :: queue[k] < |addr|
    ensures |l| == |queue| && forall k: nat | k < |l| :: l[k] == addr[queue[k]]
  {
    seq(|queue|, k requires 0 <= k < |queue| => addr[queue[k]])
  }

  lemma LeftOut<T>(s: seq<T>, k: nat)
    requires k < |s| && Distinct(s)
    ensures Distinct(s[..k] + s[k + 1..])
    ensures forall x :: x in s[..k] + s[k + 1..] <==> x in s && x != s[k]
  {
    var r := s[..k] + s[k + 1..];
    assert forall i: nat | i < |r| :: r[i] == s[if i < k then i else i + 1];
    forall x | x in s && x != s[k] ensures x in r {
      var j: nat :| j < |s| && s[j] == x;
      assert r[if j < k then j else j - 1] == x;
    }
  }

  lemma AddressesLeftOut(addr: seq<Mac>, queue: seq<nat>, k: nat)
    requires (forall i: nat | i < |queue| :: queue[i] < |addr|) && k < |queue|
    ensures var q := queue[..k] + queue[k + 1..];
      && (forall i: nat | i < |q| :: q[i] < |addr|)
      && Addresses(addr, q) == Addresses(addr, queue)[..k] + Addresses(addr, queue)[k + 1..]
  {
  }

  lemma Appended(addr: seq<Mac>, queue: seq<nat>, i: nat, a: Mac)
    requires (forall k: nat | k < |queue| :: queue[k] < |addr|) && i < |addr| && i !in queue
    requires Distinct(queue) && Distinct(Addresses(addr, queue)) && a !in Addresses(addr, queue)
    ensures Distinct(queue + [i])
    ensures Addresses(addr[i := a], queue + [i]) == Addresses(addr, queue) + [a]
    ensures Distinct(Addresses(addr[i := a], queue + [i]))
  {
    assert Addresses(addr[i := a], queue + [i]) == Addresses(addr, queue) + [a];
  }

  /** `struct wlan_acl_pool`: aclnode[i] is addr[i] and valid[i], and queue holds the
      numbers of the linked nodes in order. */
  class Pool {
    const addr: array<Mac>
    const valid: array<bool>
    var num: int
    var mode: nat
    var queue: seq<nat>

    /** A node is on the list exactly when it is valid, once, and its address is on the
        list only there; num counts them. */
    ghost predicate Valid()
      reads this, addr, valid
    {
      && addr.Length == valid.Length == NUM_ACL
      && Distinct(queue) && (forall k: nat | k < |queue| :: queue[k] < NUM_ACL)
      && (forall i: nat | i < NUM_ACL :: valid[i] <==> i in queue)
      && num == |queue| && Distinct(Addresses(addr[..], queue))
    }

    /** The listed addresses, oldest first. */
    ghost function List(): (l: seq<Mac>)
      requires Valid()
      reads this, addr, valid
      ensures |l| == |queue|
    {
      Addresses(addr[..], queue)
    }

    constructor ()
      ensures Valid() && List() == [] && mode == 0 && fresh(addr) && fresh(valid)
    {
      addr := new Mac[NUM_ACL](_ => [0, 0, 0, 0, 0, 0]);
      valid := new bool[NUM_ACL](_ => false);
      num, mode, queue := 0, RTW_ACL_MODE_DISABLED, [];
    }

    /** `rtw_macaddr_acl_init`. */
    method Init()
      requires addr.Length == valid.Length == NUM_ACL
      modifies this, valid
      ensures Valid() && List() == [] && num == 0 && mode == 0 && forall i | 0 <= i < NUM_ACL :: !valid[i]
    {
      queue, num, mode := [], 0, RTW_ACL_MODE_DISABLED;
      for i := 0 to NUM_ACL
        invariant queue == [] && num == 0 && mode == RTW_ACL_MODE_DISABLED
        invariant forall k: nat | k < i :: !valid[k]
      {
        valid[i] := false;
      }
    }

    /** `rtw_acl_add_sta`: fails exactly when the address is absent and the pool full. */
    method AddSta(a: Mac) returns (ret: int)
      requires Valid()
      modifies this`num, this`queue, addr, valid
      ensures Valid() && List() == AddTo(old(List()), a)
      ensures ret == if a !in old(List()) && |old(List())| >= NUM_ACL then -1 else 0
    {
      hide Distinct;
      var existed := Listed(a);
      if existed { return 0; }
      if num >= NUM_ACL { return -1; }
      FreeNode(queue, NUM_ACL);
      var i := 0;
      while valid[i]
        invariant i < NUM_ACL && exists j: nat :: i <= j < NUM_ACL && j !in queue
        decreases NUM_ACL - i
      {
        i := i + 1;
      }
      Appended(addr[..], queue, i, a);
      addr[i], valid[i] := a, true;
      queue, num := queue + [i], num + 1;
      return 0;
    }

    /** The search for an existing entry. */
    method Listed(a: Mac) returns (existed: bool)
      requires Valid()
      ensures existed <==> a in List()
    {
      var k := 0;
      while k < |queue|
        invariant k <= |queue| && forall j: nat | j < k :: List()[j] != a
      {
        if addr[queue[k]] == a && valid[queue[k]] {
          assert List()[k] == a;
          return true;
        }
        k := k + 1;
      }
      return false;
    }

    /** The k-th node leaves the list and is free again. */
    method Delete(k: nat)
      requires Valid() && k < |queue|
      modifies this`num, this`queue, valid
      ensures Valid() && List() == old(List())[..k] + old(List())[k + 1..]
    {
      hide Distinct, Addresses;
      ghost var was := queue;
      LeftOut(queue, k);
      LeftOut(Addresses(addr[..], queue), k);
      AddressesLeftOut(addr[..], queue, k);
      valid[queue[k]] := false;
      queue, num := queue[..k] + queue[k + 1..], num - 1;
      forall i: nat | i < NUM_ACL ensures valid[i] <==> i in queue {
        assert i in queue <==> i in was && i != was[k];
        assert i != was[k] ==> valid[i] == old(valid[i]);
      }
    }

    /** `rtw_acl_remove_sta`: the address leaves the list, and the broadcast address
        clears it. The node is deleted while the walk goes on. */
    method RemoveSta(a: Mac) returns (found: bool)
      requires Valid()
      modifies this`num, this`queue, valid
      ensures Valid() && List() == Without(old(List()), a)
      ensures found <==> Without(old(List()), a) != old(List())
    {
      hide Valid, Swept, Without, Addresses, Distinct;
      ghost var was, i: nat := List(), 0;
      var k := 0;
      found := false;
      SweptNothing(was, a);
      while k < |queue|
        invariant Valid() && k <= i <= |was| && Swept(List(), was, i, k, a)
        invariant found <==> k < i
        decreases |was| - i
      {
        SweptStep(List(), was, i, k, a);
        var match_ := Matches(k, a);
        if match_ {
          Delete(k);
          found := true;
        } else {
          k := k + 1;
        }
        i := i + 1;
      }
      SweptAll(List(), was, i, k, a);
    }

    /** The comparison with the k-th listed node, which is always valid. */
    method Matches(k: nat, a: Mac) returns (m: bool)
      requires Valid() && k < |queue|
      ensures m <==> List()[k] == a || a == BROADCAST
    {
      m := (a == BROADCAST || addr[queue[k]] == a) && valid[queue[k]];
    }

    /** `rtw_macaddr_acl_deinit`. */
    method Deinit()
      requires Valid()
      modifies this`num, this`queue, this`mode, valid
      ensures Valid() && List() == [] && num == 0 && mode == RTW_ACL_MODE_DISABLED
    {
      while 0 < |queue|
        invariant Valid()
        decreases |queue|
      {
        Delete(0);
      }
      mode := RTW_ACL_MODE_DISABLED;
    }

    /** `rtw_set_macaddr_acl`. */
    method SetMode(mode: nat)
      requires Valid()
      modifies this`num, this`queue, this`mode, valid
      ensures Valid() && this.mode == mode && List() == if mode == RTW_ACL_MODE_DISABLED then [] else old(List())
    {
      this.mode := mode;
      if mode == RTW_ACL_MODE_DISABLED {
        Deinit();
      }
    }
  }

  /** The walk has dealt with the first i addresses of was; k of them are left. */
  ghost predicate Swept(list: seq<Mac>, was: seq<Mac>, i: nat, k: nat, a: Mac) {
    i <= |was| && k == |Without(was[..i], a)| <= i && list == Without(was[..i], a) + was[i..]
  }

  lemma SweptNothing(was: seq<Mac>, a: Mac)
    ensures Swept(was, was, 0, 0, a)
  {
  }

  lemma SweptStep(list: seq<Mac>, was: seq<Mac>, i: nat, k: nat, a: Mac)
    requires Swept(list, was, i, k, a) && k < |list|
    ensures i < |was|
    ensures list[k] == a || a == BROADCAST ==> Swept(list[..k] + list[k + 1..], was, i + 1, k, a)
    ensures !(list[k] == a || a == BROADCAST) ==> Swept(list, was, i + 1, k + 1, a)
  {
    assert list[k] == was[i];
    assert was[..i + 1][..i] == was[..i];
    assert was[i..] == [was[i]] + was[i + 1..];
  }

  lemma SweptAll(list: seq<Mac>, was: seq<Mac>, i: nat, k: nat, a: Mac)
    requires Swept(list, was, i, k, a) && k >= |list|
    ensures list == Without(was, a) && (k < i <==> Without(was, a) != was)
  {
    assert was[..i] == was;
    WithoutShorter(was, a);
  }

  lemma {:induction false} WithoutShorter(list: seq<Mac>, a: Mac)
    ensures |Without(list, a)| <= |list| && (|Without(list, a)| == |list| ==> Without(list, a) == list)
  {
    if list != [] { WithoutShorter(list[..|list|-1], a); }
  }

  /** Any run of operations leaves the pool holding the list they describe. */
  method Run(ops: seq<Op>) returns (p: Pool)
    ensures fresh(p) && p.Valid() && p.List() == RunList(ops)
  {
    hide AddTo, Without, Pool.Valid;
    p := new Pool();
    for i := 0 to |ops|
      invariant fresh(p) && fresh(p.addr) && fresh(p.valid) && p.Valid() && p.List() == RunList(ops[..i])
    {
      assert ops[..i + 1][..i] == ops[..i];
      match ops[i]
      case Init => p.Init();
      case Deinit => p.Deinit();
      case Add(a) => var _ := p.AddSta(a);
      case Remove(a) => var _ := p.RemoveSta(a);
      case SetMode(mode) => p.SetMode(mode);
    }
    assert ops[..|ops|] == ops;
  }
}
