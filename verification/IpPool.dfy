/**
 The virtual address allocator of the server (vpn/server/src/engine/ip_pool.c): one
 entry per address of the tunnel subnet, a round-robin cursor, and a constant-time
 index from address to client. Addresses are host-order words. Every operation runs
 under the pool's lock, so a run is a sequence of operations.
 */
module IpPool {
  import opened Common
  import opened Bits
  import opened Threads
  import opened Runs
  import opened Netmask

  /** A client is an opaque reference. */
  type Client = nat

  datatype Entry = Entry(ip: nat, used: bool, client: Option<Client>)

  datatype Pool = Pool(net: nat, server: nat, entries: seq<Entry>, cursor: nat)

  /** The `i`-th entry from the cursor, going round. */
  function Around(cursor: nat, i: nat, n: nat): (j: nat)
    requires n > 0
    ensures j < n
  {
    (cursor + i) % n
  }

  /** The first unused entry at cyclic distance `i` or more from the cursor. */
  function Search(p: Pool, i: nat): (r: Option<nat>)
    ensures r.Some? ==> r.value < |p.entries| && !p.entries[r.value].used
    decreases |p.entries| - i
  {
    if i >= |p.entries| then None
    else
      var j := Around(p.cursor, i, |p.entries|);
      if !p.entries[j].used then Some(j) else Search(p, i + 1)
  }

  /** `ip_acquire` */
  function Acquired(p: Pool, c: Client): Pool {
    match Search(p, 0)
    case None => p
    case Some(j) =>
      p.(entries := p.entries[j := p.entries[j].(used := true, client := Some(c))], cursor := (j + 1) % |p.entries|)
  }

  /** `ip_release` of entry `j` */
  function Released(p: Pool, j: nat): Pool
    requires j < |p.entries|
  {
    p.(entries := p.entries[j := p.entries[j].(used := false, client := None)])
  }

  /** `ip_client_search`, whose bounds are computed in 64 bits. */
  function ClientOf(p: Pool, ip: nat): Option<Client> {
    if ip < p.net || ip >= p.net + |p.entries| then None
    else
      var e := p.entries[ip - p.net];
      if e.used && e.ip == ip then e.client else None
  }

  /** The entries marked as used from the start: network, broadcast and server. */
  predicate Reserved(p: Pool, j: nat) {
    j == 0 || j + 1 == |p.entries| || p.net + j == p.server
  }

  /** `ip_pool_create` over the subnet of `server` under a mask of `k` leading ones. */
  function Created(server: nat, k: nat): Pool
    requires server < ADDRESSES && k <= 32
  {
    var net, n := And(server, Mask(k)), PoolSize(Mask(k));
    Pool(net, server, seq(n, j => Entry((net + j) % ADDRESSES, j == 0 || j + 1 == n || net + j == server, None)), 0)
  }

  // ------------------------------------------------------------- one acquire

  /** Cyclic distance from the cursor to entry `j`. */
  function Distance(cursor: nat, j: nat, n: nat): (d: nat)
    requires n > 0 && cursor < n && j < n
    ensures d < n
  {
    if cursor <= j then j - cursor else j + n - cursor
  }

  lemma AroundDistance(cursor: nat, i: nat, n: nat)
    requires cursor < n && i < n
    ensures Around(cursor, i, n) == (if cursor + i < n then cursor + i else cursor + i - n)
    ensures Distance(cursor, Around(cursor, i, n), n) == i
  {
    if cursor + i >= n {
      Remainder(cursor + i, n, 1, cursor + i - n);
    } else {
      Remainder(cursor + i, n, 0, cursor + i);
    }
  }

  /** The entry found is the nearest unused one, and none is found only if all are used. */
  lemma {:induction false} SearchFindsNearest(p: Pool, i: nat)
    requires p.cursor < |p.entries| && i <= |p.entries|
    ensures match Search(p, i)
            case None =>
              forall j :: 0 <= j < |p.entries| && Distance(p.cursor, j, |p.entries|) >= i ==> p.entries[j].used
            case Some(r) =>
              && Distance(p.cursor, r, |p.entries|) >= i
              && forall j :: 0 <= j < |p.entries| && Distance(p.cursor, j, |p.entries|) >= i
                             && Distance(p.cursor, j, |p.entries|) < Distance(p.cursor, r, |p.entries|)
                   ==> p.entries[j].used
    decreases |p.entries| - i
  {
    var n := |p.entries|;
    if i < n {
      AroundDistance(p.cursor, i, n);
      var a := Around(p.cursor, i, n);
      if p.entries[a].used {
        SearchFindsNearest(p, i + 1);
      }
      forall j | 0 <= j < n && Distance(p.cursor, j, n) == i ensures j == a {}
    }
  }

  /** `ip_acquire` fails exactly when every entry is used; otherwise it takes the nearest unused one. */
  lemma AcquireIsComplete(p: Pool)
    requires WellFormed(p)
    ensures Search(p, 0).None? <==> forall j :: 0 <= j < |p.entries| ==> p.entries[j].used
    ensures match Search(p, 0)
            case None => true
            case Some(r) =>
              forall j :: 0 <= j < |p.entries| && !p.entries[j].used ==>
                Distance(p.cursor, r, |p.entries|) <= Distance(p.cursor, j, |p.entries|)
  {
    if p.entries != [] {
      SearchFindsNearest(p, 0);
    }
  }

  /** Every other acquire brings the cursor strictly nearer to an entry that stays unused. */
  lemma AcquireComesNearer(p: Pool, c: Client, j: nat)
    requires WellFormed(p) && j < |p.entries| && !p.entries[j].used && Search(p, 0) != Some(j)
    ensures Acquired(p, c).cursor < |p.entries|
    ensures Distance(Acquired(p, c).cursor, j, |p.entries|) < Distance(p.cursor, j, |p.entries|)
  {
    AcquireIsComplete(p);
    var n, r := |p.entries|, Search(p, 0).value;
    if r + 1 < n {
      Remainder(r + 1, n, 0, r + 1);
    } else {
      Remainder(r + 1, n, 1, 0);
    }
  }

  // ------------------------------------------------------------- runs

  /** Entry `j` carries the `j`-th address of the subnet, which does not wrap. */
  predicate WellFormed(p: Pool) {
    && (p.entries != [] ==> p.cursor < |p.entries|)
    && p.net + |p.entries| <= ADDRESSES
    && forall j :: 0 <= j < |p.entries| ==> p.entries[j].ip == p.net + j
  }

  /** A client holds an entry. */
  datatype Loan = Loan(j: nat, c: Client)

  /** `lent` is the bag of loans, so an address lent twice would occur in it twice. */
  datatype State = State(p: Pool, lent: multiset<Loan>)

  datatype Op = Take(c: Client) | Give(l: Loan)

  /** Callers release only what they hold. */
  predicate Enabled(s: State, o: Op) {
    o.Give? ==> o.l in s.lent && o.l.j < |s.p.entries|
  }

  function Next(s: State, o: Op): State
    requires Enabled(s, o)
  {
    match o
    case Take(c) =>
      (match Search(s.p, 0)
       case None => s
       case Some(j) => State(Acquired(s.p, c), s.lent + multiset{Loan(j, c)}))
    case Give(l) => State(Released(s.p, l.j), s.lent - multiset{l})
  }

  const ALLOCATOR := System((s: State, o: Op) => Enabled(s, o),
                            (s: State, o: Op) => if Enabled(s, o) then Next(s, o) else s)

  ghost predicate Inv(s: State) {
    && WellFormed(s.p)
    && (forall l :: l in s.lent ==> l.j < |s.p.entries|)
    && (forall j :: 0 <= j < |s.p.entries| ==> EntryOk(s.p, j))
    && (forall l: Loan :: l.j < |s.p.entries| ==> s.lent[l] == Bit(s.p.entries[l.j].client == Some(l.c)))
  }

  /** An entry is used for ever if reserved, and otherwise exactly while it records a client. */
  predicate EntryOk(p: Pool, j: nat)
    requires j < |p.entries|
  {
    var e := p.entries[j];
    (Reserved(p, j) ==> e.client.None?) && (e.used <==> Reserved(p, j) || e.client.Some?)
  }

  lemma TakeKeeps(s: State, c: Client)
    requires Inv(s)
    ensures Inv(Next(s, Take(c)))
  {
    var s', n := Next(s, Take(c)), |s.p.entries|;
    if Search(s.p, 0).Some? {
      var r := Search(s.p, 0).value;
      assert EntryOk(s.p, r);
      assert s'.p.cursor < n;
      forall j | 0 <= j < n ensures EntryOk(s'.p, j) {
        assert EntryOk(s.p, j);
      }
      forall l: Loan | l.j < n ensures s'.lent[l] == Bit(s'.p.entries[l.j].client == Some(l.c)) {
        assert s.lent[l] == Bit(s.p.entries[l.j].client == Some(l.c));
      }
    }
  }

  lemma GiveKeeps(s: State, l: Loan)
    requires Inv(s) && Enabled(s, Give(l))
    ensures Inv(Next(s, Give(l)))
  {
    var s', n := Next(s, Give(l)), |s.p.entries|;
    assert s.lent[l] == 1 && s.p.entries[l.j].client == Some(l.c);
    forall j | 0 <= j < n ensures EntryOk(s'.p, j) {
      assert EntryOk(s.p, j);
    }
    forall m: Loan | m.j < n ensures s'.lent[m] == Bit(s'.p.entries[m.j].client == Some(m.c)) {
      assert s.lent[m] == Bit(s.p.entries[m.j].client == Some(m.c));
    }
  }

  lemma StepKeeps(s: State, o: Op)
    requires Inv(s) && Enabled(s, o)
    ensures Inv(Next(s, o))
  {
    match o
    case Take(c) => TakeKeeps(s, c);
    case Give(l) => GiveKeeps(s, l);
  }

  lemma CreatedInv(server: nat, k: nat)
    requires server < ADDRESSES && k <= 32
    ensures Inv(State(Created(server, k), multiset{}))
  {
    SubnetFits(server, k);
    var p := Created(server, k);
    forall j | 0 <= j < |p.entries| ensures p.entries[j].ip == p.net + j {
      InRange(p.net + j);
    }
  }

  lemma InRange(a: nat)
    requires a < ADDRESSES
    ensures a % ADDRESSES == a
  {
  }

  lemma ReachableInv(server: nat, k: nat, os: seq<Op>)
    requires server < ADDRESSES && k <= 32 && Valid(ALLOCATOR, State(Created(server, k), multiset{}), os)
    ensures Inv(After(ALLOCATOR, State(Created(server, k), multiset{}), os))
  {
    CreatedInv(server, k);
    forall s, o | Inv(s) && ALLOCATOR.enabled(s, o) ensures Inv(ALLOCATOR.next(s, o)) {
      StepKeeps(s, o);
    }
    Invariant(ALLOCATOR, Inv, State(Created(server, k), multiset{}), os);
  }

  /** What a pool was created from: the server's address and the mask. */
  predicate BuiltFrom(p: Pool, server: nat, k: nat)
    requires server < ADDRESSES && k <= 32
  {
    p.server == server && p.net == And(server, Mask(k)) && |p.entries| == PoolSize(Mask(k))
  }

  /** No operation changes that. */
  lemma {:induction false} RunKeepsOrigin(s: State, os: seq<Op>, server: nat, k: nat)
    requires server < ADDRESSES && k <= 32 && BuiltFrom(s.p, server, k) && Valid(ALLOCATOR, s, os)
    ensures BuiltFrom(After(ALLOCATOR, s, os).p, server, k)
    decreases |os|
  {
    if os != [] {
      RunKeepsOrigin(Next(s, os[0]), os[1..], server, k);
    }
  }

  /** A new pool: every address of the subnet once, unused except the first, the last and the server's. */
  lemma CreatedDescribes(server: nat, k: nat)
    requires server < ADDRESSES && k <= 32
    ensures BuiltFrom(Created(server, k), server, k) && Created(server, k).cursor == 0
    ensures var net, n := And(server, Mask(k)), PoolSize(Mask(k));
            forall j :: 0 <= j < n ==>
              Created(server, k).entries[j] == Entry(net + j, j == 0 || j == n - 1 || net + j == server, None)
  {
    SubnetFits(server, k);
    var p := Created(server, k);
    forall j | 0 <= j < |p.entries| ensures p.entries[j].ip == p.net + j {
      InRange(p.net + j);
    }
  }

  /**
   Over any run of acquires and disciplined releases: an entry has at most one loan, the
   client recorded in it is that loan's, and the address lent is none of the subnet's first
   and last and the server's.
   */
  lemma AddressesAreExclusive(server: nat, k: nat, os: seq<Op>, l: Loan)
    requires server < ADDRESSES && k <= 32 && Valid(ALLOCATOR, State(Created(server, k), multiset{}), os)
    ensures var s := After(ALLOCATOR, State(Created(server, k), multiset{}), os);
            var net, n := And(server, Mask(k)), PoolSize(Mask(k));
            l in s.lent ==>
              && s.lent[l] == 1 && (forall m :: m in s.lent && m.j == l.j ==> m == l)
              && 0 < l.j < n - 1 && net + l.j != server
              && |s.p.entries| == n && s.p.entries[l.j] == Entry(net + l.j, true, Some(l.c))
  {
    ReachableInv(server, k, os);
    CreatedDescribes(server, k);
    RunKeepsOrigin(State(Created(server, k), multiset{}), os, server, k);
    var s := After(ALLOCATOR, State(Created(server, k), multiset{}), os);
    if l in s.lent {
      assert EntryOk(s.p, l.j);
    }
  }

  /** Over any run a search finds exactly the client that acquired the address and still holds it. */
  lemma SearchFindsHolder(server: nat, k: nat, os: seq<Op>, l: Loan)
    requires server < ADDRESSES && k <= 32 && Valid(ALLOCATOR, State(Created(server, k), multiset{}), os)
    ensures var s := After(ALLOCATOR, State(Created(server, k), multiset{}), os);
            ClientOf(s.p, And(server, Mask(k)) + l.j) == Some(l.c) <==> l in s.lent
  {
    ReachableInv(server, k, os);
    CreatedDescribes(server, k);
    RunKeepsOrigin(State(Created(server, k), multiset{}), os, server, k);
    HolderIsFound(After(ALLOCATOR, State(Created(server, k), multiset{}), os), l);
  }

  lemma HolderIsFound(s: State, l: Loan)
    requires Inv(s)
    ensures ClientOf(s.p, s.p.net + l.j) == Some(l.c) <==> l in s.lent
  {
    if l.j < |s.p.entries| {
      assert EntryOk(s.p, l.j);
      assert s.lent[l] == Bit(s.p.entries[l.j].client == Some(l.c));
    }
  }

  /** An address outside the subnet belongs to nobody. */
  lemma SearchOutside(server: nat, k: nat, os: seq<Op>, ip: nat)
    requires server < ADDRESSES && k <= 32 && Valid(ALLOCATOR, State(Created(server, k), multiset{}), os)
    requires ip < And(server, Mask(k)) || ip >= And(server, Mask(k)) + PoolSize(Mask(k))
    ensures ClientOf(After(ALLOCATOR, State(Created(server, k), multiset{}), os).p, ip) == None
  {
    CreatedDescribes(server, k);
    RunKeepsOrigin(State(Created(server, k), multiset{}), os, server, k);
  }

  /** The constant-time search agrees with a scan of all entries, for every address. */
  lemma SearchAgrees(s: State, ip: nat, c: Client)
    requires Inv(s)
    ensures ClientOf(s.p, ip) == Some(c) <==>
            exists j :: 0 <= j < |s.p.entries| && s.p.entries[j] == Entry(ip, true, Some(c))
  {
    if ClientOf(s.p, ip) == Some(c) {
      assert s.p.entries[ip - s.p.net] == Entry(ip, true, Some(c));
    }
  }

  // ------------------------------------------------------------- fairness

  /** The number of acquires of a run that succeed. */
  function Successes(s: State, os: seq<Op>): nat
    requires Valid(ALLOCATOR, s, os)
    decreases |os|
  {
    if os == [] then 0
    else (if os[0].Take? && Search(s.p, 0).Some? then 1 else 0) + Successes(Next(s, os[0]), os[1..])
  }

  /** Some acquire of the run hands out entry `j`. */
  predicate HandsOut(s: State, os: seq<Op>, j: nat)
    requires Valid(ALLOCATOR, s, os)
    decreases |os|
  {
    os != [] && ((os[0].Take? && Search(s.p, 0) == Some(j)) || HandsOut(Next(s, os[0]), os[1..], j))
  }

  lemma {:induction false} PassedOverAtMost(s: State, os: seq<Op>, j: nat)
    requires Inv(s) && Valid(ALLOCATOR, s, os) && j < |s.p.entries| && !s.p.entries[j].used
    requires !HandsOut(s, os, j)
    ensures Successes(s, os) <= Distance(s.p.cursor, j, |s.p.entries|)
    decreases |os|
  {
    if os != [] {
      var s' := Next(s, os[0]);
      StepKeeps(s, os[0]);
      if os[0].Take? && Search(s.p, 0).Some? {
        AcquireComesNearer(s.p, os[0].c, j);
      }
      PassedOverAtMost(s', os[1..], j);
    }
  }

  /** Fairness: an unused entry is handed out within as many acquires as there are entries. */
  lemma EveryEntryGetsItsTurn(s: State, os: seq<Op>, j: nat)
    requires Inv(s) && Valid(ALLOCATOR, s, os) && j < |s.p.entries| && !s.p.entries[j].used
    requires Successes(s, os) >= |s.p.entries|
    ensures HandsOut(s, os, j)
  {
    if !HandsOut(s, os, j) {
      PassedOverAtMost(s, os, j);
    }
  }

  // ------------------------------------------------------------- the object

  class AddressPool {
    var net: nat
    var server: nat
    var entries: array<Entry>
    var cursor: nat

    ghost function View(): Pool
      reads this, entries
    {
      Pool(net, server, entries[..], cursor)
    }

    /** Every address of the subnet of `serverIp`, unused except the first, the last and the server's. */
    ghost predicate Fresh(serverIp: nat, mask: nat)
      requires mask < ADDRESSES
      reads this, entries
    {
      && net == And(serverIp, mask) && server == serverIp && cursor == 0 && entries.Length == PoolSize(mask)
      && forall j :: 0 <= j < entries.Length ==>
           entries[j] == Entry(net + j, j == 0 || j == entries.Length - 1 || net + j == serverIp, None)
    }

    /** `ip_pool_create` once the mask is accepted. */
    constructor (serverIp: nat, mask: nat, ghost k: nat)
      requires serverIp < ADDRESSES && k <= 32 && mask == Mask(k)
      ensures View() == Created(serverIp, k) && fresh(entries)
      ensures Fresh(serverIp, mask)
    {
      SubnetFits(serverIp, k);
      CreatedDescribes(serverIp, k);
      net, server, cursor := And(serverIp, mask), serverIp, 0;
      var n := PoolSize(mask);
      entries := new Entry[n](_ => Entry(0, false, None));
      new;
      for i := 0 to n
        invariant entries.Length == n && fresh(entries)
        invariant net == And(serverIp, mask) && server == serverIp && cursor == 0
        invariant forall j :: 0 <= j < i ==> entries[j] == Created(serverIp, k).entries[j]
      {
        var ip := (net + i) % ADDRESSES;
        InRange(net + i);
        entries[i] := Entry(ip, i == 0 || i == n - 1 || ip == server, None);
      }
      assert entries[..] == Created(serverIp, k).entries;
    }

    /** `ip_acquire`: the round-robin scan. */
    method Acquire(c: Client) returns (r: Option<nat>)
      modifies this, entries
      ensures entries == old(entries)
      ensures r == Search(old(View()), 0) && View() == Acquired(old(View()), c)
    {
      var n := entries.Length;
      for i := 0 to n
        invariant entries == old(entries) && View() == old(View())
        invariant Search(View(), 0) == Search(View(), i)
      {
        var j := Around(cursor, i, n);
        if !entries[j].used {
          entries[j] := entries[j].(used := true, client := Some(c));
          assert entries[..] == old(entries[..])[j := entries[j]];
          cursor := (j + 1) % n;
          return Some(j);
        }
      }
      return None;
    }

    /** `ip_release` */
    method Release(j: nat)
      requires j < entries.Length
      modifies entries
      ensures View() == Released(old(View()), j)
    {
      entries[j] := entries[j].(used := false, client := None);
      assert entries[..] == old(entries[..])[j := entries[j]];
    }

    /** `ip_client_search` */
    method ClientSearch(ip: nat) returns (c: Option<Client>)
      ensures c == ClientOf(View(), ip)
    {
      if ip < net || ip >= net + entries.Length {
        return None;
      }
      var e := entries[ip - net];
      c := if e.used && e.ip == ip then e.client else None;
    }
  }

  /** `ip_pool_create`: refuses exactly the non-contiguous masks. */
  method Create(serverIp: nat, mask: nat) returns (r: Option<AddressPool>)
    requires serverIp < ADDRESSES && mask < ADDRESSES
    ensures r.Some? <==> exists k :: 0 <= k <= 32 && mask == Mask(k)
    ensures r.Some? ==> fresh(r.value) && r.value.Fresh(serverIp, mask)
    ensures r.Some? ==> exists k :: 0 <= k <= 32 && mask == Mask(k) && r.value.View() == Created(serverIp, k)
  {
    ValidExactly(mask);
    if !ValidateMask(mask) {
      return None;
    }
    ghost var k :| 0 <= k <= 32 && mask == Mask(k);
    var p := new AddressPool(serverIp, mask, k);
    return Some(p);
  }
}
