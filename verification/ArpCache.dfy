/** The ARP cache of src/kernel/Network/Protocols/arp.c: 32 slots, the least recently added address replaced. */
module ArpCacheModule {
  type u32 = x: int | 0 <= x < 0x1_0000_0000
  type byte = x: int | 0 <= x < 256
  type Mac = s: seq<byte> | |s| == 6 witness [0, 0, 0, 0, 0, 0]

  datatype Entry = Entry(ip: u32, mac: Mac, timestamp: u32, valid: bool)
  datatype Add = Add(ip: u32, mac: Mac)

  const SLOTS := 32

  // ---- histories of additions ----

  /** Index of the last addition of `ip`, or -1. */
  ghost function LastAdd(h: seq<Add>, ip: u32): (k: int)
    ensures -1 <= k < |h|
    ensures k >= 0 ==> h[k].ip == ip
    ensures forall j :: k < j < |h| ==> h[j].ip != ip
  {
    if h == [] then -1 else if h[|h| - 1].ip == ip then |h| - 1 else LastAdd(h[..|h| - 1], ip)
  }

  lemma LastAddSnoc(h: seq<Add>, a: Add, ip: u32)
    ensures LastAdd(h + [a], ip) == if a.ip == ip then |h| else LastAdd(h, ip)
  {
    var g := h + [a];
    assert g[|g| - 1] == a && g[..|g| - 1] == h;
  }

  ghost function AddedIps(h: seq<Add>): set<u32> { set k | 0 <= k < |h| :: h[k].ip }

  /** The addresses added after the last addition of `ip`. */
  ghost function Newer(h: seq<Add>, ip: u32): set<u32> { set p | p in AddedIps(h) && LastAdd(h, p) > LastAdd(h, ip) }

  // ---- what the slots hold ----

  ghost predicate HasIp(t: seq<Entry>, ip: u32) { exists i :: 0 <= i < |t| && t[i].valid && t[i].ip == ip }

  ghost predicate Full(t: seq<Entry>) { forall i :: 0 <= i < |t| ==> t[i].valid }

  ghost predicate OneSlotEach(t: seq<Entry>) {
    forall i, j :: 0 <= i < |t| && 0 <= j < |t| && t[i].valid && t[j].valid && t[i].ip == t[j].ip ==> i == j
  }

  /** One slot per address, with the last MAC added for it. */
  ghost predicate Current(t: seq<Entry>, h: seq<Add>) {
    && |t| == SLOTS && OneSlotEach(t)
    && forall i :: 0 <= i < |t| && t[i].valid ==> LastAdd(h, t[i].ip) >= 0 && h[LastAdd(h, t[i].ip)].mac == t[i].mac
  }

  /** Addresses that are not held are older than everything that is, and then no slot is free. */
  ghost predicate OldGone(t: seq<Entry>, h: seq<Add>) {
    forall ip: u32 :: LastAdd(h, ip) >= 0 && !HasIp(t, ip) ==>
      Full(t) && forall i :: 0 <= i < |t| ==> LastAdd(h, ip) < LastAdd(h, t[i].ip)
  }

  /** Every valid slot is stamped with the index of the last addition of its address. */
  ghost predicate Stamped(t: seq<Entry>, h: seq<Add>) {
    forall i :: 0 <= i < |t| && t[i].valid ==> t[i].timestamp == LastAdd(h, t[i].ip)
  }

  // ---- one addition ----

  /** No other slot than `idx`, if that is one, holds the address. */
  ghost predicate NowhereElse(t: seq<Entry>, ip: u32, idx: int) {
    forall i :: 0 <= i < |t| && i != idx ==> !(t[i].valid && t[i].ip == ip)
  }

  function Put(t: seq<Entry>, idx: int, a: Add, stamp: u32): seq<Entry>
    requires -1 <= idx < |t|
  {
    if idx == -1 then t else t[idx := Entry(a.ip, a.mac, stamp, true)]
  }

  lemma CurrentAfter(t: seq<Entry>, h: seq<Add>, a: Add, idx: int, stamp: u32)
    requires Current(t, h) && -1 <= idx < SLOTS && NowhereElse(t, a.ip, idx)
    ensures Current(Put(t, idx, a, stamp), h + [a])
  {
    hide LastAdd;
    var t', g := Put(t, idx, a, stamp), h + [a];
    forall i | 0 <= i < |t'| && t'[i].valid ensures LastAdd(g, t'[i].ip) >= 0 && g[LastAdd(g, t'[i].ip)].mac == t'[i].mac {
      LastAddSnoc(h, a, t'[i].ip);
    }
  }

  /** The slot holds the address, or nothing, or the address added least recently. */
  ghost predicate OldestGoes(t: seq<Entry>, h: seq<Add>, ip: u32, idx: nat)
    requires idx < |t|
  {
    (t[idx].valid && t[idx].ip != ip) ==> Full(t) && forall i :: 0 <= i < |t| ==> LastAdd(h, t[idx].ip) <= LastAdd(h, t[i].ip)
  }

  /** An addition keeps the most recent addresses exactly when it overwrites its own, a free or the oldest slot. */
  lemma RecencyStep(t: seq<Entry>, h: seq<Add>, a: Add, idx: nat, stamp: u32)
    requires Current(t, h) && OldGone(t, h) && idx < SLOTS && NowhereElse(t, a.ip, idx)
    requires Full(t) || !t[idx].valid || t[idx].ip == a.ip
    ensures OldGone(Put(t, idx, a, stamp), h + [a]) <==> OldestGoes(t, h, a.ip, idx)
  {
    hide LastAdd, OldGone;
    if OldestGoes(t, h, a.ip, idx) {
      OldGoneAfter(t, h, a, idx, stamp);
    } else {
      YoungerGone(t, h, a, idx, stamp);
    }
  }

  lemma OldGoneAfter(t: seq<Entry>, h: seq<Add>, a: Add, idx: nat, stamp: u32)
    requires Current(t, h) && OldGone(t, h) && idx < SLOTS && NowhereElse(t, a.ip, idx) && OldestGoes(t, h, a.ip, idx)
    ensures OldGone(Put(t, idx, a, stamp), h + [a])
  {
    hide LastAdd;
    var t', g := Put(t, idx, a, stamp), h + [a];
    assert t'[idx].valid && t'[idx].ip == a.ip;
    forall ip: u32 | LastAdd(g, ip) >= 0 && !HasIp(t', ip)
      ensures Full(t') && forall i :: 0 <= i < |t'| ==> LastAdd(g, ip) < LastAdd(g, t'[i].ip)
    {
      LastAddSnoc(h, a, ip);
      assert ip != a.ip;
      if HasIp(t, ip) {
        var j :| 0 <= j < |t| && t[j].valid && t[j].ip == ip;
        assert t'[j] == t[j] || j == idx;
      } else {
        assert Full(t);
      }
      forall i | 0 <= i < |t'| ensures LastAdd(g, ip) < LastAdd(g, t'[i].ip) {
        LastAddSnoc(h, a, t'[i].ip);
        assert i != idx ==> t'[i] == t[i];
        SameLastAdd(h, ip, t[i].ip);
      }
    }
  }

  /** Two addresses with the same last addition are the same. */
  lemma SameLastAdd(h: seq<Add>, p: u32, q: u32)
    ensures LastAdd(h, p) == LastAdd(h, q) >= 0 ==> p == q
  { }

  lemma YoungerGone(t: seq<Entry>, h: seq<Add>, a: Add, idx: nat, stamp: u32)
    requires Current(t, h) && Full(t) && idx < SLOTS && NowhereElse(t, a.ip, idx) && !OldestGoes(t, h, a.ip, idx)
    ensures !OldGone(Put(t, idx, a, stamp), h + [a])
  {
    hide LastAdd;
    var t', g := Put(t, idx, a, stamp), h + [a];
    var gone := t[idx].ip;
    var i :| 0 <= i < |t| && LastAdd(h, t[i].ip) < LastAdd(h, gone);
    LastAddSnoc(h, a, gone);
    LastAddSnoc(h, a, t[i].ip);
    assert t'[i] == t[i];
    assert !HasIp(t', gone);
  }

  // ---- least recently used ----

  ghost function HeldIps(t: seq<Entry>, n: nat): set<u32>
    requires n <= |t|
  {
    set i | 0 <= i < n && t[i].valid :: t[i].ip
  }

  lemma {:induction false} HeldCount(t: seq<Entry>, n: nat)
    requires n <= |t| && OneSlotEach(t)
    ensures |HeldIps(t, n)| <= n && (Full(t) ==> |HeldIps(t, n)| == n)
  {
    if n > 0 {
      HeldCount(t, n - 1);
      hide Full;
      var rest := HeldIps(t, n - 1);
      if t[n - 1].valid {
        assert HeldIps(t, n) == rest + {t[n - 1].ip};
        assert t[n - 1].ip !in rest;
      } else {
        assert HeldIps(t, n) == rest;
      }
    }
  }

  lemma HeldAreNewer(t: seq<Entry>, h: seq<Add>, ip: u32)
    requires Current(t, h) && OldGone(t, h) && LastAdd(h, ip) >= 0 && !HasIp(t, ip)
    ensures HeldIps(t, SLOTS) <= Newer(h, ip)
  {
    hide LastAdd, OneSlotEach;
    forall p | p in HeldIps(t, SLOTS) ensures p in Newer(h, ip) {
      var i :| 0 <= i < SLOTS && t[i].valid && t[i].ip == p;
      assert h[LastAdd(h, p)].ip == p;
    }
  }

  lemma NewerAreHeld(t: seq<Entry>, h: seq<Add>, ip: u32)
    requires Current(t, h) && OldGone(t, h) && HasIp(t, ip)
    ensures LastAdd(h, ip) >= 0 && ip in HeldIps(t, SLOTS) && Newer(h, ip) <= HeldIps(t, SLOTS) - {ip}
  {
    hide LastAdd, OneSlotEach;
    var i :| 0 <= i < |t| && t[i].valid && t[i].ip == ip;
    forall p | p in Newer(h, ip) ensures p in HeldIps(t, SLOTS) - {ip} {
      assert LastAdd(h, p) < LastAdd(h, t[i].ip) || HasIp(t, p);
    }
  }

  /** An address is held exactly when it was added and fewer than 32 others were added after its last addition. */
  ghost predicate MostRecent(t: seq<Entry>, h: seq<Add>) {
    forall ip: u32 :: HasIp(t, ip) <==> LastAdd(h, ip) >= 0 && |Newer(h, ip)| < SLOTS
  }

  lemma HeldIffRecent(t: seq<Entry>, h: seq<Add>)
    requires Current(t, h) && OldGone(t, h)
    ensures MostRecent(t, h)
  {
    hide LastAdd, Newer, HeldIps, OldGone;
    var held := HeldIps(t, SLOTS);
    HeldCount(t, SLOTS);
    forall ip: u32 ensures HasIp(t, ip) <==> LastAdd(h, ip) >= 0 && |Newer(h, ip)| < SLOTS {
      if HasIp(t, ip) {
        NewerAreHeld(t, h, ip);
        Cardinality(Newer(h, ip), held - {ip});
      } else if LastAdd(h, ip) >= 0 {
        HeldAreNewer(t, h, ip);
        Cardinality(held, Newer(h, ip));
        GoneMeansFull(t, h, ip);
      }
    }
  }

  lemma GoneMeansFull(t: seq<Entry>, h: seq<Add>, ip: u32)
    requires OldGone(t, h) && LastAdd(h, ip) >= 0 && !HasIp(t, ip)
    ensures Full(t)
  { }

  lemma {:induction false} Cardinality(a: set<u32>, b: set<u32>)
    requires a <= b
    ensures |a| <= |b|
    decreases a
  {
    if a != {} {
      var x :| x in a;
      Cardinality(a - {x}, b - {x});
    }
  }

  // ---- the cache as a function of the additions ----

  /** The first valid slot from `i` on with that address, or -1. */
  function SlotOf(t: seq<Entry>, ip: u32, i: nat): (k: int)
    requires i <= |t|
    ensures k == -1 || (i <= k < |t| && t[k].valid && t[k].ip == ip)
    ensures k == -1 ==> forall j :: i <= j < |t| ==> !(t[j].valid && t[j].ip == ip)
    decreases |t| - i
  {
    if i == |t| then -1 else if t[i].valid && t[i].ip == ip then i else SlotOf(t, ip, i + 1)
  }

  /** The slot to overwrite, when the first `i` are valid and `idx` is the first of them with the least stamp below
      0xFFFFFFFF: the first free one from `i` on, or else the least stamp of all; -1 if no stamp is below 0xFFFFFFFF. */
  function Victim(t: seq<Entry>, i: nat, idx: int, oldest: u32): (k: int)
    requires i <= |t| && -1 <= idx < i
    requires if idx == -1 then oldest == 0xFFFF_FFFF else oldest == t[idx].timestamp
    requires forall j :: 0 <= j < i ==> t[j].valid && oldest <= t[j].timestamp
    ensures -1 <= k < |t|
    ensures k >= 0 && t[k].valid ==> Full(t) && forall j :: 0 <= j < |t| ==> t[k].timestamp <= t[j].timestamp
    ensures k == -1 ==> Full(t) && forall j :: 0 <= j < |t| ==> t[j].timestamp == 0xFFFF_FFFF
    decreases |t| - i
  {
    if i == |t| then idx
    else if !t[i].valid then i
    else if t[i].timestamp < oldest then Victim(t, i + 1, i, t[i].timestamp)
    else Victim(t, i + 1, idx, oldest)
  }

  /** The slot an addition writes to. */
  function Target(t: seq<Entry>, ip: u32): (k: int)
    ensures -1 <= k < |t|
  {
    var own := SlotOf(t, ip, 0);
    if own >= 0 then own else Victim(t, 0, -1, 0xFFFF_FFFF)
  }

  datatype Cache = Cache(table: seq<Entry>, time: u32)

  const FREE := Entry(0, [0, 0, 0, 0, 0, 0], 0, false)

  /** arp_cache_add. */
  function AddTo(c: Cache, a: Add): Cache {
    var idx := Target(c.table, a.ip);
    if idx == -1 then c else Cache(Put(c.table, idx, a, c.time), (c.time + 1) % 0x1_0000_0000)
  }

  /** The cache after a history of additions. */
  function After(h: seq<Add>): Cache {
    if h == [] then Cache(seq(SLOTS, _ => FREE), 0) else AddTo(After(h[..|h| - 1]), h[|h| - 1])
  }

  lemma AfterSnoc(h: seq<Add>, a: Add)
    ensures After(h + [a]) == AddTo(After(h), a)
  {
    hide AddTo;
    var g := h + [a];
    assert g[..|g| - 1] == h;
  }

  lemma TargetAlone(t: seq<Entry>, ip: u32)
    requires OneSlotEach(t)
    ensures NowhereElse(t, ip, Target(t, ip))
  {
    hide Victim;
  }

  /** For any number of additions: one slot per address, with the last MAC added for it. */
  lemma {:induction false} AlwaysCurrent(h: seq<Add>)
    ensures Current(After(h).table, h)
    decreases |h|
  {
    hide LastAdd, Victim, SlotOf;
    if h != [] {
      var front, a := h[..|h| - 1], h[|h| - 1];
      var c := After(front);
      AlwaysCurrent(front);
      TargetAlone(c.table, a.ip);
      CurrentAfter(c.table, front, a, Target(c.table, a.ip), c.time);
      assert h == front + [a];
    }
  }

  // ---- up to 2^32 + 1 additions ----

  const TWO32: nat := 0x1_0000_0000

  /** While the stamps tell the order, the slot an addition overwrites exists and is the right one. */
  lemma TargetOldest(t: seq<Entry>, h: seq<Add>, ip: u32)
    requires Current(t, h) && Stamped(t, h)
    ensures Target(t, ip) >= 0 && OldestGoes(t, h, ip, Target(t, ip))
  {
    hide LastAdd;
    var k := Target(t, ip);
    if k == -1 {
      SameLastAdd(h, t[0].ip, t[1].ip);
      assert false;
    }
  }

  /** For up to 2^32 additions the stamps are the indices of the additions, and the most recent addresses are held. */
  lemma {:induction false} StampsExact(h: seq<Add>)
    requires |h| <= TWO32
    ensures var c := After(h);
            c.time == |h| % TWO32 && Current(c.table, h) && Stamped(c.table, h) && OldGone(c.table, h)
    decreases |h|
  {
    hide LastAdd, Target, OldGone, Current, Stamped;
    AlwaysCurrent(h);
    if h == [] {
      NothingHeld();
    } else {
      var front, a := h[..|h| - 1], h[|h| - 1];
      assert h == front + [a];
      StampsExact(front);
      Recency(front, a);
      StampedAfter(After(front).table, front, a, Target(After(front).table, a.ip));
    }
  }

  lemma NothingHeld()
    ensures Stamped(After([]).table, []) && OldGone(After([]).table, [])
  { }

  lemma StampedAfter(t: seq<Entry>, h: seq<Add>, a: Add, idx: nat)
    requires Current(t, h) && Stamped(t, h) && |h| < TWO32 && idx < SLOTS && NowhereElse(t, a.ip, idx)
    ensures Stamped(Put(t, idx, a, |h|), h + [a])
  {
    hide LastAdd;
    var t', g := Put(t, idx, a, |h|), h + [a];
    forall i | 0 <= i < |t'| && t'[i].valid ensures t'[i].timestamp == LastAdd(g, t'[i].ip) {
      LastAddSnoc(h, a, t'[i].ip);
    }
  }

  /** One more addition after at most 2^32 still replaces the right address. */
  lemma Recency(front: seq<Add>, a: Add)
    requires var c := After(front); Current(c.table, front) && Stamped(c.table, front) && OldGone(c.table, front)
    ensures var c := After(front);
            && 0 <= Target(c.table, a.ip) < SLOTS && NowhereElse(c.table, a.ip, Target(c.table, a.ip))
            && After(front + [a]) == Cache(Put(c.table, Target(c.table, a.ip), a, c.time), (c.time + 1) % TWO32)
            && OldGone(After(front + [a]).table, front + [a])
  {
    hide LastAdd, OldGone, Target, After, Stamped;
    var c := After(front);
    AfterSnoc(front, a);
    TargetAlone(c.table, a.ip);
    TargetOldest(c.table, front, a.ip);
    OldGoneAfter(c.table, front, a, Target(c.table, a.ip), c.time);
  }

  lemma RecentUpTo(h: seq<Add>)
    requires |h| <= TWO32 + 1
    ensures MostRecent(After(h).table, h)
  {
    hide LastAdd, OldGone, Stamped, MostRecent, After;
    AlwaysCurrent(h);
    if |h| <= TWO32 {
      StampsExact(h);
    } else {
      var front, a := h[..|h| - 1], h[|h| - 1];
      assert h == front + [a];
      StampsExact(front);
      Recency(front, a);
    }
    HeldIffRecent(After(h).table, h);
  }

  // ---- and no further ----

  function Of(ip: u32): Add { Add(ip, [0, 0, 0, 0, 0, 0]) }

  /** Every address once, in order. */
  function Everyone(): (h: seq<Add>)
    ensures |h| == TWO32 && forall k :: 0 <= k < TWO32 ==> h[k] == Of(k)
  {
    seq(TWO32, k requires 0 <= k < TWO32 => Of(k))
  }

  /** All addresses, then address 0 again, then address 1 again `n` times. */
  function Failing(n: nat): (h: seq<Add>)
    ensures |h| == TWO32 + 1 + n
    decreases n
  {
    if n == 0 then Everyone() + [Of(0)] else Failing(n - 1) + [Of(1)]
  }

  lemma EveryoneLast(ip: u32)
    ensures LastAdd(Everyone(), ip) == ip
  {
    hide Everyone;
    assert Everyone()[ip].ip == ip;
  }

  /** The addresses from `lo` on, `n` of them. */
  ghost function Range(lo: nat, n: nat): (r: set<u32>)
    requires lo + n <= TWO32
    ensures |r| == n && forall x :: x in r <==> lo <= x < lo + n
  {
    if n == 0 then {} else Range(lo, n - 1) + {lo + n - 1}
  }

  /** After all addresses have been added once, 0 and 1 are not held and all stamps are positive. */
  lemma EveryoneHeld(ip: u32)
    requires ip < 2
    ensures var c := After(Everyone());
            && c.time == 0 && |c.table| == SLOTS && Full(c.table) && !HasIp(c.table, ip)
            && Target(c.table, ip) >= 0 && forall i :: 0 <= i < SLOTS ==> c.table[i].timestamp > 0
  {
    hide After, LastAdd, Everyone, HasIp, AddedIps, Range, Target;
    var h := Everyone();
    var c := After(h);
    StampsExact(h);
    TargetOldest(c.table, h, ip);
    RecentUpTo(h);
    EveryoneLast(ip);
    forall p | p in Range(2, 32) ensures p in Newer(h, ip) {
      EveryoneLast(p);
      IsAdded(h, p);
    }
    Cardinality(Range(2, 32), Newer(h, ip));
    assert !HasIp(c.table, ip);
    forall i | 0 <= i < SLOTS ensures c.table[i].timestamp > 0 {
      assert LastAdd(h, ip) < LastAdd(h, c.table[i].ip);
    }
  }

  lemma IsAdded(h: seq<Add>, p: u32)
    requires LastAdd(h, p) >= 0
    ensures p in AddedIps(h)
  {
    assert h[LastAdd(h, p)].ip == p;
  }

  /** Address 0 is dropped by the first addition of address 1 behind it, and stays out. */
  lemma {:induction false} NewestDropped(n: nat)
    requires n > 0
    ensures !HasIp(After(Failing(n)).table, 0) && HasIp(After(Failing(n)).table, 1) && |After(Failing(n)).table| == SLOTS
    decreases n
  {
    hide After, Everyone;
    AfterSnoc(Failing(n - 1), Of(1));
    var c := After(Failing(n - 1));
    if n == 1 {
      EveryoneHeld(0);
      EveryoneHeld(1);
      AfterSnoc(Everyone(), Of(0));
      Dropped(After(Everyone()));
    } else {
      NewestDropped(n - 1);
      AddedAgain(c);
    }
  }

  lemma Dropped(c: Cache)
    requires c.time == 0 && |c.table| == SLOTS && Full(c.table) && !HasIp(c.table, 0) && !HasIp(c.table, 1)
    requires Target(c.table, 0) >= 0 && forall i :: 0 <= i < SLOTS ==> c.table[i].timestamp > 0
    ensures var d := AddTo(AddTo(c, Of(0)), Of(1)); !HasIp(d.table, 0) && HasIp(d.table, 1) && |d.table| == SLOTS
  {
    var c1 := AddTo(c, Of(0));
    var k := Target(c1.table, 1);
    assert c1.table[Target(c.table, 0)].timestamp == 0;
    assert k == Target(c.table, 0);
    assert AddTo(c1, Of(1)).table[k].ip == 1;
  }

  lemma AddedAgain(c: Cache)
    requires |c.table| == SLOTS && !HasIp(c.table, 0) && HasIp(c.table, 1)
    ensures var d := AddTo(c, Of(1)); !HasIp(d.table, 0) && HasIp(d.table, 1) && |d.table| == SLOTS
  {
    hide Victim;
    var k := SlotOf(c.table, 1, 0);
    assert AddTo(c, Of(1)).table[k].ip == 1;
  }

  /** Only address 1 was added after the last addition of address 0. */
  lemma {:induction false} FailingNewer(n: nat)
    requires n > 0
    ensures LastAdd(Failing(n), 0) == TWO32 && forall ip: u32 :: LastAdd(Failing(n), ip) > TWO32 <==> ip == 1
    decreases n
  {
    hide LastAdd, Everyone;
    forall ip: u32 ensures ip == 0 ==> LastAdd(Failing(n), ip) == TWO32
                   ensures LastAdd(Failing(n), ip) > TWO32 <==> ip == 1
    {
      LastAddSnoc(Failing(n - 1), Of(1), ip);
      if n == 1 { LastAddSnoc(Everyone(), Of(0), ip); } else { FailingNewer(n - 1); }
    }
  }

  lemma FailingFails(n: nat)
    requires n > 0
    ensures !MostRecent(After(Failing(n)).table, Failing(n))
  {
    hide After, Failing, LastAdd, HasIp, AddedIps;
    var h := Failing(n);
    NewestDropped(n);
    FailingNewer(n);
    IsAdded(h, 1);
    assert Newer(h, 0) == {1};
  }

  /** The bound is sharp: every history of `n` additions leaves the most recent addresses exactly when n is at most
      2^32 + 1. */
  lemma SharpBound(n: nat)
    ensures (forall h: seq<Add> :: |h| == n ==> MostRecent(After(h).table, h)) <==> n <= TWO32 + 1
  {
    hide MostRecent, After;
    if n <= TWO32 + 1 {
      forall h: seq<Add> | |h| == n ensures MostRecent(After(h).table, h) { RecentUpTo(h); }
    } else {
      var k := n - TWO32 - 1;
      FailingFails(k);
      assert |Failing(k)| == n;
    }
  }

  class ArpCache {
    const table: array<Entry>
    var time: u32
    ghost var history: seq<Add>

    /** The object is the cache of its history. */
    ghost predicate Valid()
      reads this, table
    {
      table.Length == SLOTS && Cache(table[..], time) == After(history)
    }

    /** arp_init on the zeroed table. */
    constructor ()
      ensures Valid() && fresh(table) && history == []
    {
      table := new Entry[SLOTS](_ => FREE);
      time := 0;
      history := [];
    }

    /** arp_cache_add. */
    method CacheAdd(ip: u32, mac: Mac)
      requires Valid()
      modifies this, table
      ensures Valid() && history == old(history) + [Add(ip, mac)]
    {
      hide After;
      ghost var t := table[..];
      AfterSnoc(history, Add(ip, mac));
      history := history + [Add(ip, mac)];
      for i := 0 to SLOTS
        invariant table[..] == t && time == old(time)
        invariant SlotOf(t, ip, 0) == SlotOf(t, ip, i)
      {
        if table[i].valid && table[i].ip == ip {
          table[i] := Entry(ip, mac, time, true);
          assert table[..] == Put(t, i, Add(ip, mac), time);
          time := (time + 1) % TWO32;
          return;
        }
      }
      var idx := -1;
      var oldest: u32 := 0xFFFF_FFFF;
      var i := 0;
      while i < SLOTS
        invariant 0 <= i <= SLOTS && -1 <= idx < i
        invariant if idx == -1 then oldest == 0xFFFF_FFFF else oldest == t[idx].timestamp
        invariant forall k :: 0 <= k < i ==> t[k].valid && oldest <= t[k].timestamp
        invariant Victim(t, 0, -1, 0xFFFF_FFFF) == Victim(t, i, idx, oldest)
      {
        assert table[i] == t[i];
        if !table[i].valid {
          idx := i;
          break;
        }
        if table[i].timestamp < oldest {
          oldest := table[i].timestamp;
          idx := i;
        }
        i := i + 1;
      }
      if idx >= 0 {
        table[idx] := Entry(ip, mac, time, true);
        assert table[..] == Put(t, idx, Add(ip, mac), time);
        time := (time + 1) % TWO32;
      }
    }

    /** arp_cache_lookup: what is found is the MAC added last for `ip`; for up to 2^32 + 1 additions it is found unless 32
        others were added since. */
    method CacheLookup(ip: u32) returns (found: bool, mac: Mac)
      requires Valid()
      ensures |history| <= TWO32 + 1 ==> (found <==> LastAdd(history, ip) >= 0 && |Newer(history, ip)| < SLOTS)
      ensures found ==> LastAdd(history, ip) >= 0 && mac == history[LastAdd(history, ip)].mac
    {
      hide LastAdd, Newer, After;
      AlwaysCurrent(history);
      if |history| <= TWO32 + 1 { RecentUpTo(history); }
      for i := 0 to SLOTS
        invariant forall k :: 0 <= k < i ==> !(table[k].valid && table[k].ip == ip)
      {
        if table[i].valid && table[i].ip == ip {
          assert table[..][i] == table[i];
          return true, table[i].mac;
        }
      }
      return false, [0, 0, 0, 0, 0, 0];
    }
  }
}
