/**
 The address manager's self test `Check_` (src/addrman.cpp:376-450): what its scans over the tables add up
 to, and how that compares with the consistency invariant.

 The scans use up a set of tried ids and a map of reference counts; the lemmas here carry both from slot
 to slot, for the method that runs them on the object.
 */
module AddrManCheck {
  import opened AddrManState
  import Ops = AddrManOps
  import L = AddrManLoad
  import V = AddrManSurvival

  const NULL_KEY: Key := 0

  /** What `mapAddr[ip]` reads: a missing key is inserted with zero. */
  function Read(addrs: map<NetAddr, int>, ip: NetAddr): int { if ip in addrs then addrs[ip] else 0 }

  predicate AddrTest(s: State, id: int)
    requires id in s.infos
  {
    Read(s.addrs, s.infos[id].service.ip) == id
  }

  predicate CountTest(info: Info) {
    if info.inTried then info.lastSuccess != 0 && info.refCount == 0
    else 0 < info.refCount <= NEW_BUCKETS_PER_ADDRESS
  }

  predicate EntryTest(s: State, id: int)
    requires id in s.infos
  {
    CountTest(s.infos[id]) && AddrTest(s, id) && PositionOk(s, id)
    && s.infos[id].lastTry >= 0 && s.infos[id].lastSuccess >= 0
  }

  predicate RefsTest(cfg: Config, s: State, id: int)
    requires Shape(cfg, s) && id in s.infos
  {
    !s.infos[id].inTried ==> s.infos[id].refCount == |Refs(cfg, s.key, s.newTable, s.infos[id].service, id)|
  }

  predicate AllEntries(s: State) {
    forall id {:trigger EntryTest(s, id)} :: id in s.infos ==> EntryTest(s, id)
  }

  predicate AllRefs(cfg: Config, s: State)
    requires Shape(cfg, s)
  {
    forall id {:trigger RefsTest(cfg, s, id)} :: id in s.infos ==> RefsTest(cfg, s, id)
  }

  /** Everything that `Check_` tests, without the order of the tests. */
  predicate Passes(cfg: Config, s: State)
    requires Shape(cfg, s)
  {
    && |s.random| == s.nTried + s.nNew
    && AllEntries(s) && |TriedIds(s)| == s.nTried && |NewIds(s)| == s.nNew
    && TriedOk(cfg, s) && NewOk(cfg, s) && AllRefs(cfg, s) && s.key != NULL_KEY
  }

  /** What `Check_` does not look at: address-map keys that lead nowhere, and a missing one for entry 0. */
  predicate AddrsLive(s: State) {
    && (forall ip {:trigger IpOk(s, ip)} :: ip in s.addrs ==> IpOk(s, ip))
    && (0 in s.infos ==> s.infos[0].service.ip in s.addrs)
  }

  // ----- the random vector: as many entries as ids, each at its place -----

  function Places(s: State, ids: set<int>): set<int>
    requires ids <= s.infos.Keys
  {
    set id | id in ids :: s.infos[id].randomPos
  }

  lemma PlaceOf(s: State, ids: set<int>, id: int)
    requires ids <= s.infos.Keys && id in ids
    ensures s.infos[id].randomPos in Places(s, ids)
  {
  }

  lemma {:induction false} PlacesCount(s: State, ids: set<int>)
    requires ids <= s.infos.Keys && forall id {:trigger PositionOk(s, id)} :: id in s.infos ==> PositionOk(s, id)
    ensures |Places(s, ids)| == |ids|
    decreases |ids|
  {
    if ids != {} {
      var x := Member(ids);
      PlacesCount(s, ids - {x});
      assert PositionOk(s, x);
      assert s.infos[x].randomPos !in Places(s, ids - {x}) by {
        forall y | y in ids - {x} ensures s.infos[y].randomPos != s.infos[x].randomPos { assert PositionOk(s, y); }
      }
      assert Places(s, ids) == Places(s, ids - {x}) + {s.infos[x].randomPos};
    }
  }

  lemma Member<T>(t: set<T>) returns (x: T)
    requires t != {}
    ensures x in t
  {
    x :| x in t;
  }

  function Range(n: nat): (r: set<int>)
    ensures |r| == n && forall i :: i in r <==> 0 <= i < n
  {
    if n == 0 then {} else Range(n - 1) + {n - 1}
  }

  lemma FillsRange(t: set<int>, n: nat)
    requires t <= Range(n) && |t| == n
    ensures t == Range(n)
  {
    if i :| i in Range(n) && i !in t {
      SubsetCount(t, Range(n) - {i});
    }
  }

  lemma {:induction false} SubsetCount(small: set<int>, large: set<int>)
    requires small <= large
    ensures |small| <= |large|
    decreases |small|
  {
    if small != {} {
      var x := Member(small);
      SubsetCount(small - {x}, large - {x});
    }
  }

  lemma IdsSplit(s: State)
    ensures |s.infos.Keys| == |TriedIds(s)| + |NewIds(s)|
  {
    assert s.infos.Keys == TriedIds(s) + NewIds(s) && TriedIds(s) !! NewIds(s);
  }

  /** With every entry at its place and as many places as entries, nothing else is in the vector. */
  lemma RandomFull(s: State)
    requires forall id {:trigger PositionOk(s, id)} :: id in s.infos ==> PositionOk(s, id)
    requires |s.random| == |s.infos.Keys|
    ensures RandomOk(s)
  {
    var all := Places(s, s.infos.Keys);
    PlacesCount(s, s.infos.Keys);
    forall x | x in all ensures x in Range(|s.random|) {
      var id :| id in s.infos && s.infos[id].randomPos == x;
      assert PositionOk(s, id);
    }
    FillsRange(all, |s.random|);
    forall i | 0 <= i < |s.random| ensures RandomAtOk(s, i) {
      assert i in all;
      var id :| id in s.infos && s.infos[id].randomPos == i;
      assert PositionOk(s, id);
    }
  }

  lemma RandomSize(s: State)
    requires RandomOk(s)
    ensures |s.random| == |s.infos.Keys|
  {
    var all, range := Places(s, s.infos.Keys), Range(|s.random|);
    PlacesCount(s, s.infos.Keys);
    forall i | i in range ensures i in all {
      assert RandomAtOk(s, i);
      PlaceOf(s, s.infos.Keys, s.random[i]);
    }
    forall x | x in all ensures x in range {
      var id :| id in s.infos && s.infos[id].randomPos == x;
      assert PositionOk(s, id);
    }
    assert all == range;
  }

  // ----- passing is being consistent -----

  lemma PassesEntries(cfg: Config, s: State)
    requires Shape(cfg, s) && IdsOk(s) && AllEntries(s) && NewOk(cfg, s) && AllRefs(cfg, s)
    ensures EntriesOk(cfg, s, {} + {}) && Timed(s)
  {
    forall id | id in s.infos ensures EntryOk(cfg, s, id, {} + {}) && s.infos[id].TimesOk() {
      assert EntryTest(s, id) && RefsTest(cfg, s, id);
      if s.infos[id].inTried {
        forall b: nat | b < cfg.newBuckets ensures b !in Refs(cfg, s.key, s.newTable, s.infos[id].service, id) {
          assert NewSlotOk(cfg, s, b, cfg.BucketPosition(s.key, true, b, s.infos[id].service));
        }
        assert Refs(cfg, s.key, s.newTable, s.infos[id].service, id) == {};
      }
    }
  }

  lemma PassesConsistent(cfg: Config, s: State)
    requires Shape(cfg, s) && IdsOk(s) && Passes(cfg, s) && AddrsLive(s)
    ensures Consistent(cfg, s)
  {
    PassesEntries(cfg, s);
    forall id | id in s.infos ensures PositionOk(s, id) && AddrOk(s, id) { assert EntryTest(s, id); }
    IdsSplit(s);
    RandomFull(s);
    assert NewIds(s) - {} == NewIds(s);
  }

  ghost predicate AddrTests(s: State) {
    forall id {:trigger AddrTest(s, id)} :: id in s.infos ==> AddrTest(s, id)
  }

  /** What is left to test when the tables agree. */
  lemma TabledPasses(cfg: Config, s: State)
    requires Tabled(cfg, s, {}, {})
    ensures Passes(cfg, s) <==> s.key != NULL_KEY && AddrTests(s) && Timed(s)
  {
    if s.key != NULL_KEY && AddrTests(s) && Timed(s) {
      forall id | id in s.infos ensures EntryTest(s, id) && RefsTest(cfg, s, id) {
        assert EntryOk(cfg, s, id, {} + {}) && s.infos[id].TimesOk() && AddrTest(s, id) && PositionOk(s, id);
      }
      RandomSize(s);
      IdsSplit(s);
      assert NewIds(s) - {} == NewIds(s);
    }
    if Passes(cfg, s) {
      forall id | id in s.infos ensures AddrTest(s, id) && s.infos[id].TimesOk() { assert EntryTest(s, id); }
    }
  }

  lemma ConsistentPasses(cfg: Config, s: State)
    requires Consistent(cfg, s) && s.key != NULL_KEY
    ensures Passes(cfg, s) && AddrsLive(s)
  {
    forall id | id in s.infos ensures AddrTest(s, id) && AddrOk(s, id) { assert AddrOk(s, id); }
    TabledPasses(cfg, s);
  }

  /** `Check_` accepts exactly the consistent managers with a key, but for what it does not look at. */
  lemma PassesIff(cfg: Config, s: State)
    requires Shape(cfg, s) && IdsOk(s)
    ensures Passes(cfg, s) && AddrsLive(s) <==> Consistent(cfg, s) && s.key != NULL_KEY
  {
    if Passes(cfg, s) && AddrsLive(s) { PassesConsistent(cfg, s); }
    if Consistent(cfg, s) && s.key != NULL_KEY { ConsistentPasses(cfg, s); }
  }

  /** After every run of admissible operations the self test of a manager with a key finds nothing. */
  lemma RunPasses(cfg: Config, s: State, ops: seq<Ops.Op>)
    requires Consistent(cfg, s) && s.key != NULL_KEY && forall i :: 0 <= i < |ops| ==> Ops.Admissible(ops[i])
    ensures Passes(cfg, Ops.Run(cfg, s, ops))
  {
    ConsistentPasses(cfg, Ops.Run(cfg, s, ops));
  }

  /** A dead address-map key is not seen. */
  lemma DeadKeyUnseen(cfg: Config, ip: NetAddr, id: int)
    requires cfg.Valid()
    ensures var s := Ops.Fresh(cfg, 1).(addrs := map[ip := id]); Shape(cfg, s) && Passes(cfg, s) && !Consistent(cfg, s)
  {
    var s := Ops.Fresh(cfg, 1).(addrs := map[ip := id]);
    Ops.FreshConsistent(cfg, 1);
    ConsistentPasses(cfg, Ops.Fresh(cfg, 1));
    assert !IpOk(s, ip);
  }

  // ----- loaded managers -----

  /** With pruned loose entries, the address tests pass exactly when an entry that stays has a twin only if it is
      entry 0 and its twin was loose: the key is then missing, and is read as zero. */
  lemma TestsIff(st: State, n: nat, r: State)
    requires V.PrunedAll(st, n, r)
    ensures AddrTests(r) <==>
      forall i, j {:trigger V.Twins(st, i, j)} :: V.Twins(st, i, j) && i !in L.LooseIds(st) ==> i == 0 && j in L.LooseIds(st)
  {
    if AddrTests(r) {
      forall i, j | V.Twins(st, i, j) && i !in L.LooseIds(st) ensures i == 0 && j in L.LooseIds(st) { TwinTested(st, n, r, i, j); }
    }
    if forall i, j {:trigger V.Twins(st, i, j)} :: V.Twins(st, i, j) && i !in L.LooseIds(st) ==> i == 0 && j in L.LooseIds(st) {
      forall i | i in r.infos ensures AddrTest(r, i) {
        V.KeptInfo(st, n, r, i);
        if j :| V.Twins(st, i, j) {
          V.KeptAddr(st, n, r, st.infos[i].service.ip);
          assert st.infos[j].service.ip == st.infos[i].service.ip;
        } else {
          V.Alone(st, n, r, i);
        }
      }
    }
  }

  lemma TwinTested(st: State, n: nat, r: State, i: int, j: int)
    requires V.PrunedAll(st, n, r) && AddrTests(r) && V.Twins(st, i, j) && i !in L.LooseIds(st)
    ensures i == 0 && j in L.LooseIds(st)
  {
    var ip := st.infos[i].service.ip;
    V.KeptInfo(st, n, r, i);
    V.KeptInfo(st, n, r, j);
    V.KeptAddr(st, n, r, ip);
    assert AddrTest(r, i);
    assert j in r.infos ==> AddrTest(r, j);
    assert st.infos[j].service.ip == ip;
    if ip in r.addrs {
      V.AddrsLead(st, n, r, ip);
    }
  }

  /** `Check_` overlooks one repeated address: that of entry 0 when no other entry with it survives. */
  ghost predicate SharedUnseen(cfg: Config, img: L.Image)
    requires V.Wide(cfg, img)
  {
    forall j: nat, k: nat {:trigger V.Shares(cfg, img, j, k)} ::
      V.Shares(cfg, img, j, k) && V.Survives(cfg, img, k) ==> k == 0 && !V.Survives(cfg, img, j)
  }

  /** Entry 0 enters first. */
  lemma FirstId(cfg: Config, img: L.Image, l: seq<nat>, i: int)
    requires V.Wide(cfg, img) && l == V.Entered(cfg, img, |img.entries|) && 0 <= i < |l|
    ensures l[i] == 0 <==> i == 0
  {
    V.EnteredIs(cfg, img, |img.entries|);
    assert V.Enters(cfg, img, 0);
    var z := V.EnteredHas(cfg, img, |img.entries|, 0);
    assert l[0] <= l[z];
    assert 0 < i ==> l[0] < l[i];
  }

  lemma UnseenIff(cfg: Config, img: L.Image, l: seq<nat>, st: State, n: nat, r: State)
    requires V.LoadedAs(cfg, img, l, st, n, r)
    ensures (forall i, j {:trigger V.Twins(st, i, j)} :: V.Twins(st, i, j) && i !in L.LooseIds(st) ==> i == 0 && j in L.LooseIds(st))
       <==> SharedUnseen(cfg, img)
  {
    if SharedUnseen(cfg, img) {
      forall i, j | V.Twins(st, i, j) && i !in L.LooseIds(st) ensures i == 0 && j in L.LooseIds(st) {
        V.TwinsShare(cfg, img, l, st, n, r, i, j);
        FirstId(cfg, img, l, i);
      }
    }
    if forall i, j {:trigger V.Twins(st, i, j)} :: V.Twins(st, i, j) && i !in L.LooseIds(st) ==> i == 0 && j in L.LooseIds(st) {
      forall j: nat, k: nat | V.Shares(cfg, img, j, k) && V.Survives(cfg, img, k) ensures k == 0 && !V.Survives(cfg, img, j) {
        var a := V.EnteredHas(cfg, img, |img.entries|, k);
        var b := V.EnteredHas(cfg, img, |img.entries|, j);
        V.TwinsShare(cfg, img, l, st, n, r, a, b);
        FirstId(cfg, img, l, a);
      }
    }
  }

  /** Exactly which images load into a manager that `Check_` accepts. */
  lemma LoadPasses(cfg: Config, img: L.Image)
    requires V.Wide(cfg, img)
    ensures Tabled(cfg, L.Load(cfg, img), {}, {})
    ensures Passes(cfg, L.Load(cfg, img)) <==> img.key != NULL_KEY && V.TimesGood(cfg, img) && SharedUnseen(cfg, img)
  {
    var r := L.Load(cfg, img);
    var l, st, n := V.LoadedFrom(cfg, img);
    TabledPasses(cfg, r);
    V.TimedIff(cfg, img, l, st, n, r);
    TestsIff(st, n, r);
    UnseenIff(cfg, img, l, st, n, r);
  }

  /** The repeated address that is overlooked: the second entry finds its slot taken, and pruning it erases the
      address of the first. */
  lemma ErasedAddressUnseen(key: Key)
    requires key != NULL_KEY
    ensures var img := L.Image(0, key, 2, 0, 1, [V.Entry(5, 0, 1), V.Entry(5, 0, 1)], [[]]);
      V.Wide(V.SMALL, img) && Shape(V.SMALL, L.Load(V.SMALL, img))
      && Passes(V.SMALL, L.Load(V.SMALL, img)) && !Consistent(V.SMALL, L.Load(V.SMALL, img))
  {
    var img := L.Image(0, key, 2, 0, 1, [V.Entry(5, 0, 1), V.Entry(5, 0, 1)], [[]]);
    assert V.TakesOwn(V.SMALL, img, 0) && V.Survives(V.SMALL, img, 0);
    assert V.OwnAt(V.SMALL, img, 0, 0, 0) && !V.TakesOwn(V.SMALL, img, 1);
    assert V.Shares(V.SMALL, img, 1, 0);
    LoadPasses(V.SMALL, img);
    V.LoadConsistent(V.SMALL, img);
  }

  // ----- the scan of the tried table -----

  /** Slot (b, p) comes before slot (n, i). */
  predicate Before(b: nat, p: nat, n: nat, i: nat) { b < n || (b == n && p < i) }

  predicate FoundTried(cfg: Config, s: State, id: int, n: nat, i: nat)
    requires Shape(cfg, s) && id in s.infos
  {
    var b := cfg.TriedBucket(s.key, s.infos[id].service);
    var p := cfg.BucketPosition(s.key, false, b, s.infos[id].service);
    Before(b, p, n, i) && s.triedTable[b][p] == id
  }

  ghost predicate TriedSlotsBefore(cfg: Config, s: State, n: nat, i: nat)
    requires Shape(cfg, s)
  {
    forall b: nat, p: nat {:trigger TriedSlotOk(cfg, s, b, p)} ::
      b < cfg.triedBuckets && p < cfg.bucketSize && Before(b, p, n, i) ==> TriedSlotOk(cfg, s, b, p)
  }

  /** The slots before (n, i) have passed, and `rest` is what they left of the tried ids. */
  ghost predicate TriedScanned(cfg: Config, s: State, n: nat, i: nat, rest: set<int>)
    requires Shape(cfg, s)
  {
    && TriedSlotsBefore(cfg, s, n, i) && rest <= TriedIds(s)
    && forall id {:trigger FoundTried(cfg, s, id, n, i)} :: id in TriedIds(s) ==> (id in rest <==> !FoundTried(cfg, s, id, n, i))
  }

  /** The test that `Check_` makes of an occupied tried slot. */
  predicate TriedSlotTest(cfg: Config, s: State, n: nat, i: nat, rest: set<int>)
    requires Shape(cfg, s) && n < cfg.triedBuckets && i < cfg.bucketSize
  {
    var id := s.triedTable[n][i];
    && id in rest && id in s.infos && cfg.TriedBucket(s.key, s.infos[id].service) == n
    && cfg.BucketPosition(s.key, false, n, s.infos[id].service) == i
  }

  lemma TriedScanStep(cfg: Config, s: State, n: nat, i: nat, i': nat, rest: set<int>, rest': set<int>)
    requires Shape(cfg, s) && IdsOk(s) && n < cfg.triedBuckets && i < cfg.bucketSize && i' == i + 1
    requires TriedScanned(cfg, s, n, i, rest)
    requires s.triedTable[n][i] != EMPTY ==> TriedSlotTest(cfg, s, n, i, rest)
    requires rest' == if s.triedTable[n][i] == EMPTY then rest else rest - {s.triedTable[n][i]}
    ensures TriedScanned(cfg, s, n, i', rest')
  {
    forall b: nat, p: nat | b < cfg.triedBuckets && p < cfg.bucketSize && Before(b, p, n, i') ensures TriedSlotOk(cfg, s, b, p) {
    }
    forall id | id in TriedIds(s) ensures id in rest' <==> !FoundTried(cfg, s, id, n, i') {
      assert id in rest <==> !FoundTried(cfg, s, id, n, i);
    }
  }

  lemma TriedScanFails(cfg: Config, s: State, n: nat, i: nat, rest: set<int>)
    requires Shape(cfg, s) && n < cfg.triedBuckets && i < cfg.bucketSize && TriedScanned(cfg, s, n, i, rest)
    requires s.triedTable[n][i] != EMPTY && !TriedSlotTest(cfg, s, n, i, rest)
    ensures !TriedOk(cfg, s)
  {
    var id := s.triedTable[n][i];
    assert id in TriedIds(s) ==> id in rest || FoundTried(cfg, s, id, n, i);
    assert !TriedSlotOk(cfg, s, n, i);
  }

  lemma TriedScanRow(cfg: Config, s: State, n: nat, n': nat, rest: set<int>)
    requires Shape(cfg, s) && n' == n + 1 && TriedScanned(cfg, s, n, cfg.bucketSize, rest)
    ensures TriedScanned(cfg, s, n', 0, rest)
  {
    forall id | id in TriedIds(s) ensures id in rest <==> !FoundTried(cfg, s, id, n', 0) {
      assert FoundTried(cfg, s, id, n, cfg.bucketSize) == FoundTried(cfg, s, id, n', 0);
    }
  }

  lemma TriedScanEnd(cfg: Config, s: State, rest: set<int>)
    requires Shape(cfg, s) && TriedScanned(cfg, s, cfg.triedBuckets, 0, rest)
    ensures rest == {} <==> TriedOk(cfg, s)
  {
    forall id | id in s.infos ensures TriedEntryOk(cfg, s, id) <==> id !in rest {
      if s.infos[id].inTried {
        assert id in rest <==> !FoundTried(cfg, s, id, cfg.triedBuckets, 0);
      }
    }
    if rest != {} {
      var id := Member(rest);
      assert id in s.infos && !TriedEntryOk(cfg, s, id);
    }
  }

  // ----- the scan of the new table -----

  /** The references to id in slots before (n, i). */
  function Seen(cfg: Config, s: State, id: int, n: nat, i: nat): set<nat>
    requires Shape(cfg, s) && id in s.infos
  {
    set b | b in Refs(cfg, s.key, s.newTable, s.infos[id].service, id)
      && Before(b, cfg.BucketPosition(s.key, true, b, s.infos[id].service), n, i)
  }

  ghost predicate NewSlotsBefore(cfg: Config, s: State, n: nat, i: nat)
    requires Shape(cfg, s)
  {
    forall b: nat, p: nat {:trigger NewSlotOk(cfg, s, b, p)} ::
      b < cfg.newBuckets && p < cfg.bucketSize && Before(b, p, n, i) ==> NewSlotOk(cfg, s, b, p)
  }

  /** What the countdown has left for an entry: its count less the references seen, and gone at zero. */
  ghost predicate LeftOk(cfg: Config, s: State, n: nat, i: nat, left: map<int, int>, id: int)
    requires Shape(cfg, s) && id in s.infos
  {
    var seen := |Seen(cfg, s, id, n, i)|;
    if id in left then left[id] == s.infos[id].refCount - seen && left[id] > 0 else seen == s.infos[id].refCount
  }

  ghost predicate NewScanned(cfg: Config, s: State, n: nat, i: nat, left: map<int, int>)
    requires Shape(cfg, s)
  {
    && NewSlotsBefore(cfg, s, n, i) && left.Keys <= NewIds(s)
    && forall id {:trigger LeftOk(cfg, s, n, i, left, id)} :: id in NewIds(s) ==> LeftOk(cfg, s, n, i, left, id)
  }

  predicate NewSlotTest(cfg: Config, s: State, n: nat, i: nat, left: map<int, int>)
    requires Shape(cfg, s) && n < cfg.newBuckets && i < cfg.bucketSize
  {
    var id := s.newTable[n][i];
    id in left && id in s.infos && cfg.BucketPosition(s.key, true, n, s.infos[id].service) == i
  }

  function CountDown(left: map<int, int>, id: int): map<int, int>
    requires id in left
  {
    if left[id] - 1 == 0 then left - {id} else left[id := left[id] - 1]
  }

  /** One slot further on, only the references to its occupant change. */
  lemma SeenStep(cfg: Config, s: State, id: int, n: nat, i: nat, i': nat)
    requires Shape(cfg, s) && IdsOk(s) && id in s.infos && n < cfg.newBuckets && i < cfg.bucketSize && i' == i + 1
    ensures var hit := s.newTable[n][i] == id && cfg.BucketPosition(s.key, true, n, s.infos[id].service) == i;
      |Seen(cfg, s, id, n, i')| == |Seen(cfg, s, id, n, i)| + if hit then 1 else 0
  {
    var before, after := Seen(cfg, s, id, n, i), Seen(cfg, s, id, n, i');
    if s.newTable[n][i] == id && cfg.BucketPosition(s.key, true, n, s.infos[id].service) == i {
      assert n !in before && after == before + {n};
    } else {
      assert after == before;
    }
  }

  lemma NewScanStep(cfg: Config, s: State, n: nat, i: nat, i': nat, left: map<int, int>, left': map<int, int>)
    requires Shape(cfg, s) && IdsOk(s) && n < cfg.newBuckets && i < cfg.bucketSize && i' == i + 1
    requires NewScanned(cfg, s, n, i, left)
    requires s.newTable[n][i] != EMPTY ==> NewSlotTest(cfg, s, n, i, left)
    requires left' == if s.newTable[n][i] == EMPTY then left else CountDown(left, s.newTable[n][i])
    ensures NewScanned(cfg, s, n, i', left')
  {
    forall b: nat, p: nat | b < cfg.newBuckets && p < cfg.bucketSize && Before(b, p, n, i') ensures NewSlotOk(cfg, s, b, p) {
    }
    forall id | id in NewIds(s) ensures LeftOk(cfg, s, n, i', left', id) {
      assert LeftOk(cfg, s, n, i, left, id);
      SeenStep(cfg, s, id, n, i, i');
    }
  }

  lemma NewScanFails(cfg: Config, s: State, n: nat, i: nat, left: map<int, int>)
    requires Shape(cfg, s) && IdsOk(s) && n < cfg.newBuckets && i < cfg.bucketSize && NewScanned(cfg, s, n, i, left)
    requires s.newTable[n][i] != EMPTY && !NewSlotTest(cfg, s, n, i, left)
    ensures !(NewOk(cfg, s) && AllRefs(cfg, s))
  {
    var id := s.newTable[n][i];
    if NewSlotOk(cfg, s, n, i) {
      assert id in NewIds(s) && LeftOk(cfg, s, n, i, left, id);
      SeenStep(cfg, s, id, n, i, i + 1);
      SubsetSeen(cfg, s, id, n, i + 1);
      assert !RefsTest(cfg, s, id);
    }
  }

  lemma SubsetSeen(cfg: Config, s: State, id: int, n: nat, i: nat)
    requires Shape(cfg, s) && id in s.infos
    ensures |Seen(cfg, s, id, n, i)| <= |Refs(cfg, s.key, s.newTable, s.infos[id].service, id)|
  {
    var seen, refs := Seen(cfg, s, id, n, i), Refs(cfg, s.key, s.newTable, s.infos[id].service, id);
    assert refs == seen + (refs - seen);
  }

  lemma NewScanRow(cfg: Config, s: State, n: nat, n': nat, left: map<int, int>)
    requires Shape(cfg, s) && n' == n + 1 && NewScanned(cfg, s, n, cfg.bucketSize, left)
    ensures NewScanned(cfg, s, n', 0, left)
  {
    forall id | id in NewIds(s) ensures LeftOk(cfg, s, n', 0, left, id) {
      assert LeftOk(cfg, s, n, cfg.bucketSize, left, id);
      assert Seen(cfg, s, id, n, cfg.bucketSize) == Seen(cfg, s, id, n', 0);
    }
  }

  lemma NewScanEnd(cfg: Config, s: State, left: map<int, int>)
    requires Shape(cfg, s) && NewScanned(cfg, s, cfg.newBuckets, 0, left)
    ensures left.Keys == {} <==> NewOk(cfg, s) && AllRefs(cfg, s)
  {
    forall id | id in NewIds(s) ensures RefsTest(cfg, s, id) <==> id !in left {
      assert LeftOk(cfg, s, cfg.newBuckets, 0, left, id);
      assert Seen(cfg, s, id, cfg.newBuckets, 0) == Refs(cfg, s.key, s.newTable, s.infos[id].service, id);
    }
    if left.Keys != {} {
      var id := Member(left.Keys);
      assert !RefsTest(cfg, s, id);
    }
  }

  /** The countdown before the first slot. */
  function RefCounts(s: State): map<int, int> { map id | id in NewIds(s) :: s.infos[id].refCount }

  /** What the pass over the entries has collected from the ids below n. */
  predicate Collected(s: State, n: int, tried: set<int>, left: map<int, int>) {
    && tried == (set id | id in TriedIds(s) && id < n)
    && left == (map id | id in NewIds(s) && id < n :: s.infos[id].refCount)
  }

  lemma CollectedAll(s: State, tried: set<int>, left: map<int, int>)
    requires IdsOk(s) && Collected(s, s.idCount, tried, left)
    ensures tried == TriedIds(s) && left == RefCounts(s) && left.Keys == NewIds(s)
  {
    assert RefCounts(s).Keys == NewIds(s);
  }

  lemma CollectOne(s: State, n: int, n': int, tried: set<int>, left: map<int, int>, tried': set<int>, left': map<int, int>)
    requires Collected(s, n, tried, left) && n' == n + 1
    requires if n !in s.infos then tried' == tried && left' == left
             else if s.infos[n].inTried then tried' == tried + {n} && left' == left
             else tried' == tried && left' == left[n := s.infos[n].refCount]
    ensures Collected(s, n', tried', left')
  {
  }

  lemma ScansStart(cfg: Config, s: State)
    requires Shape(cfg, s) && AllEntries(s)
    ensures TriedScanned(cfg, s, 0, 0, TriedIds(s)) && NewScanned(cfg, s, 0, 0, RefCounts(s))
  {
    forall id | id in NewIds(s) ensures LeftOk(cfg, s, 0, 0, RefCounts(s), id) {
      assert EntryTest(s, id);
      assert Seen(cfg, s, id, 0, 0) == {};
    }
  }
}
