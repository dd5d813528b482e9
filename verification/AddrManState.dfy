/**
 The tables of the peer address manager (src/addrman.h, src/addrman.cpp) as a value, the
 consistency invariant that the code's own `Check_` tests, and one function per primitive
 step together with the lemma that the step keeps the invariant.

 Bucket counts, the bucket size, the keyed hash, the network-group function and the
 routability test are parameters (`Config`); the numeric policy constants are the source's.
 */
module AddrManState {

  type NetAddr = nat
  type Key = nat

  datatype Service = Service(ip: NetAddr, port: nat)

  /** What is fed to the keyed hash, one constructor per call site. */
  datatype Preimage =
    | TriedAddress(key: Key, service: Service)
    | TriedGroup(key: Key, group: nat, slice: nat)
    | NewGroups(key: Key, group: nat, sourceGroup: nat)
    | NewSource(key: Key, sourceGroup: nat, slice: nat)
    | Position(key: Key, isNew: bool, bucket: nat, service: Service)

  const TRIED_BUCKETS_PER_GROUP := 8
  const NEW_BUCKETS_PER_SOURCE_GROUP := 64
  const NEW_BUCKETS_PER_ADDRESS := 8
  const HORIZON_DAYS := 30
  const RETRIES := 3
  const MAX_FAILURES := 10
  const MIN_FAIL_DAYS := 7
  const DAY := 24 * 60 * 60
  const EMPTY := -1

  datatype Config = Config(
    newBuckets: nat, triedBuckets: nat, bucketSize: nat,
    cheapHash: Preimage -> nat, group: NetAddr -> nat, routable: NetAddr -> bool)
  {
    predicate Valid() { newBuckets > 0 && triedBuckets > 0 && bucketSize > 0 }

    function TriedBucket(key: Key, service: Service): nat
      requires Valid()
    {
      var slice := cheapHash(TriedAddress(key, service)) % TRIED_BUCKETS_PER_GROUP;
      cheapHash(TriedGroup(key, group(service.ip), slice)) % triedBuckets
    }

    function NewBucket(key: Key, service: Service, source: NetAddr): nat
      requires Valid()
    {
      var slice := cheapHash(NewGroups(key, group(service.ip), group(source))) % NEW_BUCKETS_PER_SOURCE_GROUP;
      cheapHash(NewSource(key, group(source), slice)) % newBuckets
    }

    function BucketPosition(key: Key, isNew: bool, bucket: nat, service: Service): nat
      requires Valid()
    {
      cheapHash(Position(key, isNew, bucket, service)) % bucketSize
    }
  }

  /** Statistics about one known address. */
  datatype Info = Info(
    service: Service, services: bv64, time: int, source: NetAddr,
    lastSuccess: int, lastTry: int, attempts: int,
    refCount: int, inTried: bool, randomPos: int)
  {
    /** No time is negative, and an entry of the tried table has been reached once. */
    predicate TimesOk() {
      lastTry >= 0 && lastSuccess >= 0 && (inTried ==> lastSuccess != 0)
    }

    predicate IsTerrible(now: int) {
      if lastTry != 0 && lastTry >= now - 60 then false
      else if time > now + 10 * 60 then true
      else if time == 0 || now - time > HORIZON_DAYS * DAY then true
      else if lastSuccess == 0 && attempts >= RETRIES then true
      else now - lastSuccess > MIN_FAIL_DAYS * DAY && attempts >= MAX_FAILURES
    }
  }

  type Table = seq<seq<int>>

  datatype State = State(
    key: Key, idCount: int,
    infos: map<int, Info>, addrs: map<NetAddr, int>, random: seq<int>,
    nTried: int, triedTable: Table, nNew: int, newTable: Table)

  // ----- the invariant -----

  predicate HasShape(t: Table, rows: nat, cols: nat) {
    |t| == rows && forall b :: 0 <= b < |t| ==> |t[b]| == cols
  }

  predicate Shape(cfg: Config, s: State) {
    && cfg.Valid()
    && HasShape(s.newTable, cfg.newBuckets, cfg.bucketSize)
    && HasShape(s.triedTable, cfg.triedBuckets, cfg.bucketSize)
  }

  predicate IdsOk(s: State) {
    s.idCount >= 0 && forall id :: id in s.infos ==> 0 <= id < s.idCount
  }

  predicate AddrOk(s: State, id: int)
    requires id in s.infos
  {
    s.infos[id].service.ip in s.addrs && s.addrs[s.infos[id].service.ip] == id
  }

  predicate IpOk(s: State, ip: NetAddr)
    requires ip in s.addrs
  {
    s.addrs[ip] in s.infos && s.infos[s.addrs[ip]].service.ip == ip
  }

  predicate AddrsOk(s: State) {
    && (forall id {:trigger AddrOk(s, id)} :: id in s.infos ==> AddrOk(s, id))
    && (forall ip {:trigger IpOk(s, ip)} :: ip in s.addrs ==> IpOk(s, ip))
  }

  predicate PositionOk(s: State, id: int)
    requires id in s.infos
  {
    0 <= s.infos[id].randomPos < |s.random| && s.random[s.infos[id].randomPos] == id
  }

  predicate RandomAtOk(s: State, i: int)
    requires 0 <= i < |s.random|
  {
    s.random[i] in s.infos && s.infos[s.random[i]].randomPos == i
  }

  predicate RandomOk(s: State) {
    && (forall id {:trigger PositionOk(s, id)} :: id in s.infos ==> PositionOk(s, id))
    && (forall i {:trigger RandomAtOk(s, i)} :: 0 <= i < |s.random| ==> RandomAtOk(s, i))
  }

  /** The buckets of the new table that hold id, given the address stored under id. */
  function Refs(cfg: Config, key: Key, t: Table, service: Service, id: int): set<nat>
    requires cfg.Valid() && HasShape(t, cfg.newBuckets, cfg.bucketSize)
  {
    set b: nat | b < |t| && t[b][cfg.BucketPosition(key, true, b, service)] == id
  }

  predicate NewSlotOk(cfg: Config, s: State, b: nat, p: nat)
    requires Shape(cfg, s) && b < cfg.newBuckets && p < cfg.bucketSize
  {
    var id := s.newTable[b][p];
    id != EMPTY ==>
      && id in s.infos && !s.infos[id].inTried
      && p == cfg.BucketPosition(s.key, true, b, s.infos[id].service)
  }

  predicate NewOk(cfg: Config, s: State)
    requires Shape(cfg, s)
  {
    forall b: nat, p: nat {:trigger NewSlotOk(cfg, s, b, p)} ::
      b < cfg.newBuckets && p < cfg.bucketSize ==> NewSlotOk(cfg, s, b, p)
  }

  predicate TriedSlotOk(cfg: Config, s: State, b: nat, p: nat)
    requires Shape(cfg, s) && b < cfg.triedBuckets && p < cfg.bucketSize
  {
    var id := s.triedTable[b][p];
    id != EMPTY ==>
      && id in s.infos && s.infos[id].inTried
      && b == cfg.TriedBucket(s.key, s.infos[id].service)
      && p == cfg.BucketPosition(s.key, false, b, s.infos[id].service)
  }

  predicate TriedEntryOk(cfg: Config, s: State, id: int)
    requires Shape(cfg, s) && id in s.infos
  {
    var b := cfg.TriedBucket(s.key, s.infos[id].service);
    s.infos[id].inTried ==> s.triedTable[b][cfg.BucketPosition(s.key, false, b, s.infos[id].service)] == id
  }

  predicate TriedOk(cfg: Config, s: State)
    requires Shape(cfg, s)
  {
    && (forall b: nat, p: nat {:trigger TriedSlotOk(cfg, s, b, p)} ::
          b < cfg.triedBuckets && p < cfg.bucketSize ==> TriedSlotOk(cfg, s, b, p))
    && (forall id {:trigger TriedEntryOk(cfg, s, id)} :: id in s.infos ==> TriedEntryOk(cfg, s, id))
  }

  /** One entry's counters; a loose entry is one that is momentarily in neither table. */
  predicate EntryOk(cfg: Config, s: State, id: int, loose: set<int>)
    requires Shape(cfg, s) && id in s.infos
  {
    var info := s.infos[id];
    && info.refCount == |Refs(cfg, s.key, s.newTable, info.service, id)|
    && (info.inTried ==> info.refCount == 0 && id !in loose)
    && (!info.inTried && id !in loose ==> 1 <= info.refCount <= NEW_BUCKETS_PER_ADDRESS)
    && (id in loose ==> info.refCount == 0)
  }

  predicate EntriesOk(cfg: Config, s: State, loose: set<int>)
    requires Shape(cfg, s)
  {
    forall id {:trigger EntryOk(cfg, s, id, loose)} :: id in s.infos ==> EntryOk(cfg, s, id, loose)
  }

  function TriedIds(s: State): set<int> { set id | id in s.infos && s.infos[id].inTried }

  function NewIds(s: State): set<int> { set id | id in s.infos && !s.infos[id].inTried }

  /** All of the invariant but the address map, in the middle of an operation: the entries in `counted` and
      `uncounted` are in neither table, and `nNew` still counts the former but not the latter. */
  predicate Tabled(cfg: Config, s: State, counted: set<int>, uncounted: set<int>) {
    && Shape(cfg, s) && IdsOk(s) && RandomOk(s)
    && NewOk(cfg, s) && TriedOk(cfg, s) && EntriesOk(cfg, s, counted + uncounted)
    && counted !! uncounted && counted + uncounted <= s.infos.Keys
    && s.nTried == |TriedIds(s)|
    && s.nNew == |NewIds(s) - uncounted|
  }

  predicate Inv(cfg: Config, s: State, counted: set<int>, uncounted: set<int>) {
    Tabled(cfg, s, counted, uncounted) && AddrsOk(s)
  }

  /** The five tables agree with each other, between operations. */
  predicate Structured(cfg: Config, s: State) {
    Inv(cfg, s, {}, {})
  }

  predicate Timed(s: State) {
    forall id {:trigger s.infos[id]} :: id in s.infos ==> s.infos[id].TimesOk()
  }

  /** What `Check_` tests (src/addrman.cpp:376-450), plus that every address-map key is live. */
  predicate Consistent(cfg: Config, s: State) {
    Structured(cfg, s) && Timed(s)
  }

  // ----- primitive steps -----

  function SetSlot(t: Table, b: nat, p: nat, id: int): (r: Table)
    requires b < |t| && p < |t[b]|
  {
    t[b := t[b][p := id]]
  }

  function SwapRandom(s: State, i: nat, j: nat): State
    requires i < |s.random| && j < |s.random| && s.random[i] in s.infos && s.random[j] in s.infos
  {
    if i == j then s else
    var x, y := s.random[i], s.random[j];
    var infos := s.infos[x := s.infos[x].(randomPos := j)];
    s.(infos := infos[y := infos[y].(randomPos := i)], random := s.random[i := y][j := x])
  }

  function Create(s: State, service: Service, services: bv64, time: int, source: NetAddr): State {
    var id := s.idCount;
    var info := Info(service, services, time, source, 0, 0, 0, 0, false, |s.random|);
    s.(idCount := id + 1, infos := s.infos[id := info], addrs := s.addrs[service.ip := id], random := s.random + [id])
  }

  function Delete(s: State, id: int): State
    requires id in s.infos && 0 <= s.infos[id].randomPos < |s.random|
    requires s.random[s.infos[id].randomPos] in s.infos && s.random[|s.random| - 1] in s.infos
  {
    var s1 := SwapRandom(s, s.infos[id].randomPos, |s.random| - 1);
    s1.(random := s1.random[..|s1.random| - 1], addrs := s1.addrs - {s.infos[id].service.ip},
        infos := s1.infos - {id}, nNew := s1.nNew - 1)
  }

  /** Take one reference to the entry in a new-table slot away. */
  function Release(s: State, b: nat, p: nat): State
    requires b < |s.newTable| && p < |s.newTable[b]| && s.newTable[b][p] in s.infos
  {
    var id := s.newTable[b][p];
    s.(infos := s.infos[id := s.infos[id].(refCount := s.infos[id].refCount - 1)],
       newTable := SetSlot(s.newTable, b, p, EMPTY))
  }

  /** Put an entry into a new-table slot and count the reference. */
  function Attach(s: State, id: int, b: nat, p: nat): State
    requires b < |s.newTable| && p < |s.newTable[b]| && id in s.infos
  {
    s.(infos := s.infos[id := s.infos[id].(refCount := s.infos[id].refCount + 1)],
       newTable := SetSlot(s.newTable, b, p, id))
  }

  function ClearNew(s: State, b: nat, p: nat): State
    requires b < |s.newTable| && p < |s.newTable[b]|
    requires s.newTable[b][p] != EMPTY ==> s.newTable[b][p] in s.infos && RandomOk(s)
  {
    var id := s.newTable[b][p];
    if id == EMPTY then s
    else
      var s1 := Release(s, b, p);
      assert PositionOk(s, id) && RandomAtOk(s, s.infos[id].randomPos) && RandomAtOk(s, |s.random| - 1);
      if s1.infos[id].refCount == 0 then Delete(s1, id) else s1
  }

  // ----- each primitive keeps the invariant -----

  lemma RefsAfterSet(cfg: Config, key: Key, t: Table, b: nat, p: nat, x: int, service: Service, id: int)
    requires cfg.Valid() && HasShape(t, cfg.newBuckets, cfg.bucketSize) && b < |t| && p < cfg.bucketSize
    ensures HasShape(SetSlot(t, b, p, x), cfg.newBuckets, cfg.bucketSize)
    ensures var before, after := Refs(cfg, key, t, service, id), Refs(cfg, key, SetSlot(t, b, p, x), service, id);
            if cfg.BucketPosition(key, true, b, service) != p then after == before
            else if x == id then after == before + {b}
            else after == before - {b}
  {
    var t' := SetSlot(t, b, p, x);
    var before, after := Refs(cfg, key, t, service, id), Refs(cfg, key, t', service, id);
    assert forall c: nat | c < |t| && c != b :: c in before <==> c in after;
  }

  ghost predicate SamePayload(a: Info, b: Info) {
    a.(randomPos := 0) == b.(randomPos := 0)
  }

  /** A change that keeps both tables and every entry's place in them keeps the table invariants. */
  lemma TablesFramed(cfg: Config, s: State, s': State, loose: set<int>)
    requires Shape(cfg, s) && NewOk(cfg, s) && TriedOk(cfg, s) && EntriesOk(cfg, s, loose)
    requires s'.newTable == s.newTable && s'.triedTable == s.triedTable && s'.key == s.key
    requires s'.infos.Keys == s.infos.Keys
    requires forall id :: id in s.infos ==>
               && s'.infos[id].service == s.infos[id].service && s'.infos[id].refCount == s.infos[id].refCount
               && s'.infos[id].inTried == s.infos[id].inTried
    ensures Shape(cfg, s') && NewOk(cfg, s') && TriedOk(cfg, s') && EntriesOk(cfg, s', loose)
    ensures TriedIds(s') == TriedIds(s) && NewIds(s') == NewIds(s)
  {
    forall b: nat, p: nat | b < cfg.newBuckets && p < cfg.bucketSize ensures NewSlotOk(cfg, s', b, p) {
      assert NewSlotOk(cfg, s, b, p);
    }
    forall b: nat, p: nat | b < cfg.triedBuckets && p < cfg.bucketSize ensures TriedSlotOk(cfg, s', b, p) {
      assert TriedSlotOk(cfg, s, b, p);
    }
    forall id | id in s'.infos ensures TriedEntryOk(cfg, s', id) && EntryOk(cfg, s', id, loose) {
      assert TriedEntryOk(cfg, s, id) && EntryOk(cfg, s, id, loose);
    }
    assert forall id :: id in s.infos ==> s'.infos[id].inTried == s.infos[id].inTried;
    assert forall id :: id in TriedIds(s') <==> id in TriedIds(s);
    assert forall id :: id in NewIds(s') <==> id in NewIds(s);
  }

  lemma LinksFramed(s: State, s': State)
    requires s'.addrs == s.addrs && s'.infos.Keys == s.infos.Keys
    requires forall id :: id in s.infos ==> s'.infos[id].service == s.infos[id].service
    ensures AddrsOk(s) ==> AddrsOk(s')
  {
    if AddrsOk(s) {
      forall id | id in s'.infos ensures AddrOk(s', id) {
        assert AddrOk(s, id);
      }
      forall ip | ip in s'.addrs ensures IpOk(s', ip) {
        assert IpOk(s, ip);
        var id := s.addrs[ip];
        assert id in s.infos;
        assert s'.infos[id].service == s.infos[id].service;
      }
    }
  }

  lemma SwapRandomOk(s: State, i: nat, j: nat)
    requires RandomOk(s) && i < |s.random| && j < |s.random|
    ensures s.random[i] in s.infos && s.random[j] in s.infos
    ensures RandomOk(SwapRandom(s, i, j))
    ensures SwapRandom(s, i, j).infos.Keys == s.infos.Keys
    ensures forall id :: id in s.infos ==> SamePayload(s.infos[id], SwapRandom(s, i, j).infos[id])
    ensures multiset(SwapRandom(s, i, j).random) == multiset(s.random)
  {
    assert RandomAtOk(s, i) && RandomAtOk(s, j);
    var s' := SwapRandom(s, i, j);
    forall id | id in s'.infos ensures PositionOk(s', id) {
      assert PositionOk(s, id);
    }
    forall k | 0 <= k < |s'.random| ensures RandomAtOk(s', k) {
      assert RandomAtOk(s, k);
    }
  }

  lemma SwapRandomKeeps(cfg: Config, s: State, counted: set<int>, uncounted: set<int>, i: nat, j: nat, r: State)
    requires Tabled(cfg, s, counted, uncounted)
    requires i < |s.random| && j < |s.random| && s.random[i] in s.infos && s.random[j] in s.infos
    requires r == SwapRandom(s, i, j)
    ensures Tabled(cfg, r, counted, uncounted) && r.infos.Keys == s.infos.Keys && r.addrs == s.addrs
    ensures AddrsOk(s) ==> AddrsOk(r)
    ensures forall id :: id in s.infos ==> SamePayload(s.infos[id], r.infos[id])
    ensures multiset(r.random) == multiset(s.random)
  {
    SwapRandomOk(s, i, j);
    StatsFramed(s, r);
    LinksFramed(s, r);
    TablesFramed(cfg, s, r, counted + uncounted);
  }

  lemma StatsFramed(s: State, s': State)
    requires s'.infos.Keys == s.infos.Keys
    requires forall id :: id in s.infos ==> SamePayload(s.infos[id], s'.infos[id])
    ensures forall id :: id in s.infos ==>
              && s'.infos[id].service == s.infos[id].service && s'.infos[id].refCount == s.infos[id].refCount
              && s'.infos[id].inTried == s.infos[id].inTried
  {
    forall id | id in s.infos
      ensures && s'.infos[id].service == s.infos[id].service && s'.infos[id].refCount == s.infos[id].refCount
              && s'.infos[id].inTried == s.infos[id].inTried {
      assert SamePayload(s.infos[id], s'.infos[id]);
      var a, b := s'.infos[id].(randomPos := 0), s.infos[id].(randomPos := 0);
      assert a == b;
    }
  }

  /** The statistics of an entry can change freely as long as its place in the tables does not. */
  lemma TouchKeeps(cfg: Config, s: State, counted: set<int>, uncounted: set<int>, id: int, info: Info)
    requires Tabled(cfg, s, counted, uncounted) && id in s.infos
    requires info.service == s.infos[id].service && info.refCount == s.infos[id].refCount
    requires info.inTried == s.infos[id].inTried && info.randomPos == s.infos[id].randomPos
    ensures Tabled(cfg, s.(infos := s.infos[id := info]), counted, uncounted)
    ensures AddrsOk(s) ==> AddrsOk(s.(infos := s.infos[id := info]))
  {
    Touched(cfg, s, counted, uncounted, id, info, s.(infos := s.infos[id := info]));
  }

  lemma Touched(cfg: Config, s: State, counted: set<int>, uncounted: set<int>, id: int, info: Info, s': State)
    requires Tabled(cfg, s, counted, uncounted) && id in s.infos && s' == s.(infos := s.infos[id := info])
    requires info.service == s.infos[id].service && info.refCount == s.infos[id].refCount
    requires info.inTried == s.infos[id].inTried && info.randomPos == s.infos[id].randomPos
    ensures Tabled(cfg, s', counted, uncounted)
    ensures AddrsOk(s) ==> AddrsOk(s')
  {
    LinksFramed(s, s');
    TablesFramed(cfg, s, s', counted + uncounted);
    forall x | x in s'.infos ensures PositionOk(s', x) { assert PositionOk(s, x); }
    forall k | 0 <= k < |s'.random| ensures RandomAtOk(s', k) { assert RandomAtOk(s, k); }
  }

  lemma RecountTables(cfg: Config, s: State, loose: set<int>, n: int)
    requires Shape(cfg, s) && IdsOk(s) && RandomOk(s)
    requires NewOk(cfg, s) && TriedOk(cfg, s) && EntriesOk(cfg, s, loose)
    ensures AddrsOk(s) ==> AddrsOk(s.(nNew := n))
    ensures var s' := s.(nNew := n);
            && Shape(cfg, s') && IdsOk(s') && RandomOk(s')
            && NewOk(cfg, s') && TriedOk(cfg, s') && EntriesOk(cfg, s', loose)
            && TriedIds(s') == TriedIds(s) && NewIds(s') == NewIds(s)
  {
    var s' := s.(nNew := n);
    LinksFramed(s, s');
    TablesFramed(cfg, s, s', loose);
    forall x | x in s'.infos ensures PositionOk(s', x) { assert PositionOk(s, x); }
    forall k | 0 <= k < |s'.random| ensures RandomAtOk(s', k) { assert RandomAtOk(s, k); }
  }

  lemma CountedMore(ids: set<int>, uncounted: set<int>, id: int)
    requires id in ids && id in uncounted
    ensures |ids - (uncounted - {id})| == |ids - uncounted| + 1
  {
    assert ids - (uncounted - {id}) == (ids - uncounted) + {id};
  }

  lemma CountedLess(ids: set<int>, uncounted: set<int>, id: int)
    requires id in ids && id !in uncounted
    ensures |ids - (uncounted + {id})| == |ids - uncounted| - 1
  {
    assert ids - uncounted == (ids - (uncounted + {id})) + {id};
  }

  lemma CountedAlike(ids: set<int>, uncounted: set<int>, id: int, ids': set<int>, uncounted': set<int>)
    requires (id !in ids && ids' == ids + {id} && uncounted' == uncounted + {id})
          || (id in uncounted && ids' == ids - {id} && uncounted' == uncounted - {id})
    ensures |ids' - uncounted'| == |ids - uncounted|
  {
    assert ids' - uncounted' == ids - uncounted;
  }

  /** A loose entry starts being counted in `nNew`. */
  lemma CountKeeps(cfg: Config, s: State, counted: set<int>, uncounted: set<int>, id: int)
    requires Tabled(cfg, s, counted, uncounted) && id in uncounted
    ensures Tabled(cfg, s.(nNew := s.nNew + 1), counted + {id}, uncounted - {id})
    ensures AddrsOk(s) ==> AddrsOk(s.(nNew := s.nNew + 1))
  {
    Recounted(cfg, s, counted, uncounted, id, counted + {id}, uncounted - {id}, s.(nNew := s.nNew + 1));
  }

  /** A loose entry stops being counted in `nNew`. */
  lemma UncountKeeps(cfg: Config, s: State, counted: set<int>, uncounted: set<int>, id: int)
    requires Tabled(cfg, s, counted, uncounted) && id in counted
    ensures Tabled(cfg, s.(nNew := s.nNew - 1), counted - {id}, uncounted + {id})
    ensures AddrsOk(s) ==> AddrsOk(s.(nNew := s.nNew - 1))
  {
    Recounted(cfg, s, counted, uncounted, id, counted - {id}, uncounted + {id}, s.(nNew := s.nNew - 1));
  }

  ghost predicate Moved(from: set<int>, to: set<int>, id: int, from': set<int>, to': set<int>) {
    id in from && from' == from - {id} && to' == to + {id}
  }

  lemma MovedSets(from: set<int>, to: set<int>, id: int, from': set<int>, to': set<int>)
    requires Moved(from, to, id, from', to') && from !! to
    ensures from' + to' == from + to && to' + from' == to + from && from' !! to'
  {
  }

  lemma Recounted(cfg: Config, s: State, counted: set<int>, uncounted: set<int>, id: int,
                  counted': set<int>, uncounted': set<int>, r: State)
    requires Tabled(cfg, s, counted, uncounted)
    requires (Moved(uncounted, counted, id, uncounted', counted') && r == s.(nNew := s.nNew + 1))
          || (Moved(counted, uncounted, id, counted', uncounted') && r == s.(nNew := s.nNew - 1))
    ensures Tabled(cfg, r, counted', uncounted')
    ensures AddrsOk(s) ==> AddrsOk(r)
  {
    var loose := counted + uncounted;
    RecountTables(cfg, s, loose, r.nNew);
    assert EntryOk(cfg, s, id, loose) && id in NewIds(s);
    if id in uncounted {
      MovedSets(uncounted, counted, id, uncounted', counted');
      CountedMore(NewIds(s), uncounted, id);
    } else {
      MovedSets(counted, uncounted, id, counted', uncounted');
      CountedLess(NewIds(s), uncounted, id);
    }
    assert counted' + uncounted' == loose;
  }

  lemma CreateKeeps(cfg: Config, s: State, counted: set<int>, uncounted: set<int>,
                    service: Service, services: bv64, time: int, source: NetAddr)
    requires Tabled(cfg, s, counted, uncounted)
    ensures Tabled(cfg, Create(s, service, services, time, source), counted, uncounted + {s.idCount})
    ensures AddrsOk(s) && service.ip !in s.addrs ==> AddrsOk(Create(s, service, services, time, source))
  {
    CreatedFrom(cfg, s, counted, uncounted, service, services, time, source, uncounted + {s.idCount},
                Create(s, service, services, time, source));
  }

  lemma CreatedFrom(cfg: Config, s: State, counted: set<int>, uncounted: set<int>,
                    service: Service, services: bv64, time: int, source: NetAddr, uncounted': set<int>, r: State)
    requires Tabled(cfg, s, counted, uncounted) && uncounted' == uncounted + {s.idCount}
    requires r == Create(s, service, services, time, source)
    ensures Tabled(cfg, r, counted, uncounted')
    ensures AddrsOk(s) && service.ip !in s.addrs ==> AddrsOk(r)
  {
    CreateFields(s, service, services, time, source, r);
    CreateLinks(s, service, services, time, source, r);
    var loose := counted + uncounted;
    CreateTables(cfg, s, loose, service, services, time, source, r);
    assert EntriesOk(cfg, r, loose + {s.idCount});
    Created(cfg, s, counted, uncounted, uncounted', r);
  }

  lemma CreateFields(s: State, service: Service, services: bv64, time: int, source: NetAddr, r: State)
    requires r == Create(s, service, services, time, source)
    ensures r.infos.Keys == s.infos.Keys + {s.idCount} && r.nNew == s.nNew && r.nTried == s.nTried
  {
  }

  lemma Created(cfg: Config, s: State, counted: set<int>, uncounted: set<int>, uncounted': set<int>, r: State)
    requires Tabled(cfg, s, counted, uncounted) && r.infos.Keys == s.infos.Keys + {s.idCount}
    requires r.nNew == s.nNew && r.nTried == s.nTried && uncounted' == uncounted + {s.idCount}
    requires Shape(cfg, r) && IdsOk(r) && RandomOk(r) && NewOk(cfg, r) && TriedOk(cfg, r)
    requires EntriesOk(cfg, r, counted + uncounted + {s.idCount})
    requires TriedIds(r) == TriedIds(s) && NewIds(r) == NewIds(s) + {s.idCount}
    ensures Tabled(cfg, r, counted, uncounted')
  {
    assert counted + uncounted' == counted + uncounted + {s.idCount};
    CountedAlike(NewIds(s), uncounted, s.idCount, NewIds(r), uncounted');
  }

  lemma CreateLinks(s: State, service: Service, services: bv64, time: int, source: NetAddr, s': State)
    requires IdsOk(s) && RandomOk(s)
    requires s' == Create(s, service, services, time, source)
    ensures IdsOk(s') && RandomOk(s')
    ensures AddrsOk(s) && service.ip !in s.addrs ==> AddrsOk(s')
  {
    if AddrsOk(s) && service.ip !in s.addrs {
      forall id | id in s'.infos ensures AddrOk(s', id) {
        if id != s.idCount { assert AddrOk(s, id); }
      }
      forall ip | ip in s'.addrs ensures IpOk(s', ip) {
        if ip != service.ip { assert IpOk(s, ip); }
      }
    }
    forall id | id in s'.infos ensures PositionOk(s', id) {
      if id != s.idCount { assert PositionOk(s, id); }
    }
    forall k | 0 <= k < |s'.random| ensures RandomAtOk(s', k) {
      if k < |s.random| { assert RandomAtOk(s, k); }
    }
  }

  lemma CreateTables(cfg: Config, s: State, loose: set<int>, service: Service, services: bv64, time: int, source: NetAddr, s': State)
    requires Shape(cfg, s) && IdsOk(s) && NewOk(cfg, s) && TriedOk(cfg, s) && EntriesOk(cfg, s, loose)
    requires s' == Create(s, service, services, time, source)
    ensures Shape(cfg, s') && NewOk(cfg, s') && TriedOk(cfg, s') && EntriesOk(cfg, s', loose + {s.idCount})
    ensures TriedIds(s') == TriedIds(s) && NewIds(s') == NewIds(s) + {s.idCount}
  {
    var id0 := s.idCount;
    forall b: nat, p: nat | b < cfg.newBuckets && p < cfg.bucketSize
      ensures NewSlotOk(cfg, s', b, p) && s.newTable[b][p] != id0 {
      assert NewSlotOk(cfg, s, b, p);
    }
    forall b: nat, p: nat | b < cfg.triedBuckets && p < cfg.bucketSize ensures TriedSlotOk(cfg, s', b, p) {
      assert TriedSlotOk(cfg, s, b, p);
    }
    forall id | id in s'.infos ensures TriedEntryOk(cfg, s', id) && EntryOk(cfg, s', id, loose + {id0}) {
      if id == id0 {
        assert Refs(cfg, s.key, s.newTable, service, id0) == {};
      } else {
        assert TriedEntryOk(cfg, s, id) && EntryOk(cfg, s, id, loose);
      }
    }
  }

  lemma DeleteKeeps(cfg: Config, s: State, counted: set<int>, uncounted: set<int>, id: int)
    requires Tabled(cfg, s, counted, uncounted) && id in counted
    ensures PositionOk(s, id) && RandomAtOk(s, |s.random| - 1)
    ensures var s' := Delete(s, id);
            && Tabled(cfg, s', counted - {id}, uncounted) && (AddrsOk(s) ==> AddrsOk(s'))
            && s'.infos.Keys == s.infos.Keys - {id}
            && (forall x :: x in s'.infos ==> SamePayload(s.infos[x], s'.infos[x]))
  {
    assert PositionOk(s, id) && RandomAtOk(s, |s.random| - 1) && RandomAtOk(s, s.infos[id].randomPos);
    DeletedFrom(cfg, s, counted, uncounted, id, SwapRandom(s, s.infos[id].randomPos, |s.random| - 1), Delete(s, id));
  }

  /** Deleting moves the entry to the end of the random vector and drops it there. */
  lemma DeletedFrom(cfg: Config, s: State, counted: set<int>, uncounted: set<int>, id: int, s1: State, r: State)
    requires Tabled(cfg, s, counted, uncounted) && id in counted && PositionOk(s, id) && RandomAtOk(s, |s.random| - 1)
    requires s1 == SwapRandom(s, s.infos[id].randomPos, |s.random| - 1)
    requires r == s1.(random := s1.random[..|s1.random| - 1], addrs := s1.addrs - {s.infos[id].service.ip},
                      infos := s1.infos - {id}, nNew := s1.nNew - 1)
    ensures Tabled(cfg, r, counted - {id}, uncounted) && r.infos.Keys == s.infos.Keys - {id}
    ensures AddrsOk(s) ==> AddrsOk(r)
    ensures forall x :: x in r.infos ==> SamePayload(s.infos[x], r.infos[x])
  {
    MovedToEnd(cfg, s, counted, uncounted, id, s.infos[id].randomPos, |s.random| - 1, s1);
    DropLastKeeps(cfg, s1, counted, uncounted, id, r);
  }

  lemma MovedToEnd(cfg: Config, s: State, counted: set<int>, uncounted: set<int>, id: int, i: nat, last: nat, s1: State)
    requires Tabled(cfg, s, counted, uncounted) && id in s.infos && last == |s.random| - 1
    requires i <= last && s.random[i] == id && s.random[last] in s.infos && s1 == SwapRandom(s, i, last)
    ensures Tabled(cfg, s1, counted, uncounted) && s1.infos.Keys == s.infos.Keys
    ensures AddrsOk(s) ==> AddrsOk(s1)
    ensures |s1.random| > 0 && s1.random[|s1.random| - 1] == id && s1.infos[id].service == s.infos[id].service
    ensures forall x :: x in s.infos ==> SamePayload(s.infos[x], s1.infos[x])
  {
    SwapRandomKeeps(cfg, s, counted, uncounted, i, last, s1);
    assert SamePayload(s.infos[id], s1.infos[id]);
  }

  /** Removing an entry that sits at the end of the random vector. */
  function DropLast(s: State, id: int): State
    requires id in s.infos && |s.random| > 0
  {
    s.(random := s.random[..|s.random| - 1], addrs := s.addrs - {s.infos[id].service.ip},
       infos := s.infos - {id}, nNew := s.nNew - 1)
  }

  lemma DropLastKeeps(cfg: Config, s: State, counted: set<int>, uncounted: set<int>, id: int, r: State)
    requires Tabled(cfg, s, counted, uncounted) && id in counted && |s.random| > 0 && s.random[|s.random| - 1] == id
    requires r == DropLast(s, id)
    ensures Tabled(cfg, r, counted - {id}, uncounted)
    ensures AddrsOk(s) ==> AddrsOk(r)
  {
    DropLastLinks(s, id);
    DropLastTables(cfg, s, counted + uncounted, id);
    assert (counted + uncounted) - {id} == (counted - {id}) + uncounted;
    assert EntryOk(cfg, s, id, counted + uncounted);
    CountedDropped(NewIds(s), uncounted, id, NewIds(r));
  }

  lemma CountedDropped(ids: set<int>, uncounted: set<int>, id: int, ids': set<int>)
    requires id in ids && id !in uncounted && ids' == ids - {id}
    ensures |ids' - uncounted| == |ids - uncounted| - 1
  {
    assert ids - uncounted == (ids' - uncounted) + {id};
  }

  lemma DropLastLinks(s: State, id: int)
    requires IdsOk(s) && RandomOk(s) && id in s.infos && |s.random| > 0 && s.random[|s.random| - 1] == id
    ensures var s' := DropLast(s, id); IdsOk(s') && RandomOk(s') && (AddrsOk(s) ==> AddrsOk(s'))
  {
    var s' := DropLast(s, id);
    if AddrsOk(s) {
      assert AddrOk(s, id);
      forall x | x in s'.infos ensures AddrOk(s', x) { assert AddrOk(s, x); }
      forall ip | ip in s'.addrs ensures IpOk(s', ip) { assert IpOk(s, ip); }
    }
    assert PositionOk(s, id) && RandomAtOk(s, |s.random| - 1);
    forall x | x in s'.infos ensures PositionOk(s', x) { assert PositionOk(s, x); }
    forall k | 0 <= k < |s'.random| ensures RandomAtOk(s', k) { assert RandomAtOk(s, k); }
  }

  lemma DropLastTables(cfg: Config, s: State, loose: set<int>, id: int)
    requires Shape(cfg, s) && IdsOk(s) && NewOk(cfg, s) && TriedOk(cfg, s) && EntriesOk(cfg, s, loose)
    requires id in s.infos && id in loose && |s.random| > 0
    ensures var s' := DropLast(s, id);
            && Shape(cfg, s') && NewOk(cfg, s') && TriedOk(cfg, s') && EntriesOk(cfg, s', loose - {id})
            && TriedIds(s') == TriedIds(s) && NewIds(s') == NewIds(s) - {id}
  {
    var s' := DropLast(s, id);
    assert EntryOk(cfg, s, id, loose);
    var refs := Refs(cfg, s.key, s.newTable, s.infos[id].service, id);
    assert refs == {};
    forall b: nat, p: nat | b < cfg.newBuckets && p < cfg.bucketSize ensures NewSlotOk(cfg, s', b, p) {
      assert NewSlotOk(cfg, s, b, p) && b !in refs;
    }
    forall b: nat, p: nat | b < cfg.triedBuckets && p < cfg.bucketSize ensures TriedSlotOk(cfg, s', b, p) {
      assert TriedSlotOk(cfg, s, b, p);
    }
    forall x | x in s'.infos ensures TriedEntryOk(cfg, s', x) && EntryOk(cfg, s', x, loose - {id}) {
      assert TriedEntryOk(cfg, s, x) && EntryOk(cfg, s, x, loose);
    }
  }

  /** Writing one new-table slot from or to id, together with id's reference count. */
  function WriteSlot(s: State, b: nat, p: nat, v: int, id: int, refCount: int): State
    requires b < |s.newTable| && p < |s.newTable[b]| && id in s.infos
  {
    s.(infos := s.infos[id := s.infos[id].(refCount := refCount)], newTable := SetSlot(s.newTable, b, p, v))
  }

  lemma WriteSlotKeeps(cfg: Config, s: State, counted: set<int>, uncounted: set<int>, b: nat, p: nat, v: int, id: int,
                       n: int, counted': set<int>, r: State)
    requires Tabled(cfg, s, counted, uncounted) && b < cfg.newBuckets && p < cfg.bucketSize
    requires id in s.infos && !s.infos[id].inTried && id !in uncounted
    requires p == cfg.BucketPosition(s.key, true, b, s.infos[id].service)
    requires (s.newTable[b][p] == id && v == EMPTY) ||
             (s.newTable[b][p] == EMPTY && v == id && s.infos[id].refCount < NEW_BUCKETS_PER_ADDRESS)
    requires n == s.infos[id].refCount + (if v == id then 1 else -1)
    requires counted' == (if n == 0 then counted + {id} else counted - {id}) && r == WriteSlot(s, b, p, v, id, n)
    ensures n >= 0 && Tabled(cfg, r, counted', uncounted)
    ensures AddrsOk(s) ==> AddrsOk(r)
  {
    RefCountIs(cfg, s, counted + uncounted, id);
    WriteSlotRefs(cfg, s, b, p, v, id);
    WriteSlotLinks(s, b, p, v, id, n);
    LooseAfter(counted, uncounted, id, n == 0);
    WriteSlotTables(cfg, s, b, p, v, id, n);
    WriteSlotEntries(cfg, s, counted + uncounted, counted' + uncounted, b, p, v, id, n);
  }

  lemma RefCountIs(cfg: Config, s: State, loose: set<int>, id: int)
    requires Shape(cfg, s) && IdsOk(s) && EntriesOk(cfg, s, loose) && id in s.infos
    ensures id != EMPTY && s.infos[id].refCount == |Refs(cfg, s.key, s.newTable, s.infos[id].service, id)|
    ensures !s.infos[id].inTried ==> s.infos[id].refCount <= NEW_BUCKETS_PER_ADDRESS
  {
    assert EntryOk(cfg, s, id, loose);
  }

  lemma LooseAfter(counted: set<int>, uncounted: set<int>, id: int, becomes: bool)
    requires id !in uncounted
    ensures (if becomes then counted + {id} else counted - {id}) + uncounted
         == if becomes then (counted + uncounted) + {id} else (counted + uncounted) - {id}
  {
  }

  lemma WriteSlotLinks(s: State, b: nat, p: nat, v: int, id: int, n: int)
    requires RandomOk(s) && b < |s.newTable| && p < |s.newTable[b]| && id in s.infos
    ensures var s' := WriteSlot(s, b, p, v, id, n);
      RandomOk(s') && s'.infos.Keys == s.infos.Keys && (AddrsOk(s) ==> AddrsOk(s'))
  {
    var s' := WriteSlot(s, b, p, v, id, n);
    LinksFramed(s, s');
    forall x | x in s'.infos ensures PositionOk(s', x) { assert PositionOk(s, x); }
    forall k | 0 <= k < |s'.random| ensures RandomAtOk(s', k) { assert RandomAtOk(s, k); }
  }

  lemma WriteSlotRefs(cfg: Config, s: State, b: nat, p: nat, v: int, id: int)
    requires Shape(cfg, s) && b < cfg.newBuckets && p < cfg.bucketSize && id in s.infos && id != EMPTY
    requires p == cfg.BucketPosition(s.key, true, b, s.infos[id].service)
    requires (s.newTable[b][p] == id && v == EMPTY) || (s.newTable[b][p] == EMPTY && v == id)
    ensures HasShape(SetSlot(s.newTable, b, p, v), cfg.newBuckets, cfg.bucketSize)
    ensures |Refs(cfg, s.key, SetSlot(s.newTable, b, p, v), s.infos[id].service, id)|
         == |Refs(cfg, s.key, s.newTable, s.infos[id].service, id)| + (if v == id then 1 else -1)
  {
    RefsAfterSet(cfg, s.key, s.newTable, b, p, v, s.infos[id].service, id);
    var before := Refs(cfg, s.key, s.newTable, s.infos[id].service, id);
    assert b in before <==> v == EMPTY;
  }

  lemma WriteSlotEntries(cfg: Config, s: State, loose: set<int>, loose': set<int>, b: nat, p: nat, v: int, id: int, n: int)
    requires Shape(cfg, s) && IdsOk(s) && EntriesOk(cfg, s, loose) && b < cfg.newBuckets && p < cfg.bucketSize
    requires id in s.infos && !s.infos[id].inTried
    requires (s.newTable[b][p] == id && v == EMPTY) || (s.newTable[b][p] == EMPTY && v == id)
    requires HasShape(SetSlot(s.newTable, b, p, v), cfg.newBuckets, cfg.bucketSize)
    requires n == |Refs(cfg, s.key, SetSlot(s.newTable, b, p, v), s.infos[id].service, id)|
    requires 0 <= n <= NEW_BUCKETS_PER_ADDRESS && loose' == if n == 0 then loose + {id} else loose - {id}
    ensures Shape(cfg, WriteSlot(s, b, p, v, id, n)) && EntriesOk(cfg, WriteSlot(s, b, p, v, id, n), loose')
  {
    var s' := WriteSlot(s, b, p, v, id, n);
    forall x | x in s'.infos ensures EntryOk(cfg, s', x, loose') {
      assert EntryOk(cfg, s, x, loose);
      if x != id {
        OtherRefs(cfg, s, b, p, v, id, x);
      }
    }
  }

  lemma OtherRefs(cfg: Config, s: State, b: nat, p: nat, v: int, id: int, x: int)
    requires Shape(cfg, s) && IdsOk(s) && b < cfg.newBuckets && p < cfg.bucketSize
    requires id in s.infos && x in s.infos && x != id
    requires (s.newTable[b][p] == id && v == EMPTY) || (s.newTable[b][p] == EMPTY && v == id)
    ensures HasShape(SetSlot(s.newTable, b, p, v), cfg.newBuckets, cfg.bucketSize)
    ensures Refs(cfg, s.key, SetSlot(s.newTable, b, p, v), s.infos[x].service, x)
         == Refs(cfg, s.key, s.newTable, s.infos[x].service, x)
  {
    RefsAfterSet(cfg, s.key, s.newTable, b, p, v, s.infos[x].service, x);
  }

  lemma WriteSlotTables(cfg: Config, s: State, b: nat, p: nat, v: int, id: int, n: int)
    requires Shape(cfg, s) && IdsOk(s) && NewOk(cfg, s) && TriedOk(cfg, s)
    requires b < cfg.newBuckets && p < cfg.bucketSize
    requires id in s.infos && !s.infos[id].inTried
    requires p == cfg.BucketPosition(s.key, true, b, s.infos[id].service)
    requires v == id || v == EMPTY
    ensures var s' := WriteSlot(s, b, p, v, id, n);
            && Shape(cfg, s') && IdsOk(s') && NewOk(cfg, s') && TriedOk(cfg, s')
            && TriedIds(s') == TriedIds(s) && NewIds(s') == NewIds(s)
  {
    var s' := WriteSlot(s, b, p, v, id, n);
    forall c: nat, q: nat | c < cfg.newBuckets && q < cfg.bucketSize ensures NewSlotOk(cfg, s', c, q) {
      assert NewSlotOk(cfg, s, c, q);
    }
    forall c: nat, q: nat | c < cfg.triedBuckets && q < cfg.bucketSize ensures TriedSlotOk(cfg, s', c, q) {
      assert TriedSlotOk(cfg, s, c, q);
    }
    forall x | x in s'.infos ensures TriedEntryOk(cfg, s', x) { assert TriedEntryOk(cfg, s, x); }
  }

  lemma ReleaseKeeps(cfg: Config, s: State, counted: set<int>, uncounted: set<int>, b: nat, p: nat)
    requires Tabled(cfg, s, counted, uncounted) && b < cfg.newBuckets && p < cfg.bucketSize
    requires s.newTable[b][p] != EMPTY
    ensures s.newTable[b][p] in s.infos && s.newTable[b][p] !in counted + uncounted
    ensures s.infos[s.newTable[b][p]].refCount >= 1
    ensures var id := s.newTable[b][p];
            Tabled(cfg, Release(s, b, p), if s.infos[id].refCount == 1 then counted + {id} else counted, uncounted)
    ensures AddrsOk(s) ==> AddrsOk(Release(s, b, p))
  {
    var id := s.newTable[b][p];
    OccupantOk(cfg, s, counted + uncounted, b, p);
    var n, r := s.infos[id].refCount - 1, Release(s, b, p);
    if n == 0 {
      WriteSlotKeeps(cfg, s, counted, uncounted, b, p, EMPTY, id, n, counted + {id}, r);
    } else {
      assert counted - {id} == counted;
      WriteSlotKeeps(cfg, s, counted, uncounted, b, p, EMPTY, id, n, counted, r);
    }
  }

  lemma OccupantOk(cfg: Config, s: State, loose: set<int>, b: nat, p: nat)
    requires Shape(cfg, s) && NewOk(cfg, s) && EntriesOk(cfg, s, loose) && b < cfg.newBuckets && p < cfg.bucketSize
    requires s.newTable[b][p] != EMPTY
    ensures var id := s.newTable[b][p];
      && id in s.infos && !s.infos[id].inTried && id !in loose && s.infos[id].refCount >= 1
      && p == cfg.BucketPosition(s.key, true, b, s.infos[id].service)
  {
    var id := s.newTable[b][p];
    assert NewSlotOk(cfg, s, b, p) && EntryOk(cfg, s, id, loose);
    assert b in Refs(cfg, s.key, s.newTable, s.infos[id].service, id);
  }

  lemma AttachKeeps(cfg: Config, s: State, counted: set<int>, uncounted: set<int>, id: int, b: nat, p: nat)
    requires Tabled(cfg, s, counted, uncounted) && b < cfg.newBuckets && p < cfg.bucketSize
    requires id in s.infos && !s.infos[id].inTried && id !in uncounted
    requires s.newTable[b][p] == EMPTY && p == cfg.BucketPosition(s.key, true, b, s.infos[id].service)
    requires s.infos[id].refCount < NEW_BUCKETS_PER_ADDRESS
    ensures Tabled(cfg, Attach(s, id, b, p), counted - {id}, uncounted)
    ensures AddrsOk(s) ==> AddrsOk(Attach(s, id, b, p))
  {
    assert EntryOk(cfg, s, id, counted + uncounted);
    WriteSlotKeeps(cfg, s, counted, uncounted, b, p, id, id, s.infos[id].refCount + 1, counted - {id}, Attach(s, id, b, p));
  }

  lemma ClearNewKeeps(cfg: Config, s: State, counted: set<int>, uncounted: set<int>, b: nat, p: nat)
    requires Tabled(cfg, s, counted, uncounted) && b < cfg.newBuckets && p < cfg.bucketSize
    ensures s.newTable[b][p] != EMPTY ==> s.newTable[b][p] in s.infos && s.newTable[b][p] !in counted + uncounted
    ensures var s' := ClearNew(s, b, p);
            && Tabled(cfg, s', counted, uncounted) && s'.newTable == SetSlot(s.newTable, b, p, EMPTY)
            && (AddrsOk(s) ==> AddrsOk(s'))
            && s'.key == s.key && s'.triedTable == s.triedTable && s'.nTried == s.nTried && s'.idCount == s.idCount
            && s.infos.Keys - {s.newTable[b][p]} <= s'.infos.Keys <= s.infos.Keys
            && (forall id :: id in s'.infos && id != s.newTable[b][p] ==> SamePayload(s.infos[id], s'.infos[id]))
  {
    var id := s.newTable[b][p];
    if id == EMPTY {
      assert s.newTable[b] == s.newTable[b][p := EMPTY];
    } else {
      ReleaseKeeps(cfg, s, counted, uncounted, b, p);
      var s1 := Release(s, b, p);
      if s1.infos[id].refCount == 0 {
        LastReleased(cfg, s1, counted, uncounted, id);
      }
    }
  }

  lemma LastReleased(cfg: Config, s: State, counted: set<int>, uncounted: set<int>, id: int)
    requires id !in counted && Tabled(cfg, s, counted + {id}, uncounted)
    ensures PositionOk(s, id) && RandomAtOk(s, s.infos[id].randomPos) && RandomAtOk(s, |s.random| - 1)
    ensures var r := Delete(s, id);
      && Tabled(cfg, r, counted, uncounted) && r.infos.Keys == s.infos.Keys - {id} && r.newTable == s.newTable
      && (AddrsOk(s) ==> AddrsOk(r))
      && r.key == s.key && r.triedTable == s.triedTable && r.nTried == s.nTried && r.idCount == s.idCount
      && forall x :: x in r.infos ==> SamePayload(s.infos[x], r.infos[x])
  {
    assert PositionOk(s, id) && RandomAtOk(s, s.infos[id].randomPos) && RandomAtOk(s, |s.random| - 1);
    DeleteKeeps(cfg, s, counted + {id}, uncounted, id);
    assert counted + {id} - {id} == counted;
    DeleteFields(s, id, Delete(s, id));
  }

  lemma DeleteFields(s: State, id: int, r: State)
    requires id in s.infos && 0 <= s.infos[id].randomPos < |s.random|
    requires s.random[s.infos[id].randomPos] in s.infos && s.random[|s.random| - 1] in s.infos && r == Delete(s, id)
    ensures r.newTable == s.newTable && r.key == s.key && r.triedTable == s.triedTable && r.nTried == s.nTried && r.idCount == s.idCount
  {
  }

  // ----- moving between the new and the tried table -----

  /** Take the entry in a tried slot out; it is then in neither table. */
  function Evict(s: State, b: nat, p: nat): State
    requires b < |s.triedTable| && p < |s.triedTable[b]| && s.triedTable[b][p] in s.infos
  {
    var id := s.triedTable[b][p];
    s.(infos := s.infos[id := s.infos[id].(inTried := false)],
       triedTable := SetSlot(s.triedTable, b, p, EMPTY), nTried := s.nTried - 1)
  }

  function EnterTried(s: State, id: int, b: nat, p: nat): State
    requires b < |s.triedTable| && p < |s.triedTable[b]| && id in s.infos
  {
    s.(infos := s.infos[id := s.infos[id].(inTried := true)],
       triedTable := SetSlot(s.triedTable, b, p, id), nTried := s.nTried + 1)
  }

  lemma EvictKeeps(cfg: Config, s: State, counted: set<int>, uncounted: set<int>, b: nat, p: nat)
    requires Tabled(cfg, s, counted, uncounted) && b < cfg.triedBuckets && p < cfg.bucketSize
    requires s.triedTable[b][p] != EMPTY
    ensures s.triedTable[b][p] in s.infos && s.triedTable[b][p] !in counted + uncounted
    ensures Tabled(cfg, Evict(s, b, p), counted, uncounted + {s.triedTable[b][p]})
    ensures AddrsOk(s) ==> AddrsOk(Evict(s, b, p))
  {
    var id := s.triedTable[b][p];
    assert TriedSlotOk(cfg, s, b, p) && EntryOk(cfg, s, id, counted + uncounted);
    Evicted(cfg, s, counted, uncounted, id, b, p, uncounted + {id}, Evict(s, b, p));
  }

  lemma Evicted(cfg: Config, s: State, counted: set<int>, uncounted: set<int>, id: int, b: nat, p: nat, uncounted': set<int>, r: State)
    requires Tabled(cfg, s, counted, uncounted) && id in s.infos && s.infos[id].inTried && s.infos[id].refCount == 0
    requires id !in counted + uncounted && uncounted' == uncounted + {id}
    requires b == cfg.TriedBucket(s.key, s.infos[id].service)
    requires p == cfg.BucketPosition(s.key, false, b, s.infos[id].service)
    requires s.triedTable[b][p] == id && r == Evict(s, b, p)
    ensures Tabled(cfg, r, counted, uncounted')
    ensures AddrsOk(s) ==> AddrsOk(r)
  {
    assert counted + uncounted' == counted + uncounted + {id};
    MoveParts(cfg, s, counted, uncounted, uncounted', id, b, p, r);
    Placed(cfg, counted, uncounted', r);
  }

  lemma EnterTriedKeeps(cfg: Config, s: State, counted: set<int>, uncounted: set<int>, id: int)
    requires Tabled(cfg, s, counted, uncounted) && id in uncounted
    requires var b := cfg.TriedBucket(s.key, s.infos[id].service);
             s.triedTable[b][cfg.BucketPosition(s.key, false, b, s.infos[id].service)] == EMPTY
    ensures var b := cfg.TriedBucket(s.key, s.infos[id].service);
            Tabled(cfg, EnterTried(s, id, b, cfg.BucketPosition(s.key, false, b, s.infos[id].service)), counted, uncounted - {id})
    ensures var b := cfg.TriedBucket(s.key, s.infos[id].service);
            AddrsOk(s) ==> AddrsOk(EnterTried(s, id, b, cfg.BucketPosition(s.key, false, b, s.infos[id].service)))
  {
    var b := cfg.TriedBucket(s.key, s.infos[id].service);
    var p := cfg.BucketPosition(s.key, false, b, s.infos[id].service);
    EnteredTried(cfg, s, counted, uncounted, id, b, p, uncounted - {id}, EnterTried(s, id, b, p));
  }

  lemma EnteredTried(cfg: Config, s: State, counted: set<int>, uncounted: set<int>, id: int, b: nat, p: nat, uncounted': set<int>, r: State)
    requires Tabled(cfg, s, counted, uncounted) && id in uncounted && uncounted' == uncounted - {id}
    requires b == cfg.TriedBucket(s.key, s.infos[id].service)
    requires p == cfg.BucketPosition(s.key, false, b, s.infos[id].service)
    requires s.triedTable[b][p] == EMPTY && r == EnterTried(s, id, b, p)
    ensures Tabled(cfg, r, counted, uncounted')
    ensures AddrsOk(s) ==> AddrsOk(r)
  {
    assert EntryOk(cfg, s, id, counted + uncounted);
    assert counted + uncounted' == counted + uncounted - {id};
    MoveParts(cfg, s, counted, uncounted, uncounted', id, b, p, r);
    Placed(cfg, counted, uncounted', r);
  }

  /** The parts of the invariant, with the two counters right. */
  ghost predicate Parts(cfg: Config, counted: set<int>, uncounted: set<int>, r: State) {
    && Shape(cfg, r) && IdsOk(r) && RandomOk(r) && NewOk(cfg, r) && TriedOk(cfg, r)
    && EntriesOk(cfg, r, counted + uncounted)
    && r.nTried == |TriedIds(r)| && r.nNew == |NewIds(r) - uncounted|
  }

  lemma Placed(cfg: Config, counted: set<int>, uncounted: set<int>, r: State)
    requires Parts(cfg, counted, uncounted, r) && counted !! uncounted && counted + uncounted <= r.infos.Keys
    ensures Tabled(cfg, r, counted, uncounted)
  {
  }

  /** Where an entry goes when it leaves or enters a tried slot. */
  ghost predicate Goes(cfg: Config, s: State, r: State, id: int, b: nat, p: nat)
    requires Shape(cfg, s) && id in s.infos
  {
    && Moves(s, r, id) && s.infos[id].refCount == 0
    && b == cfg.TriedBucket(s.key, s.infos[id].service)
    && p == cfg.BucketPosition(s.key, false, b, s.infos[id].service)
    && (if s.infos[id].inTried then r.triedTable == SetSlot(s.triedTable, b, p, EMPTY) && r.nTried == s.nTried - 1
        else s.triedTable[b][p] == EMPTY && r.triedTable == SetSlot(s.triedTable, b, p, id) && r.nTried == s.nTried + 1)
  }

  /** The entries in neither table before and after. */
  ghost predicate Changes(tried: bool, loose: set<int>, id: int, loose': set<int>) {
    if tried then id !in loose && loose' == loose + {id} else id in loose && loose' == loose - {id}
  }

  lemma MoveParts(cfg: Config, s: State, counted: set<int>, uncounted: set<int>, uncounted': set<int>, id: int, b: nat, p: nat, r: State)
    requires Tabled(cfg, s, counted, uncounted) && id in s.infos && Goes(cfg, s, r, id, b, p)
    requires Changes(s.infos[id].inTried, uncounted, id, uncounted')
    requires Changes(s.infos[id].inTried, counted + uncounted, id, counted + uncounted')
    ensures Parts(cfg, counted, uncounted', r) && r.infos.Keys == s.infos.Keys && (AddrsOk(s) ==> AddrsOk(r))
  {
    MoveLinks(s, r, id);
    MoveTables(cfg, s, r, counted + uncounted, counted + uncounted', id, b, p);
    MoveCounts(s, r, uncounted, uncounted', id);
  }

  lemma MoveIds(s: State, r: State, id: int)
    requires id in s.infos && Moves(s, r, id)
    ensures if s.infos[id].inTried then TriedIds(r) == TriedIds(s) - {id} && NewIds(r) == NewIds(s) + {id}
            else TriedIds(r) == TriedIds(s) + {id} && NewIds(r) == NewIds(s) - {id}
  {
  }

  lemma MoveCounts(s: State, r: State, uncounted: set<int>, uncounted': set<int>, id: int)
    requires id in s.infos && Moves(s, r, id) && Changes(s.infos[id].inTried, uncounted, id, uncounted')
    requires s.nTried == |TriedIds(s)| && s.nNew == |NewIds(s) - uncounted|
    requires r.nTried == s.nTried + if s.infos[id].inTried then -1 else 1
    ensures r.nTried == |TriedIds(r)| && r.nNew == |NewIds(r) - uncounted'|
  {
    MoveIds(s, r, id);
    CountedAlike(NewIds(s), uncounted, id, NewIds(r), uncounted');
    if s.infos[id].inTried {
      TriedMore(TriedIds(r), id, TriedIds(s));
    } else {
      TriedMore(TriedIds(s), id, TriedIds(r));
    }
  }

  lemma TriedMore(ids: set<int>, id: int, ids': set<int>)
    requires id !in ids && ids' == ids + {id}
    ensures |ids'| == |ids| + 1
  {
  }

  ghost predicate Moves(s: State, s': State, id: int)
    requires id in s.infos
  {
    s' == s.(infos := s.infos[id := s.infos[id].(inTried := !s.infos[id].inTried)],
             triedTable := s'.triedTable, nTried := s'.nTried)
  }

  lemma MoveLinks(s: State, s': State, id: int)
    requires IdsOk(s) && RandomOk(s) && id in s.infos && Moves(s, s', id)
    ensures IdsOk(s') && RandomOk(s') && (AddrsOk(s) ==> AddrsOk(s'))
  {
    LinksFramed(s, s');
    forall x | x in s'.infos ensures PositionOk(s', x) { assert PositionOk(s, x); }
    forall k | 0 <= k < |s'.random| ensures RandomAtOk(s', k) { assert RandomAtOk(s, k); }
  }

  lemma MoveTables(cfg: Config, s: State, s': State, loose: set<int>, loose': set<int>, id: int, b: nat, p: nat)
    requires Shape(cfg, s) && IdsOk(s) && NewOk(cfg, s) && TriedOk(cfg, s) && EntriesOk(cfg, s, loose)
    requires id in s.infos && Goes(cfg, s, s', id, b, p) && Changes(s.infos[id].inTried, loose, id, loose')
    ensures Shape(cfg, s') && NewOk(cfg, s') && TriedOk(cfg, s') && EntriesOk(cfg, s', loose')
  {
    MoveNew(cfg, s, s', loose, id);
    MoveTried(cfg, s, s', id, b, p);
    forall x | x in s'.infos ensures EntryOk(cfg, s', x, loose') {
      assert EntryOk(cfg, s, x, loose);
    }
  }

  lemma MoveNew(cfg: Config, s: State, s': State, loose: set<int>, id: int)
    requires Shape(cfg, s) && IdsOk(s) && NewOk(cfg, s) && EntriesOk(cfg, s, loose)
    requires id in s.infos && Moves(s, s', id) && s.infos[id].refCount == 0 && Shape(cfg, s')
    ensures NewOk(cfg, s')
  {
    assert EntryOk(cfg, s, id, loose);
    var refs := Refs(cfg, s.key, s.newTable, s.infos[id].service, id);
    assert refs == {};
    forall c: nat, q: nat | c < cfg.newBuckets && q < cfg.bucketSize ensures NewSlotOk(cfg, s', c, q) {
      assert NewSlotOk(cfg, s, c, q) && c !in refs;
    }
  }

  lemma MoveTried(cfg: Config, s: State, s': State, id: int, b: nat, p: nat)
    requires Shape(cfg, s) && IdsOk(s) && TriedOk(cfg, s) && id in s.infos && Goes(cfg, s, s', id, b, p)
    ensures Shape(cfg, s') && TriedOk(cfg, s')
  {
    assert TriedEntryOk(cfg, s, id);
    forall c: nat, q: nat | c < cfg.triedBuckets && q < cfg.bucketSize ensures TriedSlotOk(cfg, s', c, q) {
      assert TriedSlotOk(cfg, s, c, q);
    }
    forall x | x in s'.infos ensures TriedEntryOk(cfg, s', x) {
      assert TriedEntryOk(cfg, s, x);
    }
  }

  // ----- the times of the entries -----

  /** The same times, and not newly in the tried table. */
  predicate SameTimes(a: Info, b: Info) {
    b.lastTry == a.lastTry && b.lastSuccess == a.lastSuccess && (b.inTried ==> a.inTried)
  }

  predicate Untimed(a: Info) { a.lastTry == 0 && a.lastSuccess == 0 && !a.inTried }

  predicate TimesKept(s: State, r: State, id: int)
    requires id in r.infos
  {
    (id in s.infos && SameTimes(s.infos[id], r.infos[id])) || Untimed(r.infos[id])
  }

  /** Every entry of r is one of s with its times, or a new one. */
  ghost predicate TimesFrom(s: State, r: State) {
    forall id {:trigger TimesKept(s, r, id)} :: id in r.infos ==> TimesKept(s, r, id)
  }

  lemma TimesThrough(s: State, m: State, r: State)
    requires TimesFrom(s, m) && TimesFrom(m, r)
    ensures TimesFrom(s, r)
  {
    forall id | id in r.infos ensures TimesKept(s, r, id) {
      assert TimesKept(m, r, id);
      if id in m.infos { assert TimesKept(s, m, id); }
    }
  }

  lemma TimedFrom(s: State, r: State)
    requires Timed(s) && TimesFrom(s, r)
    ensures Timed(r)
  {
    forall id | id in r.infos ensures r.infos[id].TimesOk() {
      assert TimesKept(s, r, id);
      if id in s.infos { assert s.infos[id].TimesOk(); }
    }
  }

  lemma SwapRandomTimes(s: State, i: nat, j: nat, r: State)
    requires i < |s.random| && j < |s.random| && s.random[i] in s.infos && s.random[j] in s.infos
    requires r == SwapRandom(s, i, j)
    ensures TimesFrom(s, r)
  {
  }

  lemma CreateTimes(s: State, service: Service, services: bv64, time: int, source: NetAddr, r: State)
    requires r == Create(s, service, services, time, source)
    ensures TimesFrom(s, r)
  {
  }

  lemma DeleteTimes(s: State, id: int, r: State)
    requires id in s.infos && 0 <= s.infos[id].randomPos < |s.random|
    requires s.random[s.infos[id].randomPos] in s.infos && s.random[|s.random| - 1] in s.infos
    requires r == Delete(s, id)
    ensures TimesFrom(s, r)
  {
    var s1 := SwapRandom(s, s.infos[id].randomPos, |s.random| - 1);
    SwapRandomTimes(s, s.infos[id].randomPos, |s.random| - 1, s1);
    forall x | x in r.infos ensures TimesKept(s, r, x) { assert TimesKept(s, s1, x); }
  }

  /** A change to one entry that leaves its times alone. */
  lemma OneTimes(s: State, id: int, info: Info, r: State)
    requires id in s.infos && SameTimes(s.infos[id], info) && r.infos == s.infos[id := info]
    ensures TimesFrom(s, r)
  {
  }

  lemma ClearNewTimes(s: State, b: nat, p: nat, r: State)
    requires b < |s.newTable| && p < |s.newTable[b]|
    requires s.newTable[b][p] != EMPTY ==> s.newTable[b][p] in s.infos && RandomOk(s)
    requires r == ClearNew(s, b, p)
    ensures TimesFrom(s, r)
  {
    var id := s.newTable[b][p];
    if id != EMPTY {
      var s1 := Release(s, b, p);
      OneTimes(s, id, s1.infos[id], s1);
      assert PositionOk(s, id) && RandomAtOk(s, s.infos[id].randomPos) && RandomAtOk(s, |s.random| - 1);
      if s1.infos[id].refCount == 0 {
        DeleteTimes(s1, id, r);
        TimesThrough(s, s1, r);
      }
    }
  }
}
