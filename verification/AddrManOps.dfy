/**
 The address manager's operations (src/addrman.cpp:151-331, 453-490) as functions on its state,
 and the theorem that every run of them keeps the tables consistent.

 `Good_`'s random starting bucket only changes which bucket is found first, never the new state,
 so it is not a parameter here; the method that searches takes it as one.
 */
module AddrManOps {
  import opened AddrManState

  /** Dropping id from one new-table bucket if it is there, as one turn of the loop in `MakeTried` does. */
  function ReleaseFrom(cfg: Config, s: State, id: int, b: nat): (r: State)
    requires Shape(cfg, s) && id in s.infos && b < cfg.newBuckets
    ensures Shape(cfg, r) && r.infos.Keys == s.infos.Keys
    ensures r.infos[id].(refCount := 0) == s.infos[id].(refCount := 0)
    ensures r == s.(infos := r.infos, newTable := r.newTable)
  {
    var p := cfg.BucketPosition(s.key, true, b, s.infos[id].service);
    if s.newTable[b][p] == id then Release(s, b, p) else s
  }

  /** The loop over the new buckets from b on. */
  function ReleaseOn(cfg: Config, s: State, id: int, b: nat): (r: State)
    requires Shape(cfg, s) && id in s.infos && b <= cfg.newBuckets
    ensures Shape(cfg, r) && r.infos.Keys == s.infos.Keys
    ensures r.infos[id].(refCount := 0) == s.infos[id].(refCount := 0)
    ensures r == s.(infos := r.infos, newTable := r.newTable)
    decreases cfg.newBuckets - b
  {
    if b == cfg.newBuckets then s else ReleaseOn(cfg, ReleaseFrom(cfg, s, id, b), id, b + 1)
  }

  /** A new-table entry is loose once it has lost its last reference. */
  predicate Shrinking(s: State, id: int, loose: set<int>) {
    id in s.infos && !s.infos[id].inTried && loose == if s.infos[id].refCount == 0 then {id} else {}
  }

  lemma ReleaseFromKeeps(cfg: Config, s: State, loose: set<int>, id: int, b: nat, r: State, loose': set<int>)
    requires Inv(cfg, s, loose, {}) && Shrinking(s, id, loose)
    requires b < cfg.newBuckets && r == ReleaseFrom(cfg, s, id, b) && Shrinking(r, id, loose')
    ensures Inv(cfg, r, loose', {})
    ensures Refs(cfg, r.key, r.newTable, s.infos[id].service, id)
         == Refs(cfg, s.key, s.newTable, s.infos[id].service, id) - {b}
  {
    var p := cfg.BucketPosition(s.key, true, b, s.infos[id].service);
    RefCountIs(cfg, s, loose + {}, id);
    if s.newTable[b][p] == id {
      ReleaseKeeps(cfg, s, loose, {}, b, p);
      RefsAfterSet(cfg, s.key, s.newTable, b, p, EMPTY, s.infos[id].service, id);
      assert loose == {} && {} + {id} == {id};
    }
  }

  lemma {:induction false} ReleaseOnKeeps(cfg: Config, s: State, loose: set<int>, id: int, service: Service, b: nat, r: State, loose': set<int>)
    requires Inv(cfg, s, loose, {}) && Shrinking(s, id, loose) && service == s.infos[id].service && b <= cfg.newBuckets
    requires NoneBelow(Refs(cfg, s.key, s.newTable, service, id), b)
    requires r == ReleaseOn(cfg, s, id, b) && Shrinking(r, id, loose')
    ensures Inv(cfg, r, loose', {}) && NoneBelow(Refs(cfg, r.key, r.newTable, service, id), cfg.newBuckets)
    decreases cfg.newBuckets - b
  {
    if b < cfg.newBuckets {
      var m, c := ReleaseFrom(cfg, s, id, b), b + 1;
      var mid: set<int> := if m.infos[id].refCount == 0 then {id} else {};
      SameButCount(s.infos[id], m.infos[id]);
      ReleaseNext(cfg, s, loose, id, service, b, c, m, mid);
      ReleaseOnKeeps(cfg, m, mid, id, service, c, r, loose');
    }
  }

  lemma ReleaseNext(cfg: Config, s: State, loose: set<int>, id: int, service: Service, k: nat, n: nat, r: State, loose': set<int>)
    requires Inv(cfg, s, loose, {}) && Shrinking(s, id, loose) && service == s.infos[id].service && n == k + 1
    requires k < cfg.newBuckets && r == ReleaseFrom(cfg, s, id, k) && Shrinking(r, id, loose')
    requires NoneBelow(Refs(cfg, s.key, s.newTable, service, id), k)
    ensures Inv(cfg, r, loose', {}) && NoneBelow(Refs(cfg, r.key, r.newTable, service, id), n)
  {
    ReleaseFromKeeps(cfg, s, loose, id, k, r, loose');
    NoneAfter(Refs(cfg, s.key, s.newTable, service, id), k, n);
  }

  lemma SameButCount(a: Info, b: Info)
    requires b.(refCount := 0) == a.(refCount := 0)
    ensures b.service == a.service && b.inTried == a.inTried && b.source == a.source
    ensures b.lastSuccess == a.lastSuccess && b.lastTry == a.lastTry
  {
    var x, y := b.(refCount := 0), a.(refCount := 0);
    assert x.service == y.service && x.inTried == y.inTried && x.source == y.source;
    assert x.lastSuccess == y.lastSuccess && x.lastTry == y.lastTry;
  }

  ghost predicate NoneBelow(refs: set<nat>, n: nat) {
    forall b :: b in refs ==> n <= b
  }

  lemma NoneAfter(refs: set<nat>, k: nat, n: nat)
    requires NoneBelow(refs, k) && n == k + 1
    ensures NoneBelow(refs - {k}, n)
  {
  }

  lemma {:induction false} ReleaseOnTimes(cfg: Config, s: State, id: int, b: nat, r: State)
    requires Shape(cfg, s) && id in s.infos && b <= cfg.newBuckets && r == ReleaseOn(cfg, s, id, b)
    ensures TimesFrom(s, r)
    decreases cfg.newBuckets - b
  {
    if b == cfg.newBuckets {
      assert forall x :: x in r.infos ==> TimesKept(s, r, x);
    } else {
      var m := ReleaseFrom(cfg, s, id, b);
      OneTimes(s, id, m.infos[id], m);
      ReleaseOnTimes(cfg, m, id, b + 1, r);
      TimesThrough(s, m, r);
    }
  }

  lemma ReleasedEverywhere(cfg: Config, s: State, id: int, r: State)
    requires Structured(cfg, s) && id in s.infos && !s.infos[id].inTried && r == ReleaseOn(cfg, s, id, 0)
    ensures r.infos[id].refCount == 0 && Inv(cfg, r, {id}, {})
  {
    SameButCount(s.infos[id], r.infos[id]);
    assert EntryOk(cfg, s, id, {} + {});
    var loose: set<int> := if r.infos[id].refCount == 0 then {id} else {};
    ReleaseOnKeeps(cfg, s, {}, id, s.infos[id].service, 0, r, loose);
    RefCountIs(cfg, r, loose + {}, id);
    assert Refs(cfg, r.key, r.newTable, r.infos[id].service, id) == {};
  }

  /** Making room in a tried slot for the loose entry id: the occupant goes back to the new table. */
  function EvictToNew(cfg: Config, s: State, id: int, b: nat, p: nat): State
    requires Inv(cfg, s, {}, {id}) && b < cfg.triedBuckets && p < cfg.bucketSize
  {
    var victim := s.triedTable[b][p];
    if victim == EMPTY then s
    else
      EvictKeeps(cfg, s, {}, {id}, b, p);
      var s1 := Evict(s, b, p);
      var ub := cfg.NewBucket(s.key, s1.infos[victim].service, s1.infos[victim].source);
      var up := cfg.BucketPosition(s.key, true, ub, s1.infos[victim].service);
      ClearNewKeeps(cfg, s1, {}, {id} + {victim}, ub, up);
      var s2 := ClearNew(s1, ub, up);
      WriteSlot(s2.(nNew := s2.nNew + 1), ub, up, victim, victim, 1)
  }

  lemma EvictToNewKeeps(cfg: Config, s: State, id: int, b: nat, p: nat, r: State)
    requires Inv(cfg, s, {}, {id}) && b < cfg.triedBuckets && p < cfg.bucketSize && r == EvictToNew(cfg, s, id, b, p)
    ensures Inv(cfg, r, {}, {id}) && r.triedTable == SetSlot(s.triedTable, b, p, EMPTY) && r.key == s.key
    ensures SamePayload(r.infos[id], s.infos[id]) && TimesFrom(s, r)
  {
    var victim := s.triedTable[b][p];
    if victim == EMPTY {
      assert s.triedTable[b] == s.triedTable[b][p := EMPTY];
      assert forall x :: x in r.infos ==> TimesKept(s, r, x);
    } else {
      EvictKeeps(cfg, s, {}, {id}, b, p);
      var s1, loose := Evict(s, b, p), {id} + {victim};
      OneTimes(s, victim, s1.infos[victim], s1);
      var ub := cfg.NewBucket(s.key, s1.infos[victim].service, s1.infos[victim].source);
      var up := cfg.BucketPosition(s.key, true, ub, s1.infos[victim].service);
      EvictToNewIs(cfg, s, id, b, p, victim, s1, loose, ub, up, r);
      Rehoused(cfg, s1, id, victim, ub, up, loose, r);
      TimesThrough(s, s1, r);
    }
  }

  lemma EvictToNewIs(cfg: Config, s: State, id: int, b: nat, p: nat, victim: int, s1: State, loose: set<int>, ub: nat, up: nat, r: State)
    requires Inv(cfg, s, {}, {id}) && b < cfg.triedBuckets && p < cfg.bucketSize && r == EvictToNew(cfg, s, id, b, p)
    requires victim == s.triedTable[b][p] != EMPTY && victim in s.infos && s1 == Evict(s, b, p)
    requires loose == {id} + {victim} && Inv(cfg, s1, {}, loose)
    requires ub == cfg.NewBucket(s.key, s1.infos[victim].service, s1.infos[victim].source)
    requires up == cfg.BucketPosition(s.key, true, ub, s1.infos[victim].service)
    ensures s1.newTable[ub][up] != EMPTY ==> s1.newTable[ub][up] in s1.infos && RandomOk(s1)
    ensures var s2 := ClearNew(s1, ub, up);
      Shape(cfg, s2) && victim in s2.infos && r == WriteSlot(s2.(nNew := s2.nNew + 1), ub, up, victim, victim, 1)
  {
    ClearNewKeeps(cfg, s1, {}, loose, ub, up);
  }

  /** Clearing the slot that the evicted entry comes from, and giving it that slot again. */
  lemma Rehoused(cfg: Config, s: State, id: int, victim: int, b: nat, p: nat, loose: set<int>, r: State)
    requires loose == {id} + {victim} && Inv(cfg, s, {}, loose) && victim != id && !s.infos[victim].inTried
    requires b < cfg.newBuckets && p == cfg.BucketPosition(s.key, true, b, s.infos[victim].service)
    requires s.newTable[b][p] != EMPTY ==> s.newTable[b][p] in s.infos && RandomOk(s)
    requires var s2 := ClearNew(s, b, p);
      Shape(cfg, s2) && victim in s2.infos && r == WriteSlot(s2.(nNew := s2.nNew + 1), b, p, victim, victim, 1)
    ensures Inv(cfg, r, {}, {id}) && r.triedTable == s.triedTable && r.key == s.key
    ensures SamePayload(r.infos[id], s.infos[id]) && TimesFrom(s, r)
  {
    var s2 := ClearNew(s, b, p);
    ClearNewKeeps(cfg, s, {}, loose, b, p);
    assert victim in s2.infos && id in s2.infos;
    assert SamePayload(s.infos[victim], s2.infos[victim]) && SamePayload(s.infos[id], s2.infos[id]);
    SamePayloadPlace(s.infos[victim], s2.infos[victim]);
    ClearNewTimes(s, b, p, s2);
    OneTimes(s2, victim, s2.infos[victim].(refCount := 1), r);
    TimesThrough(s, s2, r);
    Readmit(cfg, s2, id, victim, b, p, loose, r);
  }

  lemma Readmit(cfg: Config, s: State, id: int, victim: int, b: nat, p: nat, loose: set<int>, r: State)
    requires loose == {id} + {victim} && Inv(cfg, s, {}, loose) && victim != id && b < cfg.newBuckets && p < cfg.bucketSize
    requires !s.infos[victim].inTried && s.newTable[b][p] == EMPTY
    requires p == cfg.BucketPosition(s.key, true, b, s.infos[victim].service)
    requires r == WriteSlot(s.(nNew := s.nNew + 1), b, p, victim, victim, 1)
    ensures Inv(cfg, r, {}, {id})
  {
    CountVictim(cfg, s, id, victim, loose);
    AddFirstReference(cfg, s.(nNew := s.nNew + 1), {victim}, {id}, victim, b, p, {}, r);
  }

  lemma AddFirstReference(cfg: Config, s: State, counted: set<int>, uncounted: set<int>, id: int, b: nat, p: nat, counted': set<int>, r: State)
    requires Inv(cfg, s, counted, uncounted) && id in counted && b < cfg.newBuckets && p < cfg.bucketSize
    requires !s.infos[id].inTried && s.newTable[b][p] == EMPTY && s.infos[id].refCount == 0
    requires p == cfg.BucketPosition(s.key, true, b, s.infos[id].service)
    requires counted' == counted - {id} && r == WriteSlot(s, b, p, id, id, 1)
    ensures Inv(cfg, r, counted', uncounted)
  {
    WriteSlotKeeps(cfg, s, counted, uncounted, b, p, id, id, 1, counted', r);
  }

  lemma CountVictim(cfg: Config, s: State, id: int, victim: int, loose: set<int>)
    requires loose == {id} + {victim} && Inv(cfg, s, {}, loose) && victim != id
    ensures Inv(cfg, s.(nNew := s.nNew + 1), {victim}, {id}) && s.infos[victim].refCount == 0
  {
    TwoLoose(id, victim);
    assert EntryOk(cfg, s, victim, {} + loose);
    CountKeeps(cfg, s, {}, loose, victim);
  }

  lemma TwoLoose(x: int, y: int)
    requires x != y
    ensures {x} + {y} - {y} == {x} && {} + {y} == {y} && {y} - {y} == {}
  {
  }

  /** The state in which `MakeTried` looks for a free tried slot. */
  lemma MakeTriedSteps(cfg: Config, s: State, id: int, s1: State, s2: State)
    requires Structured(cfg, s) && id in s.infos && !s.infos[id].inTried
    requires s1 == ReleaseOn(cfg, s, id, 0) && s2 == s1.(nNew := s1.nNew - 1)
    ensures Inv(cfg, s2, {}, {id}) && s2.key == s.key && s2.infos[id].refCount == 0
    ensures s2.infos[id].service == s.infos[id].service && s2.infos[id].inTried == s.infos[id].inTried
    ensures s2.infos[id].lastSuccess == s.infos[id].lastSuccess && TimesFrom(s, s2)
  {
    SameButCount(s.infos[id], s1.infos[id]);
    ReleasedEverywhere(cfg, s, id, s1);
    Uncounted(cfg, s1, id, s2);
    ReleaseOnTimes(cfg, s, id, 0, s1);
    forall x | x in s2.infos ensures TimesKept(s, s2, x) { assert TimesKept(s, s1, x); }
  }

  lemma Uncounted(cfg: Config, s: State, id: int, r: State)
    requires Inv(cfg, s, {id}, {}) && r == s.(nNew := s.nNew - 1)
    ensures Inv(cfg, r, {}, {id})
  {
    assert {id} - {id} == {} && {} + {id} == {id};
    UncountKeeps(cfg, s, {id}, {}, id);
  }

  function MakeTried(cfg: Config, s: State, id: int): State
    requires Structured(cfg, s) && id in s.infos && !s.infos[id].inTried
  {
    var s1 := ReleaseOn(cfg, s, id, 0);
    var s2 := s1.(nNew := s1.nNew - 1);
    MakeTriedSteps(cfg, s, id, s1, s2);
    var b := cfg.TriedBucket(s.key, s.infos[id].service);
    var p := cfg.BucketPosition(s.key, false, b, s.infos[id].service);
    var s3 := EvictToNew(cfg, s2, id, b, p);
    EvictToNewKeeps(cfg, s2, id, b, p, s3);
    EnterTried(s3, id, b, p)
  }

  /** The state in which the entry finds its tried slot free. */
  lemma MakeTriedRoom(cfg: Config, s: State, id: int, s2: State, b: nat, p: nat, s3: State)
    requires Inv(cfg, s2, {}, {id}) && s2.key == s.key && id in s.infos && s2.infos[id].service == s.infos[id].service
    requires b == cfg.TriedBucket(s.key, s.infos[id].service)
    requires p == cfg.BucketPosition(s.key, false, b, s.infos[id].service) && s3 == EvictToNew(cfg, s2, id, b, p)
    ensures Inv(cfg, s3, {}, {id}) && s3.key == s2.key && s3.triedTable[b][p] == EMPTY && TimesFrom(s2, s3)
    ensures s3.infos[id].service == s2.infos[id].service && s3.infos[id].lastSuccess == s2.infos[id].lastSuccess
  {
    EvictToNewKeeps(cfg, s2, id, b, p, s3);
    SamePayloadFields(s3.infos[id], s2.infos[id]);
  }

  lemma MakeTriedIs(cfg: Config, s: State, id: int, s2: State, b: nat, p: nat, s3: State, r: State)
    requires Structured(cfg, s) && id in s.infos && !s.infos[id].inTried && r == MakeTried(cfg, s, id)
    requires var s1 := ReleaseOn(cfg, s, id, 0); s2 == s1.(nNew := s1.nNew - 1)
    requires Inv(cfg, s2, {}, {id}) && s2.key == s.key && s2.infos[id].service == s.infos[id].service
    requires b == cfg.TriedBucket(s.key, s.infos[id].service)
    requires p == cfg.BucketPosition(s.key, false, b, s.infos[id].service) && s3 == EvictToNew(cfg, s2, id, b, p)
    ensures Shape(cfg, s3) && id in s3.infos && s3.triedTable[b][p] == EMPTY && r == EnterTried(s3, id, b, p)
  {
    MakeTriedRoom(cfg, s, id, s2, b, p, s3);
  }

  /** Moving an entry keeps the tables in step, and the times in order when the entry has been reached. */
  lemma MakeTriedKeeps(cfg: Config, s: State, id: int, r: State)
    requires Structured(cfg, s) && id in s.infos && !s.infos[id].inTried && r == MakeTried(cfg, s, id)
    ensures Structured(cfg, r) && r.key == s.key && id in r.infos && r.infos[id].inTried
    ensures r.infos[id].service == s.infos[id].service && r.infos[id].lastSuccess == s.infos[id].lastSuccess
    ensures Timed(s) && s.infos[id].lastSuccess != 0 ==> Timed(r)
  {
    var s1 := ReleaseOn(cfg, s, id, 0);
    var s2 := s1.(nNew := s1.nNew - 1);
    MakeTriedSteps(cfg, s, id, s1, s2);
    var b := cfg.TriedBucket(s.key, s.infos[id].service);
    var p := cfg.BucketPosition(s.key, false, b, s.infos[id].service);
    var s3 := EvictToNew(cfg, s2, id, b, p);
    MakeTriedRoom(cfg, s, id, s2, b, p, s3);
    EnteredTried(cfg, s3, {}, {id}, id, b, p, {}, r);
    EnteredTimed(s, s2, s3, id, b, p, r);
  }

  lemma EnteredTimed(s: State, s2: State, s3: State, id: int, b: nat, p: nat, r: State)
    requires b < |s3.triedTable| && p < |s3.triedTable[b]| && id in s3.infos && r == EnterTried(s3, id, b, p)
    requires TimesFrom(s, s2) && TimesFrom(s2, s3)
    ensures Timed(s) && s3.infos[id].lastSuccess != 0 ==> Timed(r)
  {
    if Timed(s) && s3.infos[id].lastSuccess != 0 {
      TimedFrom(s, s2);
      TimedFrom(s2, s3);
      forall x | x in r.infos ensures r.infos[x].TimesOk() { assert s3.infos[x].TimesOk(); }
    }
  }

  // ----- the operations -----

  /** The id stored for a service's address, if that address is known under the same port. */
  function FindExact(s: State, service: Service): (r: int)
    requires AddrsOk(s)
    ensures r != EMPTY ==> r in s.infos && s.infos[r].service == service
  {
    if service.ip !in s.addrs then EMPTY
    else
      assert IpOk(s, service.ip);
      var id := s.addrs[service.ip];
      if s.infos[id].service == service then id else EMPTY
  }

  /** The entry of an address that has just been reached. */
  function Reached(info: Info, time: int): Info {
    info.(lastSuccess := time, lastTry := time, time := time, attempts := 0)
  }

  function Good(cfg: Config, s: State, service: Service, time: int): State
    requires Structured(cfg, s)
  {
    var id := FindExact(s, service);
    if id == EMPTY then s
    else
      var info := Reached(s.infos[id], time);
      TouchKeeps(cfg, s, {}, {}, id, info);
      var s1 := s.(infos := s.infos[id := info]);
      if info.inTried then s1
      else if Refs(cfg, s.key, s.newTable, service, id) == {} then s1
      else MakeTried(cfg, s1, id)
  }

  function Attempt(s: State, service: Service, time: int): State
    requires AddrsOk(s)
  {
    var id := FindExact(s, service);
    if id == EMPTY then s
    else s.(infos := s.infos[id := s.infos[id].(lastTry := time, attempts := s.infos[id].attempts + 1)])
  }

  function Connected(s: State, service: Service, time: int): State
    requires AddrsOk(s)
  {
    var id := FindExact(s, service);
    if id == EMPTY || time - s.infos[id].time <= 20 * 60 then s
    else s.(infos := s.infos[id := s.infos[id].(time := time)])
  }

  /** An entry outside the tried table always sits in some new bucket, so the bail-out is never taken. */
  lemma AlwaysInBucket(cfg: Config, s: State, id: int)
    requires Structured(cfg, s) && id in s.infos && !s.infos[id].inTried
    ensures Refs(cfg, s.key, s.newTable, s.infos[id].service, id) != {}
  {
    assert EntryOk(cfg, s, id, {} + {});
  }

  lemma ReachedTimed(s: State, id: int, time: int, r: State)
    requires id in s.infos && r == s.(infos := s.infos[id := Reached(s.infos[id], time)])
    ensures Timed(s) && time > 0 ==> Timed(r)
  {
    if Timed(s) && time > 0 {
      forall x | x in r.infos ensures r.infos[x].TimesOk() { assert s.infos[x].TimesOk(); }
    }
  }

  /** Marking a known address good puts it into the tried table with the time given, whatever the time. */
  lemma GoodEnters(cfg: Config, s: State, service: Service, time: int, r: State)
    requires Structured(cfg, s) && FindExact(s, service) != EMPTY && r == Good(cfg, s, service, time)
    ensures var id := FindExact(s, service);
      && Structured(cfg, r) && r.key == s.key && id in r.infos && r.infos[id].inTried && r.infos[id].lastSuccess == time
      && (!s.infos[id].inTried ==> Refs(cfg, s.key, s.newTable, service, id) != {})
      && (Timed(s) && time > 0 ==> Timed(r))
  {
    var id := FindExact(s, service);
    var info := Reached(s.infos[id], time);
    var s1 := s.(infos := s.infos[id := info]);
    TouchKeeps(cfg, s, {}, {}, id, info);
    ReachedTimed(s, id, time, s1);
    if !info.inTried {
      AlwaysInBucket(cfg, s, id);
      MakeTriedKeeps(cfg, s1, id, r);
    }
  }

  /** The tables always stay in step; they stay consistent exactly when the address is unknown or the time
      is positive: a zero or negative time on a known address breaks what `Check_` tests. */
  lemma GoodKeeps(cfg: Config, s: State, service: Service, time: int, r: State)
    requires Consistent(cfg, s) && r == Good(cfg, s, service, time)
    ensures Structured(cfg, r) && r.key == s.key
    ensures Consistent(cfg, r) <==> FindExact(s, service) == EMPTY || time > 0
    ensures var id := FindExact(s, service);
            && (id != EMPTY ==> id in r.infos && r.infos[id].inTried && r.infos[id].lastSuccess == time)
            && (id != EMPTY && !s.infos[id].inTried ==> Refs(cfg, s.key, s.newTable, service, id) != {})
  {
    var id := FindExact(s, service);
    if id != EMPTY {
      GoodEnters(cfg, s, service, time, r);
      assert time <= 0 ==> !r.infos[id].TimesOk();
    }
  }

  /** Marking an attempt keeps the tables consistent exactly when the time is not negative. */
  lemma AttemptKeeps(cfg: Config, s: State, service: Service, time: int, r: State)
    requires Consistent(cfg, s) && r == Attempt(s, service, time)
    ensures Structured(cfg, r)
    ensures Consistent(cfg, r) <==> FindExact(s, service) == EMPTY || time >= 0
  {
    var id := FindExact(s, service);
    if id != EMPTY {
      var info := s.infos[id].(lastTry := time, attempts := s.infos[id].attempts + 1);
      TouchKeeps(cfg, s, {}, {}, id, info);
      assert r.infos[id] == info && s.infos[id].TimesOk();
      if time >= 0 {
        forall x | x in r.infos ensures r.infos[x].TimesOk() { assert s.infos[x].TimesOk(); }
      } else {
        assert !r.infos[id].TimesOk();
      }
    }
  }

  lemma ConnectedKeeps(cfg: Config, s: State, service: Service, time: int, r: State)
    requires Consistent(cfg, s) && r == Connected(s, service, time)
    ensures Consistent(cfg, r)
  {
    var id := FindExact(s, service);
    if r != s {
      TouchKeeps(cfg, s, {}, {}, id, s.infos[id].(time := time));
      OneTimes(s, id, r.infos[id], r);
      TimedFrom(s, r);
    }
  }

  // ----- Add_ -----

  function Max0(x: int): int { if x < 0 then 0 else x }

  /** An address as announced by a peer. */
  datatype Announced = Announced(service: Service, services: bv64, time: nat)

  /** The refresh of a known entry's last-seen time and services. */
  function Refreshed(info: Info, a: Announced, penalty: int, now: int): Info {
    var interval := if now - a.time < DAY then 60 * 60 else DAY;
    var time := if a.time != 0 && (info.time == 0 || info.time < a.time - interval - penalty)
                then Max0(a.time - penalty) else info.time;
    info.(time := time, services := info.services | a.services)
  }

  /** Whether an announcement of a known address may earn it one more bucket. */
  predicate Eligible(info: Info, a: Announced, rnd: nat)
    requires info.refCount >= 0
  {
    && a.time != 0 && (info.time == 0 || a.time > info.time)
    && !info.inTried && info.refCount != NEW_BUCKETS_PER_ADDRESS
    && rnd % Pow2Pos(info.refCount) == 0
  }

  function Pow2Pos(n: nat): (r: nat)
    ensures r > 0
  {
    if n == 0 then 1 else 2 * Pow2Pos(n - 1)
  }

  /** Whether the occupant of a slot gives way to entry id. */
  predicate GivesWay(s: State, there: int, id: int, now: int)
    requires id in s.infos && (there == EMPTY || there in s.infos)
  {
    there == EMPTY || s.infos[there].IsTerrible(now) || (s.infos[there].refCount > 1 && s.infos[id].refCount == 0)
  }

  /** Placing an entry (a fresh one has no reference yet and is in `counted`) into the bucket its source selects. */
  function Insert(cfg: Config, s: State, ghost counted: set<int>, id: int, source: NetAddr, now: int): State
    requires id in s.infos && Inv(cfg, s, counted, {})
  {
    var b := cfg.NewBucket(s.key, s.infos[id].service, source);
    var p := cfg.BucketPosition(s.key, true, b, s.infos[id].service);
    var there := s.newTable[b][p];
    if there == id then s
    else
      ClearNewKeeps(cfg, s, counted, {}, b, p);
      if GivesWay(s, there, id, now) then Attach(ClearNew(s, b, p), id, b, p)
      else if s.infos[id].refCount == 0 then
        assert PositionOk(s, id) && RandomAtOk(s, |s.random| - 1);
        Delete(s, id)
      else s
  }

  /** Overwriting a slot with an entry. */
  lemma ReplaceKeeps(cfg: Config, s: State, counted: set<int>, id: int, b: nat, p: nat, r: State)
    requires Inv(cfg, s, counted, {}) && counted <= {id} && id in s.infos && !s.infos[id].inTried
    requires s.infos[id].refCount < NEW_BUCKETS_PER_ADDRESS && b < cfg.newBuckets
    requires p == cfg.BucketPosition(s.key, true, b, s.infos[id].service) && s.newTable[b][p] != id
    requires s.newTable[b][p] == EMPTY || s.newTable[b][p] in s.infos
    requires var s1 := ClearNew(s, b, p); Shape(cfg, s1) && id in s1.infos && r == Attach(s1, id, b, p)
    ensures Structured(cfg, r) && TimesFrom(s, r) && r.key == s.key
  {
    var s1 := ClearNew(s, b, p);
    ClearNewKeeps(cfg, s, counted, {}, b, p);
    ClearNewTimes(s, b, p, s1);
    assert SamePayload(s.infos[id], s1.infos[id]);
    SamePayloadPlace(s.infos[id], s1.infos[id]);
    AttachKeeps(cfg, s1, counted, {}, id, b, p);
    assert counted - {id} == {};
    OneTimes(s1, id, r.infos[id], r);
    TimesThrough(s, s1, r);
  }

  lemma SamePayloadPlace(a: Info, b: Info)
    requires SamePayload(a, b)
    ensures a.service == b.service && a.refCount == b.refCount && a.inTried == b.inTried
  {
    var a', b' := a.(randomPos := 0), b.(randomPos := 0);
    assert a'.service == b'.service && a'.refCount == b'.refCount && a'.inTried == b'.inTried;
  }

  /** The reads that `Delete` makes are in range. */
  predicate Deletable(s: State, id: int) {
    && id in s.infos && 0 <= s.infos[id].randomPos < |s.random|
    && s.random[s.infos[id].randomPos] in s.infos && s.random[|s.random| - 1] in s.infos
  }

  /** Dropping an entry that found no slot. */
  lemma DiscardKeeps(cfg: Config, s: State, counted: set<int>, id: int, r: State)
    requires Inv(cfg, s, counted, {}) && counted <= {id} && id in s.infos && !s.infos[id].inTried && s.infos[id].refCount == 0
    requires Deletable(s, id) && r == Delete(s, id)
    ensures Structured(cfg, r) && TimesFrom(s, r) && r.key == s.key
  {
    assert EntryOk(cfg, s, id, counted + {});
    DeleteKeeps(cfg, s, counted, {}, id);
    assert counted - {id} == {};
    DeleteTimes(s, id, r);
  }

  /** What `Insert` comes down to for the slot it looks at. */
  lemma InsertAt(cfg: Config, s: State, counted: set<int>, id: int, source: NetAddr, now: int, b: nat, p: nat, r: State)
    requires id in s.infos && Inv(cfg, s, counted, {}) && r == Insert(cfg, s, counted, id, source, now)
    requires b == cfg.NewBucket(s.key, s.infos[id].service, source)
    requires p == cfg.BucketPosition(s.key, true, b, s.infos[id].service)
    ensures s.newTable[b][p] == EMPTY || s.newTable[b][p] in s.infos
    ensures if s.newTable[b][p] == id then r == s
      else if GivesWay(s, s.newTable[b][p], id, now) then
        var s1 := ClearNew(s, b, p); Shape(cfg, s1) && id in s1.infos && r == Attach(s1, id, b, p)
      else if s.infos[id].refCount == 0 then Deletable(s, id) && r == Delete(s, id) else r == s
  {
    ClearNewKeeps(cfg, s, counted, {}, b, p);
    assert PositionOk(s, id) && RandomAtOk(s, s.infos[id].randomPos) && RandomAtOk(s, |s.random| - 1);
  }

  lemma InsertKeeps(cfg: Config, s: State, counted: set<int>, id: int, source: NetAddr, now: int, r: State)
    requires id in s.infos && !s.infos[id].inTried && s.infos[id].refCount < NEW_BUCKETS_PER_ADDRESS
    requires counted <= {id} && Inv(cfg, s, counted, {}) && r == Insert(cfg, s, counted, id, source, now)
    ensures Structured(cfg, r) && TimesFrom(s, r) && r.key == s.key
  {
    var b := cfg.NewBucket(s.key, s.infos[id].service, source);
    var p := cfg.BucketPosition(s.key, true, b, s.infos[id].service);
    InsertAt(cfg, s, counted, id, source, now, b, p, r);
    if r == s {
      assert forall x :: x in r.infos ==> TimesKept(s, r, x);
      InPlace(cfg, s, counted, id, b);
    } else if GivesWay(s, s.newTable[b][p], id, now) {
      ReplaceKeeps(cfg, s, counted, id, b, p, r);
    } else {
      DiscardKeeps(cfg, s, counted, id, r);
    }
  }

  /** An entry with a reference is not a fresh one. */
  lemma InPlace(cfg: Config, s: State, counted: set<int>, id: int, b: nat)
    requires id in s.infos && counted <= {id} && Inv(cfg, s, counted, {}) && b < cfg.newBuckets
    requires s.infos[id].refCount != 0 || s.newTable[b][cfg.BucketPosition(s.key, true, b, s.infos[id].service)] == id
    ensures counted == {}
  {
    var refs := Refs(cfg, s.key, s.newTable, s.infos[id].service, id);
    assert EntryOk(cfg, s, id, counted + {});
    assert b in refs || s.infos[id].refCount != 0;
  }

  /** `Add_` on an address that is already known. */
  function AddKnown(cfg: Config, s: State, a: Announced, source: NetAddr, penalty: int, now: int, rnd: nat): State
    requires Structured(cfg, s) && a.service.ip in s.addrs
  {
    assert IpOk(s, a.service.ip);
    var id := s.addrs[a.service.ip];
    assert EntryOk(cfg, s, id, {} + {});
    var info := Refreshed(s.infos[id], a, penalty, now);
    TouchKeeps(cfg, s, {}, {}, id, info);
    var s1 := s.(infos := s.infos[id := info]);
    if Eligible(info, a, rnd) then Insert(cfg, s1, {}, id, source, now) else s1
  }

  /** A created entry that `nNew` counts already. */
  function Counted(s: State, service: Service, services: bv64, time: int, source: NetAddr): State {
    var s1 := Create(s, service, services, time, source);
    s1.(nNew := s1.nNew + 1)
  }

  /** `Add_` on an address that is not known yet. */
  function AddFresh(cfg: Config, s: State, a: Announced, source: NetAddr, penalty: int, now: int): State
    requires Structured(cfg, s) && a.service.ip !in s.addrs
  {
    var s1 := Counted(s, a.service, a.services, Max0(a.time - penalty), source);
    CreateCounted(cfg, s, a.service, a.services, Max0(a.time - penalty), source, s1);
    Insert(cfg, s1, {s.idCount}, s.idCount, source, now)
  }

  function Add(cfg: Config, s: State, a: Announced, source: NetAddr, penalty: int, now: int, rnd: nat): (State, bool)
    requires Structured(cfg, s)
  {
    if !cfg.routable(a.service.ip) then (s, false)
    else if a.service.ip in s.addrs then (AddKnown(cfg, s, a, source, penalty, now, rnd), false)
    else (AddFresh(cfg, s, a, source, penalty, now), true)
  }

  /** A fresh entry is the only one in neither table. */
  lemma CreateCounted(cfg: Config, s: State, service: Service, services: bv64, time: int, source: NetAddr, r: State)
    requires Structured(cfg, s) && service.ip !in s.addrs && r == Counted(s, service, services, time, source)
    ensures Inv(cfg, r, {s.idCount}, {}) && TimesFrom(s, r) && r.key == s.key
  {
    var id, s1 := s.idCount, Create(s, service, services, time, source);
    CreateKeeps(cfg, s, {}, {}, service, services, time, source);
    assert {} + {id} == {id} && {id} - {id} == {};
    CountKeeps(cfg, s1, {}, {id}, id);
    CreateTimes(s, service, services, time, source, s1);
    assert forall x :: x in r.infos ==> TimesKept(s1, r, x);
    TimesThrough(s, s1, r);
  }

  lemma AddKnownKeeps(cfg: Config, s: State, a: Announced, source: NetAddr, penalty: int, now: int, rnd: nat, r: State)
    requires Structured(cfg, s) && a.service.ip in s.addrs && r == AddKnown(cfg, s, a, source, penalty, now, rnd)
    ensures Structured(cfg, r) && TimesFrom(s, r) && r.key == s.key
  {
    assert IpOk(s, a.service.ip);
    var id := s.addrs[a.service.ip];
    assert EntryOk(cfg, s, id, {} + {});
    var info := Refreshed(s.infos[id], a, penalty, now);
    var s1 := s.(infos := s.infos[id := info]);
    TouchKeeps(cfg, s, {}, {}, id, info);
    OneTimes(s, id, info, s1);
    if Eligible(info, a, rnd) {
      InsertKeeps(cfg, s1, {}, id, source, now, r);
      TimesThrough(s, s1, r);
    }
  }

  /** The created entry and the state that it is inserted into. */
  lemma AddFreshSteps(cfg: Config, s: State, a: Announced, source: NetAddr, penalty: int, now: int, id: int, s1: State, r: State)
    requires Structured(cfg, s) && a.service.ip !in s.addrs && r == AddFresh(cfg, s, a, source, penalty, now)
    requires id == s.idCount && s1 == Counted(s, a.service, a.services, Max0(a.time - penalty), source)
    ensures Inv(cfg, s1, {id}, {}) && TimesFrom(s, s1) && s1.key == s.key
    ensures id in s1.infos && !s1.infos[id].inTried && s1.infos[id].refCount == 0
    ensures r == Insert(cfg, s1, {id}, id, source, now)
  {
    CreateCounted(cfg, s, a.service, a.services, Max0(a.time - penalty), source, s1);
    CountedInfo(s, a.service, a.services, Max0(a.time - penalty), source, id, s1);
  }

  lemma CountedInfo(s: State, service: Service, services: bv64, time: int, source: NetAddr, id: int, r: State)
    requires id == s.idCount && r == Counted(s, service, services, time, source)
    ensures id in r.infos && !r.infos[id].inTried && r.infos[id].refCount == 0
  {
  }

  lemma AddFreshKeeps(cfg: Config, s: State, a: Announced, source: NetAddr, penalty: int, now: int, r: State)
    requires Structured(cfg, s) && a.service.ip !in s.addrs && r == AddFresh(cfg, s, a, source, penalty, now)
    ensures Structured(cfg, r) && TimesFrom(s, r) && r.key == s.key
  {
    var id, s1 := s.idCount, Counted(s, a.service, a.services, Max0(a.time - penalty), source);
    AddFreshSteps(cfg, s, a, source, penalty, now, id, s1, r);
    InsertKeeps(cfg, s1, {id}, id, source, now, r);
    TimesThrough(s, s1, r);
  }

  /** `Add_` keeps the tables consistent, and reports a new address exactly for a routable unknown one. */
  lemma AddKeeps(cfg: Config, s: State, a: Announced, source: NetAddr, penalty: int, now: int, rnd: nat, r: (State, bool))
    requires Consistent(cfg, s) && r == Add(cfg, s, a, source, penalty, now, rnd)
    ensures Consistent(cfg, r.0) && r.0.key == s.key
    ensures r.1 <==> cfg.routable(a.service.ip) && a.service.ip !in s.addrs
  {
    if !cfg.routable(a.service.ip) {
    } else if a.service.ip in s.addrs {
      AddKnownKeeps(cfg, s, a, source, penalty, now, rnd, r.0);
      TimedFrom(s, r.0);
    } else {
      AddFreshKeeps(cfg, s, a, source, penalty, now, r.0);
      TimedFrom(s, r.0);
    }
  }

  /** Whether an unknown address finds a place: its slot is empty, or its occupant may be overwritten. */
  predicate FindsPlace(cfg: Config, s: State, service: Service, source: NetAddr, now: int)
    requires Structured(cfg, s)
  {
    var b := cfg.NewBucket(s.key, service, source);
    var there := s.newTable[b][cfg.BucketPosition(s.key, true, b, service)];
    assert NewSlotOk(cfg, s, b, cfg.BucketPosition(s.key, true, b, service));
    there == EMPTY || s.infos[there].IsTerrible(now) || s.infos[there].refCount > 1
  }

  /** `Add_` returns true for every routable unknown address, but the address is known afterwards exactly
      when it finds a place. It then sits in the slot its source selects; otherwise nothing but the id
      counter has changed. */
  lemma AddedIff(cfg: Config, s: State, a: Announced, source: NetAddr, penalty: int, now: int, rnd: nat, r: (State, bool))
    requires Consistent(cfg, s) && cfg.routable(a.service.ip) && a.service.ip !in s.addrs
    requires r == Add(cfg, s, a, source, penalty, now, rnd)
    ensures r.1
    ensures a.service.ip in r.0.addrs <==> FindsPlace(cfg, s, a.service, source, now)
    ensures FindsPlace(cfg, s, a.service, source, now) ==>
      var b := cfg.NewBucket(s.key, a.service, source);
      Shape(cfg, r.0) && r.0.newTable[b][cfg.BucketPosition(s.key, true, b, a.service)] == s.idCount
    ensures !FindsPlace(cfg, s, a.service, source, now) ==> r.0 == s.(idCount := s.idCount + 1)
  {
    var id, s1 := s.idCount, Counted(s, a.service, a.services, Max0(a.time - penalty), source);
    CreateCounted(cfg, s, a.service, a.services, Max0(a.time - penalty), source, s1);
    AddFreshKeeps(cfg, s, a, source, penalty, now, r.0);
    var b := cfg.NewBucket(s.key, a.service, source);
    var p := cfg.BucketPosition(s.key, true, b, a.service);
    OccupantSame(cfg, s, a.service, a.services, Max0(a.time - penalty), source, s1, b, p, now);
    InsertAt(cfg, s1, {id}, id, source, now, b, p, r.0);
    if FindsPlace(cfg, s, a.service, source, now) {
      PlacedAt(cfg, s1, id, b, p, ClearNew(s1, b, p), r.0);
    } else {
      DeleteCreated(s, a.service, a.services, Max0(a.time - penalty), source, s1, r.0);
    }
  }

  lemma OccupantSame(cfg: Config, s: State, service: Service, services: bv64, time: int, source: NetAddr, s1: State, b: nat, p: nat, now: int)
    requires Structured(cfg, s) && s1 == Counted(s, service, services, time, source)
    requires b == cfg.NewBucket(s.key, service, source) && p == cfg.BucketPosition(s.key, true, b, service)
    ensures var id, there := s.idCount, s.newTable[b][p];
      && id in s1.infos && s1.key == s.key && s1.newTable == s.newTable && s1.infos[id].service == service
      && s1.infos[id].refCount == 0 && id != there && (there == EMPTY || there in s1.infos)
      && (GivesWay(s1, there, id, now) <==> FindsPlace(cfg, s, service, source, now))
  {
    assert NewSlotOk(cfg, s, b, p);
  }

  lemma PlacedAt(cfg: Config, s: State, id: int, b: nat, p: nat, s1: State, r: State)
    requires Inv(cfg, s, {id}, {}) && Structured(cfg, r) && b < cfg.newBuckets && p < cfg.bucketSize
    requires s.newTable[b][p] == EMPTY || s.newTable[b][p] in s.infos
    requires id in s.infos && s.newTable[b][p] != id
    requires s1 == ClearNew(s, b, p) && Shape(cfg, s1) && id in s1.infos && r == Attach(s1, id, b, p)
    ensures r.newTable[b][p] == id && s.infos[id].service.ip in r.addrs
  {
    ClearNewKeeps(cfg, s, {id}, {}, b, p);
    SamePayloadPlace(s.infos[id], s1.infos[id]);
    assert AddrOk(r, id);
  }

  /** Creating an entry and deleting it again leaves nothing but the used id. */
  lemma DeleteCreated(s: State, service: Service, services: bv64, time: int, source: NetAddr, s1: State, r: State)
    requires IdsOk(s) && service.ip !in s.addrs && s1 == Counted(s, service, services, time, source)
    requires Deletable(s1, s.idCount) && r == Delete(s1, s.idCount)
    ensures r == s.(idCount := s.idCount + 1)
  {
    assert s1.random[..|s1.random| - 1] == s.random;
    assert s1.addrs - {service.ip} == s.addrs;
    assert s1.infos - {s.idCount} == s.infos;
  }

  // ----- GetAddr_ -----

  const GETADDR_MAX_PCT := 23
  const GETADDR_MAX := 2500

  function GetAddrLimit(size: nat): nat {
    if GETADDR_MAX_PCT * size / 100 > GETADDR_MAX then GETADDR_MAX else GETADDR_MAX_PCT * size / 100
  }

  /** A random position from n on, made from a raw random number. */
  function Draw(raw: nat, n: nat, size: nat): (j: nat)
    requires n < size
    ensures n <= j < size
  {
    raw % (size - n) + n
  }

  /** One turn of the answering loop: draw a position, swap it to n and take it unless it is terrible. */
  function ShuffleStep(s: State, n: nat, raw: nat, now: int, picked: seq<int>): (r: (State, seq<int>))
    requires RandomOk(s) && n < |s.random|
    ensures RandomOk(r.0) && |r.0.random| == |s.random|
  {
    var j := Draw(raw, n, |s.random|);
    SwapRandomOk(s, n, j);
    var s1 := SwapRandom(s, n, j);
    assert RandomAtOk(s1, n);
    (s1, if s1.infos[s1.random[n]].IsTerrible(now) then picked else picked + [s1.random[n]])
  }

  /** The loop from position n on: `draws` supplies the random numbers, `picked` the ids taken so far. */
  function Shuffle(s: State, n: nat, limit: nat, draws: nat -> nat, now: int, picked: seq<int>): (r: (State, seq<int>))
    requires RandomOk(s) && n <= |s.random|
    decreases |s.random| - n
  {
    if n == |s.random| || |picked| >= limit then (s, picked)
    else
      var step := ShuffleStep(s, n, draws(n), now, picked);
      Shuffle(step.0, n + 1, limit, draws, now, step.1)
  }

  lemma ShuffleStepKeeps(cfg: Config, s: State, n: nat, raw: nat, now: int, picked: seq<int>, r: State)
    requires Consistent(cfg, s) && n < |s.random| && r == ShuffleStep(s, n, raw, now, picked).0
    ensures Consistent(cfg, r) && r.infos.Keys == s.infos.Keys && r.key == s.key && multiset(r.random) == multiset(s.random)
  {
    var j := Draw(raw, n, |s.random|);
    assert RandomAtOk(s, n) && RandomAtOk(s, j);
    SwapRandomKeeps(cfg, s, {}, {}, n, j, r);
    SwapRandomTimes(s, n, j, r);
    TimedFrom(s, r);
  }

  /** Answering a getaddr request keeps the tables and only permutes the random vector. */
  lemma {:induction false} ShuffleKeeps(cfg: Config, s: State, n: nat, limit: nat, draws: nat -> nat, now: int, picked: seq<int>, r: State)
    requires Consistent(cfg, s) && n <= |s.random| && r == Shuffle(s, n, limit, draws, now, picked).0
    ensures Consistent(cfg, r) && r.infos.Keys == s.infos.Keys && r.key == s.key && multiset(r.random) == multiset(s.random)
    decreases |s.random| - n
  {
    if n < |s.random| && |picked| < limit {
      var step := ShuffleStep(s, n, draws(n), now, picked);
      var m, k := step.0, n + 1;
      ShuffleStepKeeps(cfg, s, n, draws(n), now, picked, m);
      ShuffleNext(s, n, k, limit, draws, now, picked, m, step.1);
      ShuffleKeeps(cfg, m, k, limit, draws, now, step.1, r);
    }
  }

  lemma ShuffleNext(s: State, n: nat, k: nat, limit: nat, draws: nat -> nat, now: int, picked: seq<int>, m: State, picked': seq<int>)
    requires RandomOk(s) && n < |s.random| && |picked| < limit && k == n + 1 && (m, picked') == ShuffleStep(s, n, draws(n), now, picked)
    ensures RandomOk(m) && k <= |m.random| && Shuffle(s, n, limit, draws, now, picked) == Shuffle(m, k, limit, draws, now, picked')
  {
  }

  /** The answer holds distinct known entries, none of them terrible, and no more than the limit. */
  lemma {:induction false} ShuffleAnswers(s: State, n: nat, limit: nat, draws: nat -> nat, now: int, picked: seq<int>)
    requires RandomOk(s) && n <= |s.random| && |picked| <= limit && Answer(s, s.random[..n], now, picked)
    ensures var r := Shuffle(s, n, limit, draws, now, picked);
            |r.1| <= limit && Answer(r.0, r.0.random, now, r.1)
    decreases |s.random| - n
  {
    if n < |s.random| && |picked| < limit {
      var step := ShuffleStep(s, n, draws(n), now, picked);
      ShuffleStepAnswers(s, n, draws(n), now, picked, n + 1, step.0, step.1);
      ShuffleAnswers(step.0, n + 1, limit, draws, now, step.1);
    } else {
      AnswerWider(s, n, now, picked);
    }
  }

  lemma ShuffleStepAnswers(s: State, n: nat, raw: nat, now: int, picked: seq<int>, m: nat, r: State, picked': seq<int>)
    requires RandomOk(s) && n < |s.random| && Answer(s, s.random[..n], now, picked)
    requires m == n + 1 && (r, picked') == ShuffleStep(s, n, raw, now, picked)
    ensures RandomOk(r) && |r.random| == |s.random| && |picked'| <= |picked| + 1 && Answer(r, r.random[..m], now, picked')
  {
    SwapRandomOk(s, n, Draw(raw, n, |s.random|));
    assert r.random[..n] == s.random[..n];
    AnswerStep(s, r, n, now, picked);
  }

  lemma AnswerWider(s: State, n: nat, now: int, picked: seq<int>)
    requires n <= |s.random| && Answer(s, s.random[..n], now, picked)
    ensures Answer(s, s.random, now, picked)
  {
    forall i | 0 <= i < |picked| ensures picked[i] in s.random {
      assert picked[i] in s.random[..n];
    }
  }

  ghost predicate Answer(s: State, seen: seq<int>, now: int, picked: seq<int>) {
    && (forall i :: 0 <= i < |picked| ==> picked[i] in seen && picked[i] in s.infos && !s.infos[picked[i]].IsTerrible(now))
    && (forall i, j :: 0 <= i < j < |picked| ==> picked[i] != picked[j])
  }

  lemma AnswerStep(s: State, s1: State, n: nat, now: int, picked: seq<int>)
    requires n < |s1.random| && RandomOk(s1) && s1.infos.Keys == s.infos.Keys
    requires Answer(s, s1.random[..n], now, picked)
    requires forall id :: id in s.infos ==> SamePayload(s.infos[id], s1.infos[id])
    ensures RandomAtOk(s1, n)
    ensures Answer(s1, s1.random[..n + 1], now,
                   if s1.infos[s1.random[n]].IsTerrible(now) then picked else picked + [s1.random[n]])
  {
    assert RandomAtOk(s1, n);
    var id := s1.random[n];
    assert s1.random[..n + 1] == s1.random[..n] + [id];
    assert id !in s1.random[..n] by {
      forall k | 0 <= k < n ensures s1.random[k] != id { assert RandomAtOk(s1, k); }
    }
    forall i | 0 <= i < |picked|
      ensures picked[i] in s1.random[..n + 1] && picked[i] in s1.infos && !s1.infos[picked[i]].IsTerrible(now) {
      var x := picked[i];
      assert x in s.infos;
      SamePayloadFields(s.infos[x], s1.infos[x]);
    }
  }

  lemma SamePayloadFields(a: Info, b: Info)
    requires SamePayload(a, b)
    ensures a.service == b.service && a.lastTry == b.lastTry && a.time == b.time && a.lastSuccess == b.lastSuccess && a.attempts == b.attempts
  {
    var a', b' := a.(randomPos := 0), b.(randomPos := 0);
    assert a'.service == b'.service && a'.lastTry == b'.lastTry && a'.time == b'.time && a'.lastSuccess == b'.lastSuccess && a'.attempts == b'.attempts;
  }

  // ----- every run -----

  datatype Op =
    | AddOp(a: Announced, source: NetAddr, penalty: int, now: int, rnd: nat)
    | GoodOp(service: Service, time: int)
    | AttemptOp(service: Service, time: int)
    | ConnectedOp(service: Service, time: int)
    | GetAddrOp(draws: nat -> nat, now: int)

  predicate Admissible(op: Op) {
    match op
    case GoodOp(_, time) => time > 0
    case AttemptOp(_, time) => time >= 0
    case _ => true
  }

  function Apply(cfg: Config, s: State, op: Op): State
    requires Consistent(cfg, s) && Admissible(op)
  {
    match op
    case AddOp(a, source, penalty, now, rnd) => Add(cfg, s, a, source, penalty, now, rnd).0
    case GoodOp(service, time) => Good(cfg, s, service, time)
    case AttemptOp(service, time) => Attempt(s, service, time)
    case ConnectedOp(service, time) => Connected(s, service, time)
    case GetAddrOp(draws, now) => Shuffle(s, 0, GetAddrLimit(|s.random|), draws, now, []).0
  }

  lemma ApplyKeeps(cfg: Config, s: State, op: Op, r: State)
    requires Consistent(cfg, s) && Admissible(op) && r == Apply(cfg, s, op)
    ensures Consistent(cfg, r) && r.key == s.key
  {
    match op
    case AddOp(a, source, penalty, now, rnd) =>
      AddKeeps(cfg, s, a, source, penalty, now, rnd, Add(cfg, s, a, source, penalty, now, rnd));
    case GoodOp(service, time) => GoodKeeps(cfg, s, service, time, r);
    case AttemptOp(service, time) => AttemptKeeps(cfg, s, service, time, r);
    case ConnectedOp(service, time) => ConnectedKeeps(cfg, s, service, time, r);
    case GetAddrOp(draws, now) => ShuffleKeeps(cfg, s, 0, GetAddrLimit(|s.random|), draws, now, [], r);
  }

  /** The manager as `Clear` leaves a newly constructed one. */
  function Fresh(cfg: Config, key: Key): State {
    var row := seq(cfg.bucketSize, _ => EMPTY);
    State(key, 0, map[], map[], [], 0, seq(cfg.triedBuckets, _ => row), 0, seq(cfg.newBuckets, _ => row))
  }

  /** `Clear` resets everything but the maps of entries and addresses; what it leaves is consistent exactly when
      they were empty. */
  lemma ClearedConsistent(cfg: Config, key: Key, infos: map<int, Info>, addrs: map<NetAddr, int>)
    requires cfg.Valid()
    ensures Consistent(cfg, Fresh(cfg, key).(infos := infos, addrs := addrs)) <==> infos == map[] && addrs == map[]
  {
    var s := Fresh(cfg, key).(infos := infos, addrs := addrs);
    if infos == map[] && addrs == map[] {
      FreshConsistent(cfg, key);
    }
    if Consistent(cfg, s) {
      assert infos.Keys == {};
      assert forall ip :: ip in addrs ==> IpOk(s, ip);
      assert addrs.Keys == {};
    }
  }

  lemma FreshConsistent(cfg: Config, key: Key)
    requires cfg.Valid()
    ensures Consistent(cfg, Fresh(cfg, key))
  {
    var s := Fresh(cfg, key);
    assert TriedIds(s) == {} && NewIds(s) - {} == {};
  }

  /** Every run of admissible operations, from any consistent state, ends in a consistent state. */
  function Run(cfg: Config, s: State, ops: seq<Op>): (r: State)
    requires Consistent(cfg, s) && forall i :: 0 <= i < |ops| ==> Admissible(ops[i])
    ensures Consistent(cfg, r) && r.key == s.key
    decreases |ops|
  {
    if ops == [] then s
    else
      ApplyKeeps(cfg, s, ops[0], Apply(cfg, s, ops[0]));
      Run(cfg, Apply(cfg, s, ops[0]), ops[1..])
  }
}
