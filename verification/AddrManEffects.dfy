/**
 What each operation of the address manager does to the entries (src/addrman.cpp:11-58, 199-331, 453-490).
 */
module AddrManEffects {
  import opened AddrManState
  import opened AddrManOps

  // ----- finding -----

  /** Find gives the entry with this address and port, and none when there is none. */
  lemma FindIs(s: State, service: Service, id: int)
    requires AddrsOk(s) && id != EMPTY
    ensures FindExact(s, service) == id <==> id in s.infos && s.infos[id].service == service
  {
    if id in s.infos { assert AddrOk(s, id); }
  }

  lemma FindNone(s: State, service: Service)
    requires AddrsOk(s) && IdsOk(s)
    ensures FindExact(s, service) == EMPTY <==> forall id {:trigger s.infos[id]} :: id in s.infos ==> s.infos[id].service != service
  {
    if FindExact(s, service) == EMPTY {
      forall id | id in s.infos ensures s.infos[id].service != service { FindIs(s, service, id); }
    }
  }

  // ----- attempts and connections -----

  /** All entries but one, and everything else, are as they were. */
  predicate OnlyEntry(s: State, id: int, r: State) {
    && id in s.infos && id in r.infos && r == s.(infos := r.infos) && r.infos.Keys == s.infos.Keys
    && forall x {:trigger r.infos[x]} :: x in s.infos && x != id ==> r.infos[x] == s.infos[x]
  }

  /** The parts of an entry that no statistics touch. */
  predicate SameBasics(a: Info, b: Info) {
    b.service == a.service && b.source == a.source && b.refCount == a.refCount && b.inTried == a.inTried && b.randomPos == a.randomPos
  }

  /** `Attempt_` notes the time of the try and counts it, for the entry of this address and port alone. */
  lemma AttemptNotes(s: State, id: int, time: int)
    requires AddrsOk(s) && id in s.infos && id != EMPTY
    ensures var service := s.infos[id].service; var r := Attempt(s, service, time);
      && OnlyEntry(s, id, r) && SameBasics(s.infos[id], r.infos[id]) && r.infos[id].services == s.infos[id].services
      && r.infos[id].lastTry == time && r.infos[id].attempts == s.infos[id].attempts + 1
      && r.infos[id].time == s.infos[id].time && r.infos[id].lastSuccess == s.infos[id].lastSuccess
  {
    FindIs(s, s.infos[id].service, id);
  }

  /** `Connected_` moves the last-seen time forward when it is more than twenty minutes old. */
  lemma ConnectedNotes(s: State, id: int, time: int)
    requires AddrsOk(s) && id in s.infos && id != EMPTY
    ensures var service := s.infos[id].service; var r := Connected(s, service, time);
      && OnlyEntry(s, id, r) && SameBasics(s.infos[id], r.infos[id]) && r.infos[id].services == s.infos[id].services
      && r.infos[id].lastTry == s.infos[id].lastTry && r.infos[id].attempts == s.infos[id].attempts
      && r.infos[id].lastSuccess == s.infos[id].lastSuccess
      && r.infos[id].time == if time > s.infos[id].time + 1200 then time else s.infos[id].time
  {
    FindIs(s, s.infos[id].service, id);
  }

  /** None of the three does anything for an address and port that no entry has. */
  lemma UnknownIgnored(cfg: Config, s: State, service: Service, time: int)
    requires Structured(cfg, s) && forall id {:trigger s.infos[id]} :: id in s.infos ==> s.infos[id].service != service
    ensures Attempt(s, service, time) == s && Connected(s, service, time) == s && Good(cfg, s, service, time) == s
  {
    FindNone(s, service);
  }

  // ----- success -----

  /** The same entry but for its place in the tables and in the random vector. */
  predicate SameRecord(a: Info, b: Info) {
    && b.service == a.service && b.services == a.services && b.time == a.time && b.source == a.source
    && b.lastSuccess == a.lastSuccess && b.lastTry == a.lastTry && b.attempts == a.attempts
  }

  /** What stays of the other entries: their records, if they are still there. */
  ghost predicate OthersKeep(s: State, id: int, r: State) {
    forall x {:trigger r.infos[x]} :: x in r.infos && x != id ==> x in s.infos && SameRecord(s.infos[x], r.infos[x])
  }

  lemma PayloadRecord(a: Info, b: Info)
    requires SamePayload(a, b)
    ensures SameRecord(a, b) && b.refCount == a.refCount && b.inTried == a.inTried
  {
    var c, d := a.(randomPos := 0), b.(randomPos := 0);
    assert c == d;
    assert c.service == d.service && c.services == d.services && c.time == d.time && c.source == d.source;
    assert c.lastSuccess == d.lastSuccess && c.attempts == d.attempts && c.lastTry == d.lastTry;
    assert c.inTried == d.inTried && c.refCount == d.refCount;
  }

  lemma {:induction false} ReleaseKeepsOthers(cfg: Config, s: State, id: int, b: nat, r: State)
    requires Shape(cfg, s) && id in s.infos && b <= cfg.newBuckets && r == ReleaseOn(cfg, s, id, b)
    ensures OnlyInfos(s, id, r) && SameRecord(s.infos[id], r.infos[id])
    decreases cfg.newBuckets - b
  {
    if b < cfg.newBuckets {
      var m, b' := ReleaseFrom(cfg, s, id, b), b + 1;
      ReleaseKeepsOthers(cfg, m, id, b', r);
    }
  }

  predicate OnlyInfos(s: State, id: int, r: State) {
    && id in s.infos && id in r.infos && r.infos.Keys == s.infos.Keys && r.triedTable == s.triedTable && r.key == s.key
    && forall x {:trigger r.infos[x]} :: x in s.infos && x != id ==> r.infos[x] == s.infos[x]
  }

  /** Clearing a new slot keeps all records, and loses its occupant exactly when that was its last reference. */
  lemma ClearKeepsRecords(cfg: Config, s: State, counted: set<int>, uncounted: set<int>, b: nat, p: nat, r: State)
    requires Inv(cfg, s, counted, uncounted) && b < cfg.newBuckets && p < cfg.bucketSize
    requires s.newTable[b][p] != EMPTY ==> s.newTable[b][p] in s.infos
    requires r == ClearNew(s, b, p)
    ensures forall x {:trigger r.infos[x]} :: x in r.infos ==> x in s.infos && SameRecord(s.infos[x], r.infos[x])
    ensures forall x :: x in s.infos && x !in r.infos <==> x == s.newTable[b][p] && x in s.infos && s.infos[x].refCount == 1
  {
    var id := s.newTable[b][p];
    if id != EMPTY {
      ReleaseKeeps(cfg, s, counted, uncounted, b, p);
      ReleasedRecords(cfg, s, counted, uncounted, id, Release(s, b, p), r);
    }
  }

  lemma ReleasedRecords(cfg: Config, s: State, counted: set<int>, uncounted: set<int>, id: int, s1: State, r: State)
    requires id in s.infos && id !in counted && s1.infos == s.infos[id := s.infos[id].(refCount := s.infos[id].refCount - 1)]
    requires Tabled(cfg, s1, if s.infos[id].refCount == 1 then counted + {id} else counted, uncounted)
    requires if s1.infos[id].refCount == 0 then PositionOk(s1, id) && RandomAtOk(s1, s1.infos[id].randomPos) && RandomAtOk(s1, |s1.random| - 1) && r == Delete(s1, id) else r == s1
    ensures forall x {:trigger r.infos[x]} :: x in r.infos ==> x in s.infos && SameRecord(s.infos[x], r.infos[x])
    ensures forall x :: x in s.infos && x !in r.infos <==> x == id && s.infos[x].refCount == 1
  {
    if s1.infos[id].refCount == 0 { LastReleased(cfg, s1, counted, uncounted, id); }
    RecordsFrom(s, s1, id, r);
  }

  lemma RecordsFrom(s: State, s1: State, id: int, r: State)
    requires id in s.infos && s1.infos == s.infos[id := s.infos[id].(refCount := s.infos[id].refCount - 1)]
    requires r.infos.Keys == if s1.infos[id].refCount == 0 then s.infos.Keys - {id} else s.infos.Keys
    requires r.infos == s1.infos || forall x :: x in r.infos ==> SamePayload(s1.infos[x], r.infos[x])
    ensures forall x {:trigger r.infos[x]} :: x in r.infos ==> x in s.infos && SameRecord(s.infos[x], r.infos[x])
    ensures forall x :: x in s.infos && x !in r.infos <==> x == id && s.infos[x].refCount == 1
  {
    if r.infos != s1.infos {
      forall x | x in r.infos ensures SameRecord(s1.infos[x], r.infos[x]) { PayloadRecord(s1.infos[x], r.infos[x]); }
    }
  }

  /** Making room in a tried slot keeps all records. Its occupant, if any, goes to the slot of its own source with one
      reference; an entry is lost exactly when it held that slot by its last reference. */
  lemma RoomKeepsOthers(cfg: Config, s: State, id: int, b: nat, p: nat, r: State)
    requires Inv(cfg, s, {}, {id}) && b < cfg.triedBuckets && p < cfg.bucketSize && r == EvictToNew(cfg, s, id, b, p)
    ensures forall x {:trigger r.infos[x]} :: x in r.infos ==> x in s.infos && SameRecord(s.infos[x], r.infos[x])
    ensures s.triedTable[b][p] == EMPTY ==> r == s
    ensures s.triedTable[b][p] != EMPTY ==> Rehomes(cfg, s, s.triedTable[b][p], r)
  {
    var victim := s.triedTable[b][p];
    if victim != EMPTY {
      EvictKeeps(cfg, s, {}, {id}, b, p);
      var s1, loose := Evict(s, b, p), {id} + {victim};
      var ub := cfg.NewBucket(s.key, s1.infos[victim].service, s1.infos[victim].source);
      var up := cfg.BucketPosition(s.key, true, ub, s1.infos[victim].service);
      EvictToNewIs(cfg, s, id, b, p, victim, s1, loose, ub, up, r);
      Resettled(cfg, s, s1, loose, victim, ub, up, ClearNew(s1, ub, up), r);
    }
  }

  lemma Resettled(cfg: Config, s: State, s1: State, loose: set<int>, victim: int, ub: nat, up: nat, s2: State, r: State)
    requires Shape(cfg, s) && Inv(cfg, s1, {}, loose) && victim in loose && victim in s.infos && ub < cfg.newBuckets && up < cfg.bucketSize
    requires s1.infos == s.infos[victim := s.infos[victim].(inTried := false)] && s1.newTable == s.newTable && s1.key == s.key
    requires s1.newTable[ub][up] != EMPTY ==> s1.newTable[ub][up] in s1.infos
    requires s2 == ClearNew(s1, ub, up) && Shape(cfg, s2) && victim in s2.infos
    requires ub == cfg.NewBucket(s.key, s.infos[victim].service, s.infos[victim].source)
    requires up == cfg.BucketPosition(s.key, true, ub, s.infos[victim].service)
    requires r == WriteSlot(s2.(nNew := s2.nNew + 1), ub, up, victim, victim, 1)
    ensures forall x {:trigger r.infos[x]} :: x in r.infos ==> x in s.infos && SameRecord(s.infos[x], r.infos[x])
    ensures Rehomes(cfg, s, victim, r)
  {
    ClearNewKeeps(cfg, s1, {}, loose, ub, up);
    ClearKeepsRecords(cfg, s1, {}, loose, ub, up, s2);
    PayloadRecord(s1.infos[victim], s2.infos[victim]);
    RehousedRecords(s, s1, s2, victim, ub, up, r);
  }

  /** The evicted entry sits in the slot of its own source, with one reference, and the one that held that slot by
      its last reference is gone. */
  ghost predicate Rehomes(cfg: Config, s: State, victim: int, r: State)
    requires Shape(cfg, s)
  {
    && victim in s.infos && victim in r.infos && !r.infos[victim].inTried && r.infos[victim].refCount == 1
    && var ub := cfg.NewBucket(s.key, s.infos[victim].service, s.infos[victim].source);
       var up := cfg.BucketPosition(s.key, true, ub, s.infos[victim].service);
       && Shape(cfg, r) && r.newTable[ub][up] == victim
       && forall x :: x in s.infos && x !in r.infos <==> x == s.newTable[ub][up] && x in s.infos && s.infos[x].refCount == 1
  }

  lemma RehousedRecords(s: State, s1: State, s2: State, victim: int, ub: nat, up: nat, r: State)
    requires victim in s.infos && s1.infos == s.infos[victim := s.infos[victim].(inTried := false)] && s1.newTable == s.newTable
    requires ub < |s1.newTable| && up < |s1.newTable[ub]| && s2.newTable == SetSlot(s1.newTable, ub, up, EMPTY)
    requires victim in s2.infos && s1.newTable[ub][up] != victim
    requires forall x {:trigger s2.infos[x]} :: x in s2.infos ==> x in s1.infos && SameRecord(s1.infos[x], s2.infos[x])
    requires s2.infos[victim].inTried == s1.infos[victim].inTried
    requires forall x :: x in s1.infos && x !in s2.infos <==> x == s1.newTable[ub][up] && x in s1.infos && s1.infos[x].refCount == 1
    requires r == WriteSlot(s2.(nNew := s2.nNew + 1), ub, up, victim, victim, 1)
    ensures forall x {:trigger r.infos[x]} :: x in r.infos ==> x in s.infos && SameRecord(s.infos[x], r.infos[x])
    ensures victim in r.infos && !r.infos[victim].inTried && r.infos[victim].refCount == 1 && r.newTable[ub][up] == victim
    ensures forall x :: x in s.infos && x !in r.infos <==> x == s.newTable[ub][up] && x in s.infos && s.infos[x].refCount == 1
  {
    forall x | x in r.infos ensures x in s.infos && SameRecord(s.infos[x], r.infos[x]) {
      assert SameRecord(s1.infos[x], s2.infos[x]);
    }
  }

  /** `Good_` on a known address and port: the entry is marked as reached at that time and ends in the tried table, at
      the slot of its address. No other record changes. If that slot was taken, its occupant goes back to the new
      table; if the entry was tried already, nothing else happens. */
  lemma GoodMoves(cfg: Config, s: State, id: int, time: int, r: State)
    requires Structured(cfg, s) && id in s.infos && id != EMPTY && r == Good(cfg, s, s.infos[id].service, time)
    ensures id in r.infos && r.infos[id].inTried && r.infos[id].refCount == 0
    ensures r.infos[id].service == s.infos[id].service && r.infos[id].services == s.infos[id].services && r.infos[id].source == s.infos[id].source
    ensures r.infos[id].lastSuccess == time && r.infos[id].lastTry == time && r.infos[id].time == time && r.infos[id].attempts == 0
    ensures OthersKeep(s, id, r)
    ensures if s.infos[id].inTried then OnlyEntry(s, id, r) else Displaces(cfg, s, id, r)
    ensures var b := cfg.TriedBucket(s.key, s.infos[id].service); var p := cfg.BucketPosition(s.key, false, b, s.infos[id].service);
      Shape(cfg, r) && r.triedTable[b][p] == id
  {
    FindIs(s, s.infos[id].service, id);
    GoodEnters(cfg, s, s.infos[id].service, time, r);
    assert TriedEntryOk(cfg, r, id) && EntryOk(cfg, r, id, {} + {});
    ReachedRecords(cfg, s, id, time, s.(infos := s.infos[id := Reached(s.infos[id], time)]), r);
  }

  lemma ReachedRecords(cfg: Config, s: State, id: int, time: int, s1: State, r: State)
    requires Structured(cfg, s) && id in s.infos && s1 == s.(infos := s.infos[id := Reached(s.infos[id], time)])
    requires FindExact(s, s.infos[id].service) == id && r == Good(cfg, s, s.infos[id].service, time)
    ensures id in r.infos && SameRecord(Reached(s.infos[id], time), r.infos[id]) && OthersKeep(s, id, r)
    ensures if s.infos[id].inTried then OnlyEntry(s, id, r) else Displaces(cfg, s, id, r)
  {
    if !s.infos[id].inTried {
      AlwaysInBucket(cfg, s, id);
      TouchKeeps(cfg, s, {}, {}, id, s1.infos[id]);
      MovesRecords(cfg, s1, id, r);
      DisplacesFrom(cfg, s, id, s1, r);
    }
  }

  lemma DisplacesFrom(cfg: Config, s: State, id: int, s1: State, r: State)
    requires Structured(cfg, s) && Structured(cfg, s1) && id in s.infos && !s.infos[id].inTried && id in s1.infos
    requires s1 == s.(infos := s.infos[id := s1.infos[id]]) && s1.infos[id].service == s.infos[id].service && Displaces(cfg, s1, id, r)
    ensures Displaces(cfg, s, id, r)
  {
    var b := cfg.TriedBucket(s.key, s.infos[id].service);
    var p := cfg.BucketPosition(s.key, false, b, s.infos[id].service);
    assert s.triedTable[b][p] != EMPTY ==> TriedSlotOk(cfg, s, b, p);
  }

  /** The same for the move itself, with what it does to the occupant of the slot. */
  lemma MovesRecords(cfg: Config, s: State, id: int, r: State)
    requires Structured(cfg, s) && id in s.infos && !s.infos[id].inTried && r == MakeTried(cfg, s, id)
    ensures id in r.infos && SameRecord(s.infos[id], r.infos[id]) && OthersKeep(s, id, r)
    ensures Displaces(cfg, s, id, r)
  {
    var s1 := ReleaseOn(cfg, s, id, 0);
    ReleaseKeepsOthers(cfg, s, id, 0, s1);
    var s2 := s1.(nNew := s1.nNew - 1);
    MakeTriedSteps(cfg, s, id, s1, s2);
    var b := cfg.TriedBucket(s.key, s.infos[id].service);
    var p := cfg.BucketPosition(s.key, false, b, s.infos[id].service);
    var s3 := EvictToNew(cfg, s2, id, b, p);
    MakeTriedIs(cfg, s, id, s2, b, p, s3, r);
    RoomKeepsOthers(cfg, s2, id, b, p, s3);
    EnteredRecords(cfg, s, s2, s3, id, b, p, r);
  }

  /** The occupant of the tried slot, if any, is back in the new table with one reference. */
  ghost predicate Displaces(cfg: Config, s: State, id: int, r: State)
    requires Structured(cfg, s) && id in s.infos
  {
    var b := cfg.TriedBucket(s.key, s.infos[id].service);
    var victim := s.triedTable[b][cfg.BucketPosition(s.key, false, b, s.infos[id].service)];
    if victim == EMPTY then r.infos.Keys == s.infos.Keys
    else
      && victim in s.infos && victim in r.infos && !r.infos[victim].inTried && r.infos[victim].refCount == 1
      && var ub := cfg.NewBucket(s.key, s.infos[victim].service, s.infos[victim].source);
         Shape(cfg, r) && r.newTable[ub][cfg.BucketPosition(s.key, true, ub, s.infos[victim].service)] == victim
  }

  lemma EnteredRecords(cfg: Config, s: State, s2: State, s3: State, id: int, b: nat, p: nat, r: State)
    requires Structured(cfg, s) && Inv(cfg, s2, {}, {id}) && OnlyInfos(s, id, s2) && SameRecord(s.infos[id], s2.infos[id]) && !s.infos[id].inTried
    requires b == cfg.TriedBucket(s.key, s.infos[id].service) && p == cfg.BucketPosition(s.key, false, b, s.infos[id].service)
    requires forall x {:trigger s3.infos[x]} :: x in s3.infos ==> x in s2.infos && SameRecord(s2.infos[x], s3.infos[x])
    requires s2.triedTable[b][p] == EMPTY ==> s3 == s2
    requires s2.triedTable[b][p] != EMPTY ==> Rehomes(cfg, s2, s2.triedTable[b][p], s3)
    requires Shape(cfg, s3) && id in s3.infos && r == EnterTried(s3, id, b, p)
    ensures id in r.infos && SameRecord(s.infos[id], r.infos[id]) && OthersKeep(s, id, r) && Displaces(cfg, s, id, r)
  {
    var victim := s2.triedTable[b][p];
    if victim != EMPTY {
      assert TriedSlotOk(cfg, s, b, p);
      assert victim != id;
    }
    forall x | x in r.infos && x != id ensures x in s.infos && SameRecord(s.infos[x], r.infos[x]) {
      assert SameRecord(s2.infos[x], s3.infos[x]);
    }
  }

  // ----- announcements -----

  /** What an announcement makes of the last-seen time: later by more than an hour, for a peer seen within a day, or
      a day, it moves to the announced time less the penalty; services are only ever added. */
  lemma RefreshMeans(info: Info, a: Announced, penalty: int, now: int)
    ensures var r := Refreshed(info, a, penalty, now); var margin := if now < a.time + 86400 then 3600 else 86400;
      && SameBasics(info, r) && r.lastTry == info.lastTry && r.lastSuccess == info.lastSuccess && r.attempts == info.attempts
      && r.services == info.services | a.services
      && (a.time != 0 && (info.time == 0 || a.time > info.time + margin + penalty) ==>
            r.time == if a.time >= penalty then a.time - penalty else 0)
      && (a.time == 0 || (info.time != 0 && a.time <= info.time + margin + penalty) ==> r.time == info.time)
  {
  }

  /** The stochastic test: with n references one draw in 2^n passes. */
  lemma {:induction false} Odds(n: nat)
    ensures Pow2Pos(0) == 1 && Pow2Pos(n + 1) == 2 * Pow2Pos(n)
  {
  }

  /** A known address gains a place exactly when it has news, is not tried, has fewer than eight references, passes the
      stochastic test, and the slot of the announcing source is not its own and is empty or held by a terrible entry. */
  lemma KnownGains(cfg: Config, s: State, a: Announced, source: NetAddr, penalty: int, now: int, rnd: nat, id: int, r: State)
    requires Structured(cfg, s) && cfg.routable(a.service.ip) && a.service.ip in s.addrs && id == s.addrs[a.service.ip]
    requires r == Add(cfg, s, a, source, penalty, now, rnd).0
    ensures id in s.infos && id in r.infos
    ensures SameRecord(Refreshed(s.infos[id], a, penalty, now), r.infos[id])
    ensures OthersKeep(s, id, r)
    ensures var seen := Refreshed(s.infos[id], a, penalty, now);
      var b := cfg.NewBucket(s.key, s.infos[id].service, source); var p := cfg.BucketPosition(s.key, true, b, s.infos[id].service);
      var there := s.newTable[b][p];
      var gains := a.time != 0 && (seen.time == 0 || a.time > seen.time) && !seen.inTried && seen.refCount < 8
        && rnd % Pow2Pos(if seen.refCount < 0 then 0 else seen.refCount) == 0
        && there != id && (there == EMPTY || (there in s.infos && s.infos[there].IsTerrible(now)));
      && r.infos[id].refCount == s.infos[id].refCount + (if gains then 1 else 0)
      && (gains ==> Shape(cfg, r) && r.newTable[b][p] == id)
      && (!gains ==> r.newTable == s.newTable && r.infos.Keys == s.infos.Keys)
  {
    assert IpOk(s, a.service.ip);
    assert EntryOk(cfg, s, id, {} + {});
    var info := Refreshed(s.infos[id], a, penalty, now);
    TouchKeeps(cfg, s, {}, {}, id, info);
    var s1 := s.(infos := s.infos[id := info]);
    if Eligible(info, a, rnd) {
      var b := cfg.NewBucket(s.key, s.infos[id].service, source);
      var p := cfg.BucketPosition(s.key, true, b, s.infos[id].service);
      InsertsKnown(cfg, s1, id, source, now, b, p, r);
      forall x | x in r.infos && x != id ensures x in s.infos && SameRecord(s.infos[x], r.infos[x]) {
        assert SameRecord(s1.infos[x], r.infos[x]);
      }
    }
  }

  lemma InsertsKnown(cfg: Config, s: State, id: int, source: NetAddr, now: int, b: nat, p: nat, r: State)
    requires Structured(cfg, s) && id in s.infos && !s.infos[id].inTried && s.infos[id].refCount >= 1
    requires b == cfg.NewBucket(s.key, s.infos[id].service, source) && p == cfg.BucketPosition(s.key, true, b, s.infos[id].service)
    requires r == Insert(cfg, s, {}, id, source, now)
    ensures var there := s.newTable[b][p]; var gains := there != id && (there == EMPTY || (there in s.infos && s.infos[there].IsTerrible(now)));
      && id in r.infos && r.infos[id].refCount == s.infos[id].refCount + (if gains then 1 else 0)
      && (gains ==> Shape(cfg, r) && r.newTable[b][p] == id) && (!gains ==> r == s)
    ensures forall x {:trigger r.infos[x]} :: x in r.infos ==> x in s.infos && SameRecord(s.infos[x], r.infos[x])
  {
    InsertAt(cfg, s, {}, id, source, now, b, p, r);
    var there := s.newTable[b][p];
    if there != id && GivesWay(s, there, id, now) {
      ClearNewKeeps(cfg, s, {}, {}, b, p);
      ClearKeepsRecords(cfg, s, {}, {}, b, p, ClearNew(s, b, p));
      PayloadRecord(s.infos[id], ClearNew(s, b, p).infos[id]);
      AttachedRecords(s, ClearNew(s, b, p), id, b, p, r);
    }
  }

  lemma AttachedRecords(s: State, s1: State, id: int, b: nat, p: nat, r: State)
    requires b < |s1.newTable| && p < |s1.newTable[b]| && id in s1.infos && r == Attach(s1, id, b, p)
    requires forall x {:trigger s1.infos[x]} :: x in s1.infos ==> x in s.infos && SameRecord(s.infos[x], s1.infos[x])
    ensures forall x {:trigger r.infos[x]} :: x in r.infos ==> x in s.infos && SameRecord(s.infos[x], r.infos[x])
    ensures r.newTable[b][p] == id && r.infos[id].refCount == s1.infos[id].refCount + 1
  {
    forall x | x in r.infos ensures x in s.infos && SameRecord(s.infos[x], r.infos[x]) { assert SameRecord(s.infos[x], s1.infos[x]); }
  }

  /** An address that cannot be routed to is ignored. */
  lemma UnroutableIgnored(cfg: Config, s: State, a: Announced, source: NetAddr, penalty: int, now: int, rnd: nat)
    requires Structured(cfg, s) && !cfg.routable(a.service.ip)
    ensures Add(cfg, s, a, source, penalty, now, rnd) == (s, false)
  {
  }

  /** A new address that finds a place: as announced, seen at that time less the penalty, never tried, with one
      reference. */
  lemma FreshRecord(cfg: Config, s: State, a: Announced, source: NetAddr, penalty: int, now: int, rnd: nat, r: State)
    requires Structured(cfg, s) && cfg.routable(a.service.ip) && a.service.ip !in s.addrs
    requires r == Add(cfg, s, a, source, penalty, now, rnd).0
    requires FindsPlace(cfg, s, a.service, source, now)
    ensures var id := s.idCount;
      && id in r.infos && r.infos[id].service == a.service && r.infos[id].services == a.services && r.infos[id].source == source
      && r.infos[id].time == (if a.time >= penalty then a.time - penalty else 0)
      && r.infos[id].lastSuccess == 0 && r.infos[id].lastTry == 0 && r.infos[id].attempts == 0
      && !r.infos[id].inTried && r.infos[id].refCount == 1 && OthersKeep(s, id, r)
  {
    var id, time := s.idCount, Max0(a.time - penalty);
    var s1 := Counted(s, a.service, a.services, time, source);
    CreateCounted(cfg, s, a.service, a.services, time, source, s1);
    var b := cfg.NewBucket(s.key, a.service, source);
    var p := cfg.BucketPosition(s.key, true, b, a.service);
    OccupantSame(cfg, s, a.service, a.services, time, source, s1, b, p, now);
    InsertAt(cfg, s1, {id}, id, source, now, b, p, r);
    InsertsFresh(cfg, s1, id, b, p, ClearNew(s1, b, p), r);
    forall x | x in r.infos && x != id ensures x in s.infos && SameRecord(s.infos[x], r.infos[x]) { assert SameRecord(s1.infos[x], r.infos[x]); }
  }

  lemma InsertsFresh(cfg: Config, s: State, id: int, b: nat, p: nat, s1: State, r: State)
    requires Inv(cfg, s, {id}, {}) && b < cfg.newBuckets && p < cfg.bucketSize && s.newTable[b][p] != id
    requires s.newTable[b][p] != EMPTY ==> s.newTable[b][p] in s.infos
    requires id in s.infos && s.infos[id].refCount == 0 && s1 == ClearNew(s, b, p) && Shape(cfg, s1) && id in s1.infos && r == Attach(s1, id, b, p)
    ensures id in r.infos && r.infos[id].refCount == 1 && r.infos[id].inTried == s.infos[id].inTried
    ensures forall x {:trigger r.infos[x]} :: x in r.infos ==> x in s.infos && SameRecord(s.infos[x], r.infos[x])
  {
    ClearNewKeeps(cfg, s, {id}, {}, b, p);
    ClearKeepsRecords(cfg, s, {id}, {}, b, p, s1);
    PayloadRecord(s.infos[id], s1.infos[id]);
    AttachedRecords(s, s1, id, b, p, r);
  }

  // ----- quality and the answer -----

  /** Which entries are terrible: none that was tried within the last minute; else those from more than ten minutes
      ahead, never seen or not for thirty days, tried three times without ever succeeding, or tried ten times since a
      success more than a week ago. */
  lemma TerribleIs(info: Info, now: int)
    ensures info.lastTry != 0 && now - info.lastTry <= 60 ==> !info.IsTerrible(now)
    ensures info.lastTry == 0 || now - info.lastTry > 60 ==>
      (info.IsTerrible(now) <==>
        || info.time - now > 600 || info.time == 0 || now - info.time > 2592000
        || (info.lastSuccess == 0 && info.attempts >= 3)
        || (now - info.lastSuccess > 604800 && info.attempts >= 10))
  {
  }

  /** The limit: 23 in a hundred of the entries, rounded down, and at most 2500. */
  lemma LimitIs(size: nat)
    ensures var n := GetAddrLimit(size); n <= 2500 && 100 * n <= 23 * size && (n < 2500 ==> 23 * size < 100 * (n + 1))
  {
  }

  /** Every entry up to here that is not terrible has been taken. */
  ghost predicate TakenBelow(s: State, n: nat, now: int, picked: seq<int>)
    requires RandomOk(s) && n <= |s.random|
  {
    forall i {:trigger s.random[i]} :: 0 <= i < n ==> RandomAtOk(s, i) && (s.infos[s.random[i]].IsTerrible(now) || s.random[i] in picked)
  }

  /** The answer leaves no entry out that is not terrible, unless the limit is reached. */
  lemma {:induction false} AnswerComplete(s: State, n: nat, limit: nat, draws: nat -> nat, now: int, picked: seq<int>)
    requires RandomOk(s) && n <= |s.random| && TakenBelow(s, n, now, picked)
    ensures var r := Shuffle(s, n, limit, draws, now, picked);
      |r.1| < limit ==> forall id :: id in r.0.infos ==> r.0.infos[id].IsTerrible(now) || id in r.1
    decreases |s.random| - n
  {
    if n == |s.random| {
      forall id | id in s.infos ensures s.infos[id].IsTerrible(now) || id in picked {
        assert PositionOk(s, id);
        assert s.random[s.infos[id].randomPos] == id;
      }
    } else if |picked| < limit {
      var step, k := ShuffleStep(s, n, draws(n), now, picked), n + 1;
      TakenNext(s, n, draws(n), now, picked, k, step.0, step.1);
      ShuffleNext(s, n, k, limit, draws, now, picked, step.0, step.1);
      AnswerComplete(step.0, k, limit, draws, now, step.1);
    }
  }

  lemma TakenNext(s: State, n: nat, raw: nat, now: int, picked: seq<int>, k: nat, r: State, picked': seq<int>)
    requires RandomOk(s) && n < |s.random| && TakenBelow(s, n, now, picked) && k == n + 1 && (r, picked') == ShuffleStep(s, n, raw, now, picked)
    ensures RandomOk(r) && k <= |r.random| && TakenBelow(r, k, now, picked')
  {
    var j := Draw(raw, n, |s.random|);
    SwapRandomOk(s, n, j);
    forall i | 0 <= i < k ensures RandomAtOk(r, i) && (r.infos[r.random[i]].IsTerrible(now) || r.random[i] in picked') {
      assert RandomAtOk(r, i);
      if i < n {
        assert r.random[i] == s.random[i] && RandomAtOk(s, i);
        TerribleSame(s.infos[s.random[i]], r.infos[s.random[i]], now);
      }
    }
  }

  lemma TerribleSame(a: Info, b: Info, now: int)
    requires SamePayload(a, b)
    ensures a.IsTerrible(now) == b.IsTerrible(now)
  {
    PayloadRecord(a, b);
  }

  // ----- how far one group reaches -----

  /** All new buckets of sources of this group are among these. */
  ghost predicate NewIn(cfg: Config, key: Key, group: nat, reach: set<nat>) requires cfg.Valid() {
    forall service: Service, source: NetAddr {:trigger cfg.NewBucket(key, service, source)} ::
      cfg.group(source) == group ==> cfg.NewBucket(key, service, source) in reach
  }

  /** All tried buckets of addresses of this group are among these. */
  ghost predicate TriedIn(cfg: Config, key: Key, group: nat, reach: set<nat>) requires cfg.Valid() {
    forall service: Service {:trigger cfg.TriedBucket(key, service)} ::
      cfg.group(service.ip) == group ==> cfg.TriedBucket(key, service) in reach
  }

  /** Addresses announced from one group of sources reach at most 64 new buckets. */
  lemma NewSpread(cfg: Config, key: Key, group: nat)
    requires cfg.Valid()
    ensures exists reach: set<nat> :: |reach| <= 64 && NewIn(cfg, key, group, reach)
  {
    var buckets := seq(64, slice requires 0 <= slice < 64 => cfg.cheapHash(NewSource(key, group, slice)) % cfg.newBuckets);
    var reach: set<nat> := set x | x in buckets;
    forall service: Service, source: NetAddr | cfg.group(source) == group ensures cfg.NewBucket(key, service, source) in reach {
      var slice := cfg.cheapHash(NewGroups(key, cfg.group(service.ip), group)) % 64;
      assert cfg.NewBucket(key, service, source) == buckets[slice];
    }
    ImageSize(buckets, reach);
  }

  /** And addresses of one group at most 8 tried buckets. */
  lemma TriedSpread(cfg: Config, key: Key, group: nat)
    requires cfg.Valid()
    ensures exists reach: set<nat> :: |reach| <= 8 && TriedIn(cfg, key, group, reach)
  {
    var buckets := seq(8, slice requires 0 <= slice < 8 => cfg.cheapHash(TriedGroup(key, group, slice)) % cfg.triedBuckets);
    var reach: set<nat> := set x | x in buckets;
    forall service: Service | cfg.group(service.ip) == group ensures cfg.TriedBucket(key, service) in reach {
      var slice := cfg.cheapHash(TriedAddress(key, service)) % 8;
      assert cfg.TriedBucket(key, service) == buckets[slice];
    }
    ImageSize(buckets, reach);
  }

  lemma {:induction false} ImageSize(list: seq<nat>, image: set<nat>)
    requires image == set x | x in list
    ensures |image| <= |list|
  {
    if list != [] {
      var rest := set x | x in list[1..];
      ImageSize(list[1..], rest);
      assert image == rest + {list[0]};
    }
  }
}
