/**
 The address manager as the object it is in the source (src/addrman.h:147-171): five tables that
 its methods update in place. `View` reads the object as a value, and each method is proved to
 take the view through the function of the same name in `AddrManState` or `AddrManOps`, whose
 lemmas carry the consistency theorem over to the object.
 */
module AddrMan {
  import opened AddrManState
  import Ops = AddrManOps
  import Effects = AddrManEffects
  import L = AddrManLoad
  import V = AddrManSurvival
  import Disk = AddrManStore
  import Test = AddrManCheck

  ghost function TableOf(a: array2<int>): Table
    reads a
  {
    seq(a.Length0, i requires 0 <= i < a.Length0 reads a =>
      seq(a.Length1, j requires 0 <= j < a.Length1 reads a => a[i, j]))
  }

  method WriteCell(a: array2<int>, b: nat, p: nat, id: int)
    requires b < a.Length0 && p < a.Length1
    modifies a
    ensures TableOf(a) == SetSlot(old(TableOf(a)), b, p, id)
  {
    a[b, p] := id;
    ghost var t, t' := old(TableOf(a)), TableOf(a);
    forall i | 0 <= i < a.Length0 ensures t'[i] == SetSlot(t, b, p, id)[i] {
      assert forall j | 0 <= j < a.Length1 :: t'[i][j] == SetSlot(t, b, p, id)[i][j];
    }
  }

  /** Reset every cell. */
  method Wipe(a: array2<int>)
    modifies a
    ensures TableOf(a) == seq(a.Length0, _ => seq(a.Length1, _ => EMPTY))
  {
    for b := 0 to a.Length0
      invariant forall i, j :: 0 <= i < b && 0 <= j < a.Length1 ==> a[i, j] == EMPTY
    {
      for p := 0 to a.Length1
        invariant forall i, j :: 0 <= i < b && 0 <= j < a.Length1 ==> a[i, j] == EMPTY
        invariant forall j :: 0 <= j < p ==> a[b, j] == EMPTY
      {
        a[b, p] := EMPTY;
      }
    }
    ghost var row := seq(a.Length1, _ => EMPTY);
    assert forall i | 0 <= i < a.Length0 :: TableOf(a)[i] == row;
  }

  class AddrManager {
    const cfg: Config
    var key: Key
    var idCount: int
    var infos: map<int, Info>
    var addrs: map<NetAddr, int>
    var random: seq<int>
    var nTried: int
    var nNew: int
    const newTable: array2<int>
    const triedTable: array2<int>

    ghost function View(): State
      reads this, newTable, triedTable
    {
      State(key, idCount, infos, addrs, random, nTried, TableOf(triedTable), nNew, TableOf(newTable))
    }

    ghost predicate Framed()
    {
      && cfg.Valid() && newTable != triedTable
      && newTable.Length0 == cfg.newBuckets && newTable.Length1 == cfg.bucketSize
      && triedTable.Length0 == cfg.triedBuckets && triedTable.Length1 == cfg.bucketSize
    }

    /** The tables agree; `Valid` adds that the times are in order. */
    ghost predicate InStep()
      reads this, newTable, triedTable
    {
      Framed() && Structured(cfg, View())
    }

    ghost predicate Valid()
      reads this, newTable, triedTable
    {
      Framed() && Consistent(cfg, View())
    }

    constructor (config: Config, randomKey: Key)
      requires config.Valid()
      ensures Valid() && cfg == config && View() == Ops.Fresh(config, randomKey)
      ensures fresh(newTable) && fresh(triedTable)
    {
      cfg := config;
      key, idCount, infos, addrs, random := randomKey, 0, map[], map[], [];
      nTried, nNew := 0, 0;
      newTable := new int[config.newBuckets, config.bucketSize]((_, _) => EMPTY);
      triedTable := new int[config.triedBuckets, config.bucketSize]((_, _) => EMPTY);
      new;
      ghost var row := seq(cfg.bucketSize, _ => EMPTY);
      assert forall i | 0 <= i < cfg.newBuckets :: TableOf(newTable)[i] == row;
      assert forall i | 0 <= i < cfg.triedBuckets :: TableOf(triedTable)[i] == row;
      Ops.FreshConsistent(cfg, randomKey);
    }

    method SwapRandom(i: nat, j: nat)
      requires i < |random| && j < |random| && random[i] in infos && random[j] in infos
      modifies this
      ensures View() == AddrManState.SwapRandom(old(View()), i, j)
    {
      if i == j { return; }
      var x, y := random[i], random[j];
      infos := infos[x := infos[x].(randomPos := j)];
      infos := infos[y := infos[y].(randomPos := i)];
      random := random[i := y];
      random := random[j := x];
    }

    method Create(service: Service, services: bv64, time: int, source: NetAddr) returns (id: int)
      modifies this
      ensures id == old(idCount) && View() == AddrManState.Create(old(View()), service, services, time, source)
    {
      id := idCount;
      idCount := idCount + 1;
      infos := infos[id := Info(service, services, time, source, 0, 0, 0, 0, false, -1)];
      addrs := addrs[service.ip := id];
      infos := infos[id := infos[id].(randomPos := |random|)];
      random := random + [id];
    }

    /** The entry is in neither table, as the source asserts. */
    method Delete(id: int)
      requires id in infos && !infos[id].inTried && infos[id].refCount == 0
      requires 0 <= infos[id].randomPos < |random|
      requires random[infos[id].randomPos] in infos && random[|random| - 1] in infos
      modifies this
      ensures View() == AddrManState.Delete(old(View()), id)
    {
      var ip := infos[id].service.ip;
      SwapRandom(infos[id].randomPos, |random| - 1);
      random := random[..|random| - 1];
      addrs := addrs - {ip};
      infos := infos - {id};
      nNew := nNew - 1;
    }

    method ClearNew(b: nat, p: nat)
      requires Framed() && b < cfg.newBuckets && p < cfg.bucketSize && RandomOk(View())
      requires newTable[b, p] != EMPTY ==>
        newTable[b, p] in infos && !infos[newTable[b, p]].inTried && infos[newTable[b, p]].refCount > 0
      modifies this, newTable
      ensures View() == AddrManState.ClearNew(old(View()), b, p)
      ensures newTable[b, p] == EMPTY
    {
      var id := newTable[b, p];
      assert View().newTable[b][p] == id;
      if id != EMPTY {
        assert PositionOk(View(), id) && RandomAtOk(View(), infos[id].randomPos) && RandomAtOk(View(), |random| - 1);
        infos := infos[id := infos[id].(refCount := infos[id].refCount - 1)];
        WriteCell(newTable, b, p, EMPTY);
        assert TableOf(newTable)[b][p] == newTable[b, p];
        if infos[id].refCount == 0 {
          Delete(id);
        }
      }
    }

    /** Move an entry from the new table to the tried table (src/addrman.cpp:151-197). */
    method MakeTried(id: int)
      requires InStep() && id in infos && !infos[id].inTried
      modifies this, newTable, triedTable
      ensures View() == Ops.MakeTried(cfg, old(View()), id)
    {
      ghost var s := View();
      LeaveNew(id);
      ghost var s2 := View();
      var b := cfg.TriedBucket(key, infos[id].service);
      var p := cfg.BucketPosition(key, false, b, infos[id].service);
      MakeRoom(id, b, p);
      Ops.MakeTriedIs(cfg, s, id, s2, b, p, View(), Ops.MakeTried(cfg, s, id));
      TakeFreeSlot(id, b, p);
    }

    /** The slot is free, as the source asserts. */
    method TakeFreeSlot(id: int, b: nat, p: nat)
      requires Framed() && id in infos && b < cfg.triedBuckets && p < cfg.bucketSize && View().triedTable[b][p] == EMPTY
      modifies this, triedTable
      ensures View() == AddrManState.EnterTried(old(View()), id, b, p)
    {
      assert View().triedTable[b][p] == triedTable[b, p];
      assert triedTable[b, p] == EMPTY;
      EnterTried(id, b, p);
    }

    /** Take the entry out of all new buckets and stop counting it. */
    method LeaveNew(id: int)
      requires InStep() && id in infos && !infos[id].inTried
      modifies this, newTable
      ensures id in infos && infos[id].refCount == 0 && infos[id].service == old(infos)[id].service
      ensures Inv(cfg, View(), {}, {id}) && key == old(key)
      ensures var s1 := Ops.ReleaseOn(cfg, old(View()), id, 0); View() == s1.(nNew := s1.nNew - 1)
    {
      ghost var s := View();
      DropAllReferences(id);
      ghost var s1 := View();
      nNew := nNew - 1;
      Ops.MakeTriedSteps(cfg, s, id, s1, View());
      assert infos[id].refCount == 0;
    }

    method EnterTried(id: int, b: nat, p: nat)
      requires Framed() && id in infos && b < cfg.triedBuckets && p < cfg.bucketSize
      modifies this, triedTable
      ensures View() == AddrManState.EnterTried(old(View()), id, b, p)
    {
      WriteCell(triedTable, b, p, id);
      nTried := nTried + 1;
      infos := infos[id := infos[id].(inTried := true)];
    }

    method Evict(b: nat, p: nat) returns (id: int)
      requires Framed() && b < cfg.triedBuckets && p < cfg.bucketSize && triedTable[b, p] in infos
      modifies this, triedTable
      ensures id == old(triedTable[b, p]) == old(View().triedTable[b][p])
      ensures View() == AddrManState.Evict(old(View()), b, p)
    {
      id := triedTable[b, p];
      assert View().triedTable[b][p] == id;
      infos := infos[id := infos[id].(inTried := false)];
      WriteCell(triedTable, b, p, EMPTY);
      nTried := nTried - 1;
    }

    method Readmit(id: int, b: nat, p: nat)
      requires Framed() && id in infos && b < cfg.newBuckets && p < cfg.bucketSize
      modifies this, newTable
      ensures View() == WriteSlot(old(View()).(nNew := old(View()).nNew + 1), b, p, id, id, 1)
    {
      infos := infos[id := infos[id].(refCount := 1)];
      WriteCell(newTable, b, p, id);
      nNew := nNew + 1;
    }

    method DropAllReferences(id: int)
      requires Framed() && id in infos
      modifies this, newTable
      ensures View() == Ops.ReleaseOn(cfg, old(View()), id, 0)
    {
      ghost var r := Ops.ReleaseOn(cfg, View(), id, 0);
      for bucket := 0 to cfg.newBuckets
        invariant id in infos && Ops.ReleaseOn(cfg, View(), id, bucket) == r
      {
        DropFrom(id, bucket);
      }
    }

    method DropFrom(id: int, bucket: nat)
      requires Framed() && id in infos && bucket < cfg.newBuckets
      modifies this, newTable
      ensures id in infos && View() == Ops.ReleaseFrom(cfg, old(View()), id, bucket)
    {
      var pos := cfg.BucketPosition(key, true, bucket, infos[id].service);
      assert View().newTable[bucket][pos] == newTable[bucket, pos];
      if newTable[bucket, pos] == id {
        WriteCell(newTable, bucket, pos, EMPTY);
        infos := infos[id := infos[id].(refCount := infos[id].refCount - 1)];
      }
    }

    /** Send the occupant of a tried slot, if any, back to the new table. */
    method MakeRoom(id: int, b: nat, p: nat)
      requires Framed() && Inv(cfg, View(), {}, {id}) && b < cfg.triedBuckets && p < cfg.bucketSize
      modifies this, newTable, triedTable
      ensures View() == Ops.EvictToNew(cfg, old(View()), id, b, p)
    {
      ghost var s := View();
      assert s.triedTable[b][p] == triedTable[b, p];
      if triedTable[b, p] != EMPTY {
        EvictKeeps(cfg, s, {}, {id}, b, p);
        assert triedTable[b, p] in infos;
        var victim := Evict(b, p);
        ghost var s1 := View();
        var ub := cfg.NewBucket(key, infos[victim].service, infos[victim].source);
        var up := cfg.BucketPosition(key, true, ub, infos[victim].service);
        Ops.EvictToNewIs(cfg, s, id, b, p, victim, s1, {id} + {victim}, ub, up, Ops.EvictToNew(cfg, s, id, b, p));
        assert s1.newTable[ub][up] == newTable[ub, up];
        if newTable[ub, up] != EMPTY { OccupantOk(cfg, s1, {} + ({id} + {victim}), ub, up); }
        ClearNew(ub, up);
        assert newTable[ub, up] == EMPTY;
        Readmit(victim, ub, up);
      }
    }

    method Find(service: Service) returns (id: int)
      requires InStep()
      ensures id == Ops.FindExact(View(), service)
    {
      id := EMPTY;
      if service.ip in addrs {
        assert IpOk(View(), service.ip);
        if infos[addrs[service.ip]].service == service {
          id := addrs[service.ip];
        }
      }
    }

    /** Mark an address as reachable; `start` is the random bucket the search begins at. */
    method Good(service: Service, time: int, start: nat)
      requires Valid() && start < cfg.newBuckets
      modifies this, newTable, triedTable
      ensures InStep() && View() == Ops.Good(cfg, old(View()), service, time)
      ensures Valid() <==> Ops.FindExact(old(View()), service) == EMPTY || time > 0
    {
      ghost var s := View();
      Ops.GoodKeeps(cfg, s, service, time, Ops.Good(cfg, s, service, time));
      var id := Find(service);
      if id == EMPTY { return; }
      infos := infos[id := infos[id].(lastSuccess := time, lastTry := time, time := time, attempts := 0)];
      TouchKeeps(cfg, s, {}, {}, id, infos[id]);
      if infos[id].inTried { return; }
      var found := FindBucket(id, start);
      if !found { return; }
      MakeTried(id);
    }

    /** Search the new buckets cyclically from a random one. */
    method FindBucket(id: int, start: nat) returns (found: bool)
      requires Framed() && id in infos && start < cfg.newBuckets
      ensures found <==> Refs(cfg, key, View().newTable, infos[id].service, id) != {}
    {
      ghost var refs := Refs(cfg, key, View().newTable, infos[id].service, id);
      for n := 0 to cfg.newBuckets
        invariant forall b :: b in refs ==> !(start <= b < start + n) && !(start <= b + cfg.newBuckets < start + n)
      {
        var bucket := (n + start) % cfg.newBuckets;
        ModWrap(n + start, cfg.newBuckets);
        var pos := cfg.BucketPosition(key, true, bucket, infos[id].service);
        assert View().newTable[bucket][pos] == newTable[bucket, pos];
        if newTable[bucket, pos] == id {
          assert bucket in refs;
          return true;
        }
        assert bucket !in refs;
      }
      assert forall b :: b in refs ==> b < cfg.newBuckets;
      return false;
    }

    method Attempt(service: Service, time: int)
      requires Valid()
      modifies this
      ensures InStep() && View() == Ops.Attempt(old(View()), service, time)
      ensures Valid() <==> Ops.FindExact(old(View()), service) == EMPTY || time >= 0
    {
      ghost var s := View();
      Ops.AttemptKeeps(cfg, s, service, time, Ops.Attempt(s, service, time));
      var id := Find(service);
      if id != EMPTY {
        infos := infos[id := infos[id].(lastTry := time, attempts := infos[id].attempts + 1)];
      }
    }

    method Connected(service: Service, time: int)
      requires Valid()
      modifies this
      ensures Valid() && View() == Ops.Connected(old(View()), service, time)
    {
      ghost var s := View();
      Ops.ConnectedKeeps(cfg, s, service, time, Ops.Connected(s, service, time));
      var id := Find(service);
      if id != EMPTY && time - infos[id].time > 20 * 60 {
        infos := infos[id := infos[id].(time := time)];
      }
    }

    /** Record an announced address; the result says whether it was unknown (src/addrman.cpp:246-313). */
    method Add(a: Ops.Announced, source: NetAddr, penalty: int, now: int, rnd: nat) returns (isNew: bool)
      requires Valid()
      modifies this, newTable
      ensures Valid() && View() == Ops.Add(cfg, old(View()), a, source, penalty, now, rnd).0
      ensures isNew == Ops.Add(cfg, old(View()), a, source, penalty, now, rnd).1
    {
      ghost var s := View();
      Ops.AddKeeps(cfg, s, a, source, penalty, now, rnd, Ops.Add(cfg, s, a, source, penalty, now, rnd));
      if !cfg.routable(a.service.ip) {
        return false;
      }
      if a.service.ip in addrs {
        isNew := false;
        AddKnown(a, source, penalty, now, rnd);
      } else {
        isNew := true;
        AddFresh(a, source, penalty, now);
      }
    }

    method AddFresh(a: Ops.Announced, source: NetAddr, penalty: int, now: int)
      requires InStep() && a.service.ip !in addrs
      modifies this, newTable
      ensures View() == Ops.AddFresh(cfg, old(View()), a, source, penalty, now)
    {
      ghost var s := View();
      var id := CreateCounted(a.service, a.services, Ops.Max0(a.time - penalty), source);
      Ops.AddFreshSteps(cfg, s, a, source, penalty, now, id, View(), Ops.AddFresh(cfg, s, a, source, penalty, now));
      Insert(id, source, now, {id});
    }

    method CreateCounted(service: Service, services: bv64, time: int, source: NetAddr) returns (id: int)
      modifies this
      ensures id == old(idCount) && View() == Ops.Counted(old(View()), service, services, time, source)
    {
      id := Create(service, services, time, source);
      nNew := nNew + 1;
    }

    method AddKnown(a: Ops.Announced, source: NetAddr, penalty: int, now: int, rnd: nat)
      requires InStep() && a.service.ip in addrs
      modifies this, newTable
      ensures View() == Ops.AddKnown(cfg, old(View()), a, source, penalty, now, rnd)
    {
      ghost var s := View();
      assert IpOk(s, a.service.ip);
      var id := addrs[a.service.ip];
      RefCountIs(cfg, s, {} + {}, id);
      infos := infos[id := Ops.Refreshed(infos[id], a, penalty, now)];
      TouchKeeps(cfg, s, {}, {}, id, infos[id]);
      if Ops.Eligible(infos[id], a, rnd) {
        Insert(id, source, now, {});
      }
    }

    method Attach(id: int, b: nat, p: nat)
      requires Framed() && id in infos && b < cfg.newBuckets && p < cfg.bucketSize
      modifies this, newTable
      ensures View() == AddrManState.Attach(old(View()), id, b, p)
    {
      infos := infos[id := infos[id].(refCount := infos[id].refCount + 1)];
      WriteCell(newTable, b, p, id);
    }

    method Insert(id: int, source: NetAddr, now: int, ghost counted: set<int>)
      requires Framed() && id in infos && Inv(cfg, View(), counted, {}) && !infos[id].inTried
      modifies this, newTable
      ensures View() == Ops.Insert(cfg, old(View()), counted, id, source, now)
    {
      ghost var s := View();
      var b := cfg.NewBucket(key, infos[id].service, source);
      var p := cfg.BucketPosition(key, true, b, infos[id].service);
      var there := newTable[b, p];
      assert s.newTable[b][p] == there;
      Ops.InsertAt(cfg, s, counted, id, source, now, b, p, Ops.Insert(cfg, s, counted, id, source, now));
      if there == id { return; }
      if there == EMPTY || infos[there].IsTerrible(now) || (infos[there].refCount > 1 && infos[id].refCount == 0) {
        if there != EMPTY { OccupantOk(cfg, s, counted + {}, b, p); }
        ClearNew(b, p);
        Attach(id, b, p);
      } else if infos[id].refCount == 0 {
        Delete(id);
      }
    }

    /** Answer a getaddr request; `draws` supplies the random numbers. */
    method GetAddr(draws: nat -> nat, now: int) returns (ids: seq<int>)
      requires Valid()
      modifies this
      ensures Valid() && multiset(random) == old(multiset(random))
      ensures |ids| <= Ops.GetAddrLimit(old(|random|)) && Ops.Answer(View(), random, now, ids)
      ensures |ids| < Ops.GetAddrLimit(old(|random|)) ==> forall id :: id in infos ==> infos[id].IsTerrible(now) || id in ids
    {
      ghost var s := View();
      var limit := Ops.GetAddrLimit(|random|);
      ids := [];
      var n := 0;
      Ops.ShuffleKeeps(cfg, s, 0, limit, draws, now, [], Ops.Shuffle(s, 0, limit, draws, now, []).0);
      Ops.ShuffleAnswers(s, 0, limit, draws, now, []);
      Effects.AnswerComplete(s, 0, limit, draws, now, []);
      while n < |random| && |ids| < limit
        invariant n <= |random| && RandomOk(View())
        invariant Ops.Shuffle(View(), n, limit, draws, now, ids) == Ops.Shuffle(s, 0, limit, draws, now, [])
        decreases |random| - n
      {
        ids := Pick(n, draws(n), now, ids);
        n := n + 1;
      }
    }

    method Pick(n: nat, raw: nat, now: int, picked: seq<int>) returns (ids: seq<int>)
      requires RandomOk(View()) && n < |random|
      modifies this
      ensures View() == Ops.ShuffleStep(old(View()), n, raw, now, picked).0
      ensures ids == Ops.ShuffleStep(old(View()), n, raw, now, picked).1
    {
      var j := Ops.Draw(raw, n, |random|);
      SwapRandomOk(View(), n, j);
      SwapRandom(n, j);
      assert RandomAtOk(View(), n);
      ids := if infos[random[n]].IsTerrible(now) then picked else picked + [random[n]];
    }

    // ----- the self test (src/addrman.cpp:376-450) -----

    /** Test the tables against each other; zero means that nothing was found. */
    method Check() returns (code: int)
      requires Framed() && IdsOk(View())
      modifies this`addrs
      ensures code == 0 <==> Test.Passes(cfg, old(View()))
      ensures Test.AddrsLive(old(View())) ==> (code == 0 <==> Consistent(cfg, old(View())) && key != Test.NULL_KEY)
      ensures Consistent(cfg, old(View())) ==> View() == old(View())
    {
      ghost var s := View();
      Test.PassesIff(cfg, s);
      if |random| != nTried + nNew { return -7; }
      var tried, left;
      code, tried, left := CheckEntries();
      if code != 0 { return; }
      Test.ScansStart(cfg, s);
      if |tried| != nTried { return -9; }
      if |left.Keys| != nNew { return -10; }
      code, tried := CheckTried(tried, s);
      if code != 0 { return; }
      code, left := CheckNew(left, s);
      if code != 0 { return; }
      Test.TriedScanEnd(cfg, s, tried);
      Test.NewScanEnd(cfg, s, left);
      if |tried| != 0 { return -13; }
      if |left.Keys| != 0 { return -15; }
      if key == Test.NULL_KEY { return -16; }
    }

    /** The pass over the entries in ascending order of ids. */
    method CheckEntries() returns (code: int, tried: set<int>, left: map<int, int>)
      requires IdsOk(View())
      modifies this`addrs
      ensures code == 0 <==> Test.AllEntries(old(View()))
      ensures code == 0 ==> tried == TriedIds(old(View())) && left == Test.RefCounts(old(View()))
      ensures code == 0 ==> left.Keys == NewIds(old(View()))
      ensures AddrsOk(old(View())) ==> addrs == old(addrs)
    {
      ghost var s := View();
      code, tried, left := 0, {}, map[];
      var n := 0;
      while n < idCount
        invariant 0 <= n <= idCount && code == 0 && Test.Collected(s, n, tried, left)
        invariant forall id {:trigger Test.EntryTest(s, id)} :: id in infos && id < n ==> Test.EntryTest(s, id)
        invariant forall ip {:trigger Test.Read(addrs, ip)} :: Test.Read(addrs, ip) == Test.Read(s.addrs, ip)
        invariant AddrsOk(s) ==> addrs == s.addrs
      {
        ghost var tried0, left0 := tried, left;
        if n in infos {
          assert AddrsOk(s) ==> AddrOk(s, n);
          code := CheckEntry(n, s);
          if code != 0 { return; }
          if infos[n].inTried {
            tried := tried + {n};
          } else {
            left := left[n := infos[n].refCount];
          }
        }
        Test.CollectOne(s, n, n + 1, tried0, left0, tried, left);
        n := n + 1;
      }
      Test.CollectedAll(s, tried, left);
    }

    method CheckEntry(n: int, ghost s: State) returns (code: int)
      requires n in infos && s == View().(addrs := s.addrs)
      requires forall ip {:trigger Test.Read(addrs, ip)} :: Test.Read(addrs, ip) == Test.Read(s.addrs, ip)
      modifies this`addrs
      ensures code == 0 <==> Test.EntryTest(s, n)
      ensures forall ip {:trigger Test.Read(addrs, ip)} :: Test.Read(addrs, ip) == Test.Read(s.addrs, ip)
      ensures infos[n].service.ip in old(addrs) ==> addrs == old(addrs)
    {
      var info := infos[n];
      if info.inTried {
        if info.lastSuccess == 0 { return -1; }
        if info.refCount != 0 { return -2; }
      } else {
        if info.refCount < 0 || info.refCount > NEW_BUCKETS_PER_ADDRESS { return -3; }
        if info.refCount == 0 { return -4; }
      }
      assert Test.Read(addrs, info.service.ip) == Test.Read(s.addrs, info.service.ip);
      if info.service.ip !in addrs {
        ghost var before := addrs;
        addrs := addrs[info.service.ip := 0];
        forall ip ensures Test.Read(addrs, ip) == Test.Read(s.addrs, ip) {
          assert Test.Read(before, ip) == Test.Read(s.addrs, ip);
        }
      }
      if addrs[info.service.ip] != n { return -5; }
      if info.randomPos < 0 || info.randomPos >= |random| || random[info.randomPos] != n { return -14; }
      if info.lastTry < 0 { return -6; }
      if info.lastSuccess < 0 { return -8; }
      code := 0;
    }

    /** Every occupied tried slot uses up one of the tried ids. */
    method CheckTried(tried: set<int>, ghost s: State) returns (code: int, rest: set<int>)
      requires Framed() && IdsOk(s) && s == View().(addrs := s.addrs) && Test.TriedScanned(cfg, s, 0, 0, tried)
      ensures code != 0 ==> !TriedOk(cfg, s)
      ensures code == 0 ==> Test.TriedScanned(cfg, s, cfg.triedBuckets, 0, rest)
    {
      rest := tried;
      for n := 0 to cfg.triedBuckets
        invariant Test.TriedScanned(cfg, s, n, 0, rest)
      {
        code, rest := CheckTriedRow(n, rest, s);
        if code != 0 { return; }
        Test.TriedScanRow(cfg, s, n, n + 1, rest);
      }
      code := 0;
    }

    method CheckTriedRow(n: nat, tried: set<int>, ghost s: State) returns (code: int, rest: set<int>)
      requires Framed() && IdsOk(s) && s == View().(addrs := s.addrs) && n < cfg.triedBuckets
      requires Test.TriedScanned(cfg, s, n, 0, tried)
      ensures code != 0 ==> !TriedOk(cfg, s)
      ensures code == 0 ==> Test.TriedScanned(cfg, s, n, cfg.bucketSize, rest)
    {
      rest := tried;
      for i := 0 to cfg.bucketSize
        invariant Test.TriedScanned(cfg, s, n, i, rest)
      {
        code, rest := CheckTriedSlot(n, i, rest, s, i + 1);
        if code != 0 {
          return;
        }
      }
      code := 0;
    }

    method CheckTriedSlot(n: nat, i: nat, tried: set<int>, ghost s: State, ghost i': nat) returns (code: int, rest: set<int>)
      requires Framed() && IdsOk(s) && s == View().(addrs := s.addrs) && n < cfg.triedBuckets && i < cfg.bucketSize && i' == i + 1
      requires Test.TriedScanned(cfg, s, n, i, tried)
      ensures code != 0 ==> !TriedOk(cfg, s)
      ensures code == 0 ==> Test.TriedScanned(cfg, s, n, i', rest)
    {
      var id := triedTable[n, i];
      assert s.triedTable[n][i] == id;
      code, rest := 0, tried;
      if id != EMPTY {
        code := if id !in tried then -11 else if cfg.TriedBucket(key, infos[id].service) != n then -17
                else if cfg.BucketPosition(key, false, n, infos[id].service) != i then -18 else 0;
        if code != 0 {
          Test.TriedScanFails(cfg, s, n, i, tried);
          return;
        }
        rest := tried - {id};
      }
      Test.TriedScanStep(cfg, s, n, i, i', tried, rest);
    }

    /** Every occupied new slot counts one reference of its entry down. */
    method CheckNew(counts: map<int, int>, ghost s: State) returns (code: int, left: map<int, int>)
      requires Framed() && IdsOk(s) && s == View().(addrs := s.addrs) && Test.NewScanned(cfg, s, 0, 0, counts)
      ensures code != 0 ==> !(NewOk(cfg, s) && Test.AllRefs(cfg, s))
      ensures code == 0 ==> Test.NewScanned(cfg, s, cfg.newBuckets, 0, left)
    {
      left := counts;
      for n := 0 to cfg.newBuckets
        invariant Test.NewScanned(cfg, s, n, 0, left)
      {
        code, left := CheckNewRow(n, left, s);
        if code != 0 { return; }
        Test.NewScanRow(cfg, s, n, n + 1, left);
      }
      code := 0;
    }

    method CheckNewRow(n: nat, counts: map<int, int>, ghost s: State) returns (code: int, left: map<int, int>)
      requires Framed() && IdsOk(s) && s == View().(addrs := s.addrs) && n < cfg.newBuckets
      requires Test.NewScanned(cfg, s, n, 0, counts)
      ensures code != 0 ==> !(NewOk(cfg, s) && Test.AllRefs(cfg, s))
      ensures code == 0 ==> Test.NewScanned(cfg, s, n, cfg.bucketSize, left)
    {
      left := counts;
      for i := 0 to cfg.bucketSize
        invariant Test.NewScanned(cfg, s, n, i, left)
      {
        var id := newTable[n, i];
        ghost var before := left;
        assert s.newTable[n][i] == id;
        if id != EMPTY {
          code := if id !in left then -12 else if cfg.BucketPosition(key, true, n, infos[id].service) != i then -19 else 0;
          if code != 0 {
            Test.NewScanFails(cfg, s, n, i, left);
            return;
          }
          if left[id] - 1 == 0 {
            left := left - {id};
          } else {
            left := left[id := left[id] - 1];
          }
        }
        Test.NewScanStep(cfg, s, n, i, i + 1, before, left);
      }
      code := 0;
    }

    // ----- saving and loading (src/addrman.h:257-424) -----

    method Serialize() returns (img: L.Image)
      requires Valid()
      ensures img == Disk.Save(cfg, View())
    {
      ghost var s := View();
      Disk.OrderKnown(s);
      Disk.SavedCounts(cfg, s);
      var entries, index := NewEntries();
      var tried := TriedEntries();
      entries := entries + tried;
      var rows := Rows(index);
      Disk.EntryListJoin(infos, Disk.Ids(infos, idCount, false), Disk.Ids(infos, idCount, true));
      img := L.Image(1, key, nNew, nTried, cfg.newBuckets, entries, rows);
    }

    /** First pass: the entries with references, and the index recorded for every id. */
    method NewEntries() returns (entries: seq<L.Stored>, index: map<int, nat>)
      requires Valid()
      ensures Disk.Known(infos, Disk.Ids(infos, idCount, false))
      ensures entries == Disk.EntryList(infos, Disk.Ids(infos, idCount, false))
      ensures Disk.Recorded(infos, index, idCount)
    {
      entries, index := [], map[];
      var n := 0;
      while n < idCount
        invariant 0 <= n <= idCount && Disk.Known(infos, Disk.Ids(infos, n, false))
        invariant entries == Disk.EntryList(infos, Disk.Ids(infos, n, false))
        invariant Disk.Recorded(infos, index, n)
      {
        Disk.EntryListStep(infos, n, false);
        if n in infos {
          Disk.RecordOne(infos, index, n, index[n := |entries|]);
          index := index[n := |entries|];
          if infos[n].refCount != 0 {
            entries := entries + [L.Store(infos[n])];
          }
        }
        n := n + 1;
      }
    }

    method TriedEntries() returns (entries: seq<L.Stored>)
      requires Valid()
      ensures Disk.Known(infos, Disk.Ids(infos, idCount, true))
      ensures entries == Disk.EntryList(infos, Disk.Ids(infos, idCount, true))
    {
      entries := [];
      var n := 0;
      while n < idCount
        invariant 0 <= n <= idCount && Disk.Known(infos, Disk.Ids(infos, n, true))
        invariant entries == Disk.EntryList(infos, Disk.Ids(infos, n, true))
      {
        Disk.EntryListStep(infos, n, true);
        if n in infos && infos[n].inTried {
          entries := entries + [L.Store(infos[n])];
        }
        n := n + 1;
      }
    }

    method Rows(index: map<int, nat>) returns (rows: seq<seq<int>>)
      requires Valid()
      requires Disk.Recorded(infos, index, idCount)
      ensures |rows| == cfg.newBuckets && forall b {:trigger rows[b]} :: 0 <= b < |rows| ==> rows[b] == Disk.RowOf(View(), b, cfg.bucketSize)
    {
      rows := [];
      for bucket := 0 to cfg.newBuckets
        invariant |rows| == bucket && forall b {:trigger rows[b]} :: 0 <= b < |rows| ==> rows[b] == Disk.RowOf(View(), b, cfg.bucketSize)
      {
        var row := Row(bucket, index);
        rows := rows + [row];
      }
    }

    method Row(b: nat, index: map<int, nat>) returns (row: seq<int>)
      requires Valid() && b < cfg.newBuckets
      requires Disk.Recorded(infos, index, idCount)
      ensures row == Disk.RowOf(View(), b, cfg.bucketSize)
    {
      row := [];
      for p := 0 to cfg.bucketSize
        invariant row == Disk.RowOf(View(), b, p)
      {
        var id := newTable[b, p];
        assert View().newTable[b][p] == id && NewSlotOk(cfg, View(), b, p);
        if id != EMPTY {
          assert Disk.RecordOk(infos, index, id);
          row := row + [index[id]];
        }
      }
    }

    /** `Clear` leaves the maps of entries and addresses as they are. */
    method Clear(randomKey: Key)
      requires Framed()
      modifies this, newTable, triedTable
      ensures View() == Ops.Fresh(cfg, randomKey).(infos := old(infos), addrs := old(addrs))
    {
      random := [];
      key := randomKey;
      Wipe(newTable);
      Wipe(triedTable);
      idCount, nTried, nNew := 0, 0, 0;
    }

    /** `Unserialize` into a manager without entries. */
    method Unserialize(img: L.Image)
      requires Framed() && infos == map[] && addrs == map[] && L.Whole(img)
      modifies this, newTable, triedTable
      ensures Framed() && View() == L.Load(cfg, img)
      ensures Valid() <==> V.TimesGood(cfg, img) && V.NoneShared(cfg, img)
    {
      Clear(img.key);
      var usable := L.Usable(cfg, img);
      LoadEntries(img, usable);
      ghost var s2 := View();
      LoadReferences(img, usable, s2);
      assert View() == L.LoadTables(cfg, img);
      L.LoadTablesKeeps(cfg, img);
      V.LoadConsistent(cfg, img);
      Prune();
    }

    method LoadEntries(img: L.Image, usable: bool)
      requires Framed() && L.Whole(img) && View() == Ops.Fresh(cfg, img.key)
      modifies this, newTable, triedTable
      ensures View() == L.LoadTrieds(cfg, L.LoadNews(cfg, usable, old(View()), img.entries[..img.nNew]), img.entries[img.nNew..])
    {
      LoadNewEntries(img, usable);
      LoadTriedEntries(img);
    }

    method LoadNewEntries(img: L.Image, usable: bool)
      requires Framed() && L.Whole(img)
      modifies this, newTable
      ensures View() == L.LoadNews(cfg, usable, old(View()), img.entries[..img.nNew])
    {
      ghost var s, es := View(), img.entries[..img.nNew];
      for n := 0 to img.nNew
        invariant View() == L.LoadNews(cfg, usable, s, es[..n])
      {
        assert es[..n + 1][..n] == es[..n] && es[..n + 1][n] == img.entries[n];
        LoadNew(img.entries[n], usable);
      }
      assert es[..img.nNew] == es;
    }

    method LoadTriedEntries(img: L.Image)
      requires Framed() && L.Whole(img)
      modifies this, triedTable
      ensures View() == L.LoadTrieds(cfg, old(View()), img.entries[img.nNew..])
    {
      ghost var s, ts := View(), img.entries[img.nNew..];
      for n := 0 to img.nTried
        invariant View() == L.LoadTrieds(cfg, s, ts[..n])
      {
        assert ts[..n + 1][..n] == ts[..n] && ts[..n + 1][n] == img.entries[img.nNew + n];
        LoadTried(img.entries[img.nNew + n]);
      }
      assert ts[..img.nTried] == ts;
    }

    method Restore(e: L.Stored) returns (id: int)
      modifies this
      ensures id == old(idCount) && View() == L.Restore(old(View()), e)
    {
      id := Create(e.service, e.services, e.time, e.source);
      infos := infos[id := infos[id].(lastSuccess := e.lastSuccess, attempts := e.attempts)];
    }

    method LoadNew(e: L.Stored, usable: bool)
      requires Framed()
      modifies this, newTable
      ensures View() == L.AddNew(cfg, usable, old(View()), e)
    {
      var id := Restore(e);
      nNew := nNew + 1;
      if !usable {
        var b := cfg.NewBucket(key, e.service, e.source);
        var p := cfg.BucketPosition(key, true, b, e.service);
        assert View().newTable[b][p] == newTable[b, p];
        if newTable[b, p] == EMPTY {
          Attach(id, b, p);
        }
      }
    }

    method LoadTried(e: L.Stored)
      requires Framed()
      modifies this, triedTable
      ensures View() == L.AddTried(cfg, old(View()), e)
    {
      var b := cfg.TriedBucket(key, e.service);
      var p := cfg.BucketPosition(key, false, b, e.service);
      assert View().triedTable[b][p] == triedTable[b, p];
      if triedTable[b, p] == EMPTY {
        var id := Restore(e);
        EnterTried(id, b, p);
      }
    }

    method LoadReferences(img: L.Image, usable: bool, ghost s: State)
      requires Framed() && L.Whole(img) && s == View()
      modifies this, newTable
      ensures View() == L.LoadRows(cfg, usable, img.nNew, s, img.rows)
    {
      for b := 0 to |img.rows|
        invariant View() == L.LoadRows(cfg, usable, img.nNew, s, img.rows[..b])
      {
        assert img.rows[..b + 1][..b] == img.rows[..b];
        LoadRow(b, img.rows[b], usable, img.nNew, View());
      }
      assert img.rows[..|img.rows|] == img.rows;
    }

    method LoadRow(b: nat, row: seq<int>, usable: bool, n: nat, ghost s: State)
      requires Framed() && s == View()
      modifies this, newTable
      ensures View() == L.LoadRow(cfg, usable, n, s, b, row)
    {
      for k := 0 to |row|
        invariant View() == L.LoadRow(cfg, usable, n, s, b, row[..k])
      {
        assert row[..k + 1][..k] == row[..k];
        LoadReference(b, row[k], usable, n);
      }
      assert row[..|row|] == row;
    }

    method LoadReference(b: nat, index: int, usable: bool, n: nat)
      requires Framed()
      modifies this, newTable
      ensures View() == L.PlaceRef(cfg, usable, n, old(View()), b, index)
    {
      if usable && b < cfg.newBuckets && 0 <= index < n && index in infos {
        var p := cfg.BucketPosition(key, true, b, infos[index].service);
        assert View().newTable[b][p] == newTable[b, p];
        if newTable[b, p] == EMPTY && infos[index].refCount < NEW_BUCKETS_PER_ADDRESS {
          Attach(index, b, p);
        }
      }
    }

    /** Delete the entries that got no reference. */
    method Prune()
      requires Framed() && idCount >= 0 && L.Loading(cfg, View())
      modifies this
      ensures View() == L.Prune(old(View()), old(idCount))
    {
      ghost var s := View();
      var count := idCount;
      for n := 0 to count
        invariant View() == L.Prune(s, n)
      {
        L.PruneKeeps(cfg, s, n);
        PruneOne(n);
      }
    }

    method PruneOne(id: int)
      requires Framed() && L.Loading(cfg, View())
      modifies this
      ensures View() == L.PruneOne(old(View()), id)
    {
      if id in infos && !infos[id].inTried && infos[id].refCount == 0 {
        L.LooseDeletable(cfg, View(), id);
        Delete(id);
      }
    }
  }

  lemma ModWrap(x: nat, n: nat)
    requires x < 2 * n
    ensures x % n == if x < n then x else x - n
  {
    var q, r := x / n, x % n;
    assert x == n * q + r;
    assert q >= 2 ==> n * q >= n * 2;
    assert q == 1 ==> n * q == n;
  }
}
