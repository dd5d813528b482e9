/**
 Loading a saved address manager into a newly constructed one (src/addrman.h:308-408). The saved form is a
 record of the fields in the order they are written; its bytes are not modelled.
 */
module AddrManLoad {
  import opened AddrManState
  import Ops = AddrManOps

  /** The fields of an entry that are saved. */
  datatype Stored = Stored(service: Service, services: bv64, time: int, source: NetAddr, lastSuccess: int, attempts: int)

  /** The new entries come first among the entries; a row lists the indices found in one new bucket. */
  datatype Image = Image(version: nat, key: Key, nNew: nat, nTried: nat, buckets: nat,
                         entries: seq<Stored>, rows: seq<seq<int>>)

  /** As many entries and rows as announced. */
  predicate Whole(img: Image) {
    |img.entries| == img.nNew + img.nTried && |img.rows| == img.buckets
  }

  function Store(i: Info): Stored {
    Stored(i.service, i.services, i.time, i.source, i.lastSuccess, i.attempts)
  }

  // ----- the steps -----

  predicate Usable(cfg: Config, img: Image) {
    img.version == 1 && img.buckets == cfg.newBuckets
  }

  /** Entries in neither table. */
  function LooseIds(st: State): set<int> {
    set id | id in st.infos && !st.infos[id].inTried && st.infos[id].refCount == 0
  }

  /** The invariant while loading: the tables agree but for loose entries, which `nNew` counts. Nothing is said
      about the address map, since an image may hold an address more than once. */
  ghost predicate Loading(cfg: Config, st: State) {
    Tabled(cfg, st, LooseIds(st), {})
  }

  lemma LoadingFrom(cfg: Config, st: State, counted: set<int>)
    requires Tabled(cfg, st, counted, {})
    ensures Loading(cfg, st) && LooseIds(st) == counted
  {
    forall id ensures id in counted <==> id in LooseIds(st) {
      if id in st.infos {
        assert EntryOk(cfg, st, id, counted + {});
      }
    }
    assert counted == LooseIds(st);
  }

  /** Create an entry from its saved fields. */
  function Restore(st: State, e: Stored): (r: State)
    ensures st.idCount in r.infos && r.infos[st.idCount].service == e.service
    ensures r.key == st.key && r.newTable == st.newTable && r.triedTable == st.triedTable
    ensures r.addrs == st.addrs[e.service.ip := st.idCount]
  {
    var r := Create(st, e.service, e.services, e.time, e.source);
    var id := st.idCount;
    r.(infos := r.infos[id := r.infos[id].(lastSuccess := e.lastSuccess, attempts := e.attempts)])
  }

  lemma RestoreKeeps(cfg: Config, st: State, e: Stored)
    requires Loading(cfg, st)
    ensures Tabled(cfg, Restore(st, e), LooseIds(st), {st.idCount})
  {
    CreateKeeps(cfg, st, LooseIds(st), {}, e.service, e.services, e.time, e.source);
    assert {} + {st.idCount} == {st.idCount};
    var r := Create(st, e.service, e.services, e.time, e.source);
    TouchKeeps(cfg, r, LooseIds(st), {st.idCount}, st.idCount,
               r.infos[st.idCount].(lastSuccess := e.lastSuccess, attempts := e.attempts));
  }

  /** A new entry, counted. */
  function Counted(st: State, e: Stored): (r: State)
    ensures st.idCount in r.infos && r.infos[st.idCount].service == e.service
    ensures r.key == st.key && r.newTable == st.newTable && r.triedTable == st.triedTable
    ensures r.addrs == st.addrs[e.service.ip := st.idCount]
  {
    var r := Restore(st, e);
    r.(nNew := r.nNew + 1)
  }

  lemma CountedKeeps(cfg: Config, st: State, e: Stored)
    requires Loading(cfg, st)
    ensures Loading(cfg, Counted(st, e))
  {
    var id := st.idCount;
    RestoreKeeps(cfg, st, e);
    CountKeeps(cfg, Restore(st, e), LooseIds(st), {id}, id);
    assert {id} - {id} == {};
    LoadingFrom(cfg, Counted(st, e), LooseIds(st) + {id});
  }

  /** When the saved buckets cannot be used, a new entry gets the slot of its own source, if free. */
  function AddNew(cfg: Config, usable: bool, st: State, e: Stored): (r: State)
    requires Shape(cfg, st)
    ensures Shape(cfg, r) && r.addrs == st.addrs[e.service.ip := st.idCount]
  {
    var counted := Counted(st, e);
    if usable then counted
    else
      var b := cfg.NewBucket(st.key, e.service, e.source);
      var p := cfg.BucketPosition(st.key, true, b, e.service);
      if st.newTable[b][p] == EMPTY then Attach(counted, st.idCount, b, p) else counted
  }

  lemma AddNewKeeps(cfg: Config, usable: bool, st: State, e: Stored, r: State)
    requires Loading(cfg, st) && r == AddNew(cfg, usable, st, e)
    ensures Loading(cfg, r)
  {
    var counted := Counted(st, e);
    CountedKeeps(cfg, st, e);
    var b := cfg.NewBucket(st.key, e.service, e.source);
    var p := cfg.BucketPosition(st.key, true, b, e.service);
    if !usable && st.newTable[b][p] == EMPTY {
      AttachLoading(cfg, counted, st.idCount, b, p);
    }
  }

  lemma AttachLoading(cfg: Config, st: State, id: int, b: nat, p: nat)
    requires Loading(cfg, st) && b < cfg.newBuckets && p < cfg.bucketSize
    requires id in st.infos && !st.infos[id].inTried && st.infos[id].refCount < NEW_BUCKETS_PER_ADDRESS
    requires st.newTable[b][p] == EMPTY && p == cfg.BucketPosition(st.key, true, b, st.infos[id].service)
    ensures Loading(cfg, Attach(st, id, b, p))
  {
    AttachKeeps(cfg, st, LooseIds(st), {}, id, b, p);
    LoadingFrom(cfg, Attach(st, id, b, p), LooseIds(st) - {id});
  }

  /** A tried entry, lost if its slot is taken. */
  function AddTried(cfg: Config, st: State, e: Stored): (r: State)
    requires Shape(cfg, st)
    ensures Shape(cfg, r) && (r == st || r.addrs == st.addrs[e.service.ip := st.idCount])
  {
    var b := cfg.TriedBucket(st.key, e.service);
    var p := cfg.BucketPosition(st.key, false, b, e.service);
    if st.triedTable[b][p] == EMPTY then EnterTried(Restore(st, e), st.idCount, b, p) else st
  }

  lemma AddTriedKeeps(cfg: Config, st: State, e: Stored)
    requires Loading(cfg, st)
    ensures Loading(cfg, AddTried(cfg, st, e))
  {
    var id := st.idCount;
    var b := cfg.TriedBucket(st.key, e.service);
    var p := cfg.BucketPosition(st.key, false, b, e.service);
    if st.triedTable[b][p] == EMPTY {
      RestoreKeeps(cfg, st, e);
      EnterTriedKeeps(cfg, Restore(st, e), LooseIds(st), {id}, id);
      assert {id} - {id} == {};
      LoadingFrom(cfg, AddTried(cfg, st, e), LooseIds(st));
    }
  }

  /** A saved reference: ignored if it is out of range, if its slot is taken or if the entry has enough. */
  function PlaceRef(cfg: Config, usable: bool, n: nat, st: State, b: nat, index: int): (r: State)
    requires Shape(cfg, st)
    ensures Shape(cfg, r)
  {
    if usable && b < cfg.newBuckets && 0 <= index < n && index in st.infos then
      var p := cfg.BucketPosition(st.key, true, b, st.infos[index].service);
      if st.newTable[b][p] == EMPTY && st.infos[index].refCount < NEW_BUCKETS_PER_ADDRESS
      then Attach(st, index, b, p) else st
    else st
  }

  /** Delete an entry that got no reference. */
  function PruneOne(st: State, id: int): State {
    if id in LooseIds(st) && Ops.Deletable(st, id) then Delete(st, id) else st
  }

  lemma LooseDeletable(cfg: Config, st: State, id: int)
    requires Loading(cfg, st) && id in LooseIds(st)
    ensures PositionOk(st, id) && RandomAtOk(st, |st.random| - 1) && Ops.Deletable(st, id)
  {
    assert PositionOk(st, id) && RandomAtOk(st, st.infos[id].randomPos) && RandomAtOk(st, |st.random| - 1);
  }

  lemma DeleteLoose(cfg: Config, st: State, id: int, r: State)
    requires Loading(cfg, st) && id in LooseIds(st) && Ops.Deletable(st, id) && r == Delete(st, id)
    ensures Loading(cfg, r) && LooseIds(r) == LooseIds(st) - {id} && r.idCount == st.idCount
  {
    DeleteKeeps(cfg, st, LooseIds(st), {}, id);
    LoadingFrom(cfg, r, LooseIds(st) - {id});
  }

  ghost predicate AllFrom(ids: set<int>, n: nat) {
    forall id :: id in ids ==> id >= n
  }

  /** The state after pruning the ids below n. */
  ghost predicate Pruned(cfg: Config, n: nat, idCount: int, st: State) {
    Loading(cfg, st) && st.idCount == idCount && AllFrom(LooseIds(st), n)
  }

  lemma PruneOneKeeps(cfg: Config, st: State, n: nat, k: nat, idCount: int, r: State)
    requires Pruned(cfg, n, idCount, st) && r == PruneOne(st, n) && k == n + 1
    ensures Pruned(cfg, k, idCount, r)
  {
    if n in LooseIds(st) {
      LooseDeletable(cfg, st, n);
      DeleteLoose(cfg, st, n, r);
    }
    FromNext(LooseIds(st), LooseIds(r), n, k);
  }

  lemma FromNext(ids: set<int>, ids': set<int>, n: nat, k: nat)
    requires AllFrom(ids, n) && k == n + 1 && ids' <= ids && n !in ids'
    ensures AllFrom(ids', k)
  {
  }

  function Prune(st: State, n: nat): State {
    if n == 0 then st else PruneOne(Prune(st, n - 1), n - 1)
  }

  lemma LooseKnown(cfg: Config, st: State)
    requires Loading(cfg, st)
    ensures Pruned(cfg, 0, st.idCount, st)
  {
    assert forall id :: id in LooseIds(st) ==> 0 <= id < st.idCount;
  }

  lemma {:induction false} PruneKeeps(cfg: Config, st: State, n: nat)
    requires Loading(cfg, st)
    ensures Pruned(cfg, n, st.idCount, Prune(st, n))
  {
    if n == 0 {
      LooseKnown(cfg, st);
    } else {
      PruneKeeps(cfg, st, n - 1);
      PruneOneKeeps(cfg, Prune(st, n - 1), n - 1, n, st.idCount, Prune(st, n));
    }
  }

  lemma {:induction false} PruneNothing(st: State, n: nat)
    requires LooseIds(st) == {}
    ensures Prune(st, n) == st
  {
    if n > 0 {
      PruneNothing(st, n - 1);
    }
  }

  lemma PrunedTabled(cfg: Config, st: State)
    requires Loading(cfg, st) && st.idCount >= 0
    ensures Tabled(cfg, Prune(st, st.idCount), {}, {})
  {
    var r := Prune(st, st.idCount);
    PruneKeeps(cfg, st, st.idCount);
    assert forall id :: id in LooseIds(r) ==> 0 <= id < r.idCount;
    assert LooseIds(r) == {};
  }

  function LoadNews(cfg: Config, usable: bool, st: State, es: seq<Stored>): (r: State)
    requires Shape(cfg, st)
    ensures Shape(cfg, r)
  {
    if es == [] then st else AddNew(cfg, usable, LoadNews(cfg, usable, st, es[..|es| - 1]), es[|es| - 1])
  }

  function LoadTrieds(cfg: Config, st: State, es: seq<Stored>): (r: State)
    requires Shape(cfg, st)
    ensures Shape(cfg, r)
  {
    if es == [] then st else AddTried(cfg, LoadTrieds(cfg, st, es[..|es| - 1]), es[|es| - 1])
  }

  lemma LoadTriedsLast(cfg: Config, st: State, es: seq<Stored>, before: seq<Stored>, e: Stored, mid: State, r: State)
    requires Shape(cfg, st) && es != [] && before == es[..|es| - 1] && e == es[|es| - 1]
    requires mid == LoadTrieds(cfg, st, before) && r == LoadTrieds(cfg, st, es)
    ensures r == AddTried(cfg, mid, e)
  {
  }

  function LoadRow(cfg: Config, usable: bool, n: nat, st: State, b: nat, row: seq<int>): (r: State)
    requires Shape(cfg, st)
    ensures Shape(cfg, r)
  {
    if row == [] then st
    else PlaceRef(cfg, usable, n, LoadRow(cfg, usable, n, st, b, row[..|row| - 1]), b, row[|row| - 1])
  }

  function LoadRows(cfg: Config, usable: bool, n: nat, st: State, rows: seq<seq<int>>): (r: State)
    requires Shape(cfg, st)
    ensures Shape(cfg, r)
  {
    if rows == [] then st
    else LoadRow(cfg, usable, n, LoadRows(cfg, usable, n, st, rows[..|rows| - 1]), |rows| - 1, rows[|rows| - 1])
  }

  /** The state before pruning. */
  function LoadTables(cfg: Config, img: Image): (r: State)
    requires cfg.Valid() && Whole(img)
  {
    Ops.FreshConsistent(cfg, img.key);
    var st1 := LoadNews(cfg, Usable(cfg, img), Ops.Fresh(cfg, img.key), img.entries[..img.nNew]);
    var st2 := LoadTrieds(cfg, st1, img.entries[img.nNew..]);
    LoadRows(cfg, Usable(cfg, img), img.nNew, st2, img.rows)
  }

  /** `Unserialize` into a newly constructed manager. */
  function Load(cfg: Config, img: Image): (r: State)
    requires cfg.Valid() && Whole(img)
  {
    var st := LoadTables(cfg, img);
    Prune(st, if st.idCount < 0 then 0 else st.idCount)
  }

  // ----- every load agrees with itself, but for the address map -----

  /** The new entries have the ids below n. */
  ghost predicate NewBelow(st: State, n: nat) {
    forall id {:trigger st.infos[id]} :: id in st.infos && id < n ==> !st.infos[id].inTried
  }

  /** The state while entries are read, with n ids for new ones. */
  ghost predicate Absorbed(cfg: Config, st: State, n: nat) {
    Loading(cfg, st) && NewBelow(st, n)
  }

  lemma AddNewAbsorbs(cfg: Config, usable: bool, st: State, e: Stored, r: State, n: nat)
    requires Absorbed(cfg, st, n) && r == AddNew(cfg, usable, st, e)
    ensures Absorbed(cfg, r, n) && r.idCount == st.idCount + 1
  {
    AddNewKeeps(cfg, usable, st, e, r);
    AddNewBelow(cfg, usable, st, e, r, n);
  }

  lemma AddNewBelow(cfg: Config, usable: bool, st: State, e: Stored, r: State, n: nat)
    requires Shape(cfg, st) && NewBelow(st, n) && r == AddNew(cfg, usable, st, e)
    ensures NewBelow(r, n)
  {
    assert forall id :: id in r.infos ==> id == st.idCount || (id in st.infos && r.infos[id] == st.infos[id]);
    assert !r.infos[st.idCount].inTried;
  }

  lemma AddTriedAbsorbs(cfg: Config, st: State, e: Stored, r: State, n: nat)
    requires Absorbed(cfg, st, n) && st.idCount >= n && r == AddTried(cfg, st, e)
    ensures Absorbed(cfg, r, n) && r.idCount >= n
  {
    AddTriedKeeps(cfg, st, e);
  }

  lemma FreshAbsorbed(cfg: Config, key: Key, n: nat)
    requires cfg.Valid()
    ensures Absorbed(cfg, Ops.Fresh(cfg, key), n)
  {
    Ops.FreshConsistent(cfg, key);
    LoadingFrom(cfg, Ops.Fresh(cfg, key), {});
  }

  lemma {:induction false} LoadNewsKeeps(cfg: Config, usable: bool, es: seq<Stored>, st: State, n: nat, r: State)
    requires Absorbed(cfg, st, n) && r == LoadNews(cfg, usable, st, es)
    ensures Absorbed(cfg, r, n) && r.idCount == st.idCount + |es|
    decreases |es|
  {
    if es != [] {
      var before, e := es[..|es| - 1], es[|es| - 1];
      var mid := LoadNews(cfg, usable, st, before);
      LoadNewsKeeps(cfg, usable, before, st, n, mid);
      AddNewAbsorbs(cfg, usable, mid, e, r, n);
    }
  }

  lemma {:induction false} LoadTriedsKeeps(cfg: Config, es: seq<Stored>, st: State, n: nat, r: State)
    requires Absorbed(cfg, st, n) && st.idCount >= n && r == LoadTrieds(cfg, st, es)
    ensures Absorbed(cfg, r, n) && r.idCount >= n
    decreases |es|
  {
    if es != [] {
      var before, e := es[..|es| - 1], es[|es| - 1];
      var mid := LoadTrieds(cfg, st, before);
      LoadTriedsKeeps(cfg, before, st, n, mid);
      AddTriedAbsorbs(cfg, mid, e, r, n);
    }
  }

  /** The state while references are placed. */
  ghost predicate Placing(cfg: Config, st: State, n: nat, idCount: int) {
    Loading(cfg, st) && NewBelow(st, n) && st.idCount == idCount
  }

  lemma PlaceRefPlacing(cfg: Config, usable: bool, n: nat, st: State, b: nat, index: int, idCount: int, r: State)
    requires Placing(cfg, st, n, idCount) && r == PlaceRef(cfg, usable, n, st, b, index)
    ensures Placing(cfg, r, n, idCount)
  {
    if r != st {
      var p := cfg.BucketPosition(st.key, true, b, st.infos[index].service);
      AttachLoading(cfg, st, index, b, p);
    }
  }

  lemma {:induction false} LoadRowKeeps(cfg: Config, usable: bool, n: nat, st: State, b: nat, row: seq<int>, idCount: int, r: State)
    requires Placing(cfg, st, n, idCount) && r == LoadRow(cfg, usable, n, st, b, row)
    ensures Placing(cfg, r, n, idCount)
    decreases |row|
  {
    if row != [] {
      var k := |row| - 1;
      var before := LoadRow(cfg, usable, n, st, b, row[..k]);
      LoadRowKeeps(cfg, usable, n, st, b, row[..k], idCount, before);
      PlaceRefPlacing(cfg, usable, n, before, b, row[k], idCount, r);
    }
  }

  lemma {:induction false} LoadRowsKeeps(cfg: Config, usable: bool, n: nat, st: State, rows: seq<seq<int>>, idCount: int, r: State)
    requires Placing(cfg, st, n, idCount) && r == LoadRows(cfg, usable, n, st, rows)
    ensures Placing(cfg, r, n, idCount)
    decreases |rows|
  {
    if rows != [] {
      var k := |rows| - 1;
      var before := LoadRows(cfg, usable, n, st, rows[..k]);
      LoadRowsKeeps(cfg, usable, n, st, rows[..k], idCount, before);
      LoadRowKeeps(cfg, usable, n, before, k, rows[k], idCount, r);
    }
  }

  /** The states after the new entries, after the tried ones, and after the references. */
  ghost predicate Stages(cfg: Config, img: Image, st0: State, st1: State, st2: State, st: State) {
    && cfg.Valid() && Whole(img) && st0 == Ops.Fresh(cfg, img.key) && Shape(cfg, st0)
    && st1 == LoadNews(cfg, Usable(cfg, img), st0, img.entries[..img.nNew])
    && st2 == LoadTrieds(cfg, st1, img.entries[img.nNew..])
    && st == LoadRows(cfg, Usable(cfg, img), img.nNew, st2, img.rows)
  }

  lemma StagesKeep(cfg: Config, img: Image, st0: State, st1: State, st2: State, st: State)
    requires Stages(cfg, img, st0, st1, st2, st)
    ensures Absorbed(cfg, st1, img.nNew) && st1.idCount == img.nNew
    ensures Absorbed(cfg, st2, img.nNew) && st2.idCount >= img.nNew
    ensures Loading(cfg, st) && st.idCount == st2.idCount
  {
    FreshAbsorbed(cfg, img.key, img.nNew);
    LoadNewsKeeps(cfg, Usable(cfg, img), img.entries[..img.nNew], st0, img.nNew, st1);
    LoadTriedsKeeps(cfg, img.entries[img.nNew..], st1, img.nNew, st2);
    LoadRowsKeeps(cfg, Usable(cfg, img), img.nNew, st2, img.rows, st2.idCount, st);
  }

  lemma LoadStages(cfg: Config, img: Image) returns (st0: State, st1: State, st2: State)
    requires cfg.Valid() && Whole(img)
    ensures Stages(cfg, img, st0, st1, st2, LoadTables(cfg, img))
  {
    Ops.FreshConsistent(cfg, img.key);
    st0 := Ops.Fresh(cfg, img.key);
    st1 := LoadNews(cfg, Usable(cfg, img), st0, img.entries[..img.nNew]);
    st2 := LoadTrieds(cfg, st1, img.entries[img.nNew..]);
  }

  lemma LoadTablesKeeps(cfg: Config, img: Image)
    requires cfg.Valid() && Whole(img)
    ensures Loading(cfg, LoadTables(cfg, img)) && LoadTables(cfg, img).idCount >= 0
  {
    var st0, st1, st2 := LoadStages(cfg, img);
    StagesKeep(cfg, img, st0, st1, st2, LoadTables(cfg, img));
  }

  /** Any image loads into tables that agree with each other: other versions, other bucket counts, colliding
      entries, excess and invalid references and repeated addresses included. Only the address map and the times
      can be wrong. */
  lemma LoadTabled(cfg: Config, img: Image)
    requires cfg.Valid() && Whole(img)
    ensures Tabled(cfg, Load(cfg, img), {}, {})
  {
    LoadTablesKeeps(cfg, img);
    PrunedTabled(cfg, LoadTables(cfg, img));
  }
}
