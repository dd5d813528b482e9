/**
 Saving the address manager (src/addrman.h:257-306), and what comes back when a new one loads what was saved.
 */
module AddrManStore {
  import opened AddrManState
  import opened AddrManLoad
  import Ops = AddrManOps
  import V = AddrManSurvival

  // ----- saving -----

  /** What the two passes of `Serialize` select: entries with references, then entries in the tried table. */
  predicate Selected(info: Info, tried: bool) {
    if tried then info.inTried else info.refCount != 0
  }

  /** The selected ids below n in ascending order; for the first pass their number is also the index under
      which id n is recorded. */
  function Ids(infos: map<int, Info>, n: nat, tried: bool): (ids: seq<int>) {
    if n == 0 then []
    else Ids(infos, n - 1, tried) + if n - 1 in infos && Selected(infos[n - 1], tried) then [n - 1] else []
  }

  function RowOf(s: State, b: nat, p: nat): (row: seq<int>)
    requires b < |s.newTable| && p <= |s.newTable[b]|
  {
    if p == 0 then []
    else
      var id := s.newTable[b][p - 1];
      RowOf(s, b, p - 1) + if id == EMPTY || id < 0 then [] else [|Ids(s.infos, id, false)|]
  }

  predicate Known(infos: map<int, Info>, ids: seq<int>) {
    forall k {:trigger ids[k]} :: 0 <= k < |ids| ==> ids[k] in infos
  }

  lemma EntryListJoin(infos: map<int, Info>, a: seq<int>, b: seq<int>)
    requires Known(infos, a) && Known(infos, b)
    ensures Known(infos, a + b) && EntryList(infos, a + b) == EntryList(infos, a) + EntryList(infos, b)
  {
  }

  lemma EntryListStep(infos: map<int, Info>, n: nat, tried: bool)
    requires Known(infos, Ids(infos, n, tried))
    ensures Known(infos, Ids(infos, n + 1, tried))
    ensures EntryList(infos, Ids(infos, n + 1, tried)) == EntryList(infos, Ids(infos, n, tried))
      + if n in infos && Selected(infos[n], tried) then [Store(infos[n])] else []
  {
    if n in infos && Selected(infos[n], tried) {
      EntryListJoin(infos, Ids(infos, n, tried), [n]);
    }
  }

  ghost predicate RecordOk(infos: map<int, Info>, index: map<int, nat>, id: int) {
    id >= 0 && id in index && index[id] == |Ids(infos, id, false)|
  }

  /** The index of every id below n has been recorded. */
  ghost predicate Recorded(infos: map<int, Info>, index: map<int, nat>, n: int) {
    forall id {:trigger RecordOk(infos, index, id)} :: 0 <= id < n && id in infos ==> RecordOk(infos, index, id)
  }

  lemma RecordOne(infos: map<int, Info>, index: map<int, nat>, n: nat, index': map<int, nat>)
    requires Recorded(infos, index, n) && index' == index[n := |Ids(infos, n, false)|]
    ensures Recorded(infos, index', n + 1)
  {
    forall id | 0 <= id < n + 1 && id in infos ensures RecordOk(infos, index', id) {
      if id < n {
        assert RecordOk(infos, index, id);
      }
    }
  }

  function EntryList(infos: map<int, Info>, ids: seq<int>): (es: seq<Stored>)
    requires Known(infos, ids)
    ensures |es| == |ids| && forall k {:trigger es[k]} :: 0 <= k < |ids| ==> es[k] == Store(infos[ids[k]])
  {
    seq(|ids|, k requires 0 <= k < |ids| => Store(infos[ids[k]]))
  }

  function Order(s: State): (ids: seq<int>)
    requires s.idCount >= 0
  {
    Ids(s.infos, s.idCount, false) + Ids(s.infos, s.idCount, true)
  }

  function Save(cfg: Config, s: State): (img: Image)
    requires Consistent(cfg, s)
    ensures Whole(img)
  {
    OrderKnown(s);
    SavedCounts(cfg, s);
    Image(1, s.key, s.nNew, s.nTried, cfg.newBuckets, EntryList(s.infos, Order(s)),
          seq(cfg.newBuckets, b requires 0 <= b < cfg.newBuckets && Shape(cfg, s) => RowOf(s, b, cfg.bucketSize)))
  }

  lemma {:induction false} IdsAre(infos: map<int, Info>, n: nat, tried: bool, id: int)
    ensures id in Ids(infos, n, tried) <==> 0 <= id < n && id in infos && Selected(infos[id], tried)
    ensures id in Ids(infos, n, tried) ==>
      |Ids(infos, id, tried)| < |Ids(infos, n, tried)| && Ids(infos, n, tried)[|Ids(infos, id, tried)|] == id
  {
    if n > 0 {
      IdsAre(infos, n - 1, tried, id);
    }
  }

  predicate Ascending(s: seq<int>) {
    forall j, k :: 0 <= j < k < |s| ==> s[j] < s[k]
  }

  lemma {:induction false} IdsAscend(infos: map<int, Info>, n: nat, tried: bool)
    ensures Ascending(Ids(infos, n, tried))
  {
    if n > 0 {
      var o := Ids(infos, n - 1, tried);
      IdsAscend(infos, n - 1, tried);
      forall k | 0 <= k < |o| ensures o[k] < n - 1 {
        IdsAre(infos, n - 1, tried, o[k]);
      }
    }
  }

  lemma OrderKnown(s: State)
    requires s.idCount >= 0
    ensures Known(s.infos, Order(s))
  {
    var a, b := Ids(s.infos, s.idCount, false), Ids(s.infos, s.idCount, true);
    forall k | 0 <= k < |Order(s)| ensures Order(s)[k] in s.infos {
      if k < |a| {
        IdsAre(s.infos, s.idCount, false, a[k]);
      } else {
        IdsAre(s.infos, s.idCount, true, b[k - |a|]);
      }
    }
  }

  lemma {:induction false} DistinctSize(s: seq<int>, t: set<int>)
    requires Ascending(s) && forall x :: x in s <==> x in t
    ensures |s| == |t|
    decreases |s|
  {
    if s == [] {
      assert forall x :: x in t ==> x in s;
      assert t == {};
    } else {
      var n := |s| - 1;
      assert s == s[..n] + [s[n]];
      assert forall x :: x in s[..n] <==> x in t - {s[n]};
      DistinctSize(s[..n], t - {s[n]});
    }
  }

  /** New entries are those with references, so the first pass writes `nNew` entries and the second `nTried`. */
  lemma SavedCounts(cfg: Config, s: State)
    requires Consistent(cfg, s)
    ensures |Ids(s.infos, s.idCount, false)| == s.nNew && |Ids(s.infos, s.idCount, true)| == s.nTried
  {
    var a, b := Ids(s.infos, s.idCount, false), Ids(s.infos, s.idCount, true);
    IdsAscend(s.infos, s.idCount, false);
    IdsAscend(s.infos, s.idCount, true);
    forall x ensures x in a <==> x in NewIds(s) {
      IdsAre(s.infos, s.idCount, false, x);
      if x in s.infos {
        assert EntryOk(cfg, s, x, {});
      }
    }
    forall x ensures x in b <==> x in TriedIds(s) {
      IdsAre(s.infos, s.idCount, true, x);
    }
    DistinctSize(a, NewIds(s));
    DistinctSize(b, TriedIds(s));
    assert NewIds(s) - {} == NewIds(s);
  }

  /** The order lists every entry once, new ones first. */
  ghost predicate IsOrder(s: State, all: seq<int>) {
    && |all| == s.nNew + s.nTried && s.nNew >= 0 && s.nTried >= 0
    && (forall k {:trigger all[k]} :: 0 <= k < |all| ==> all[k] in s.infos && (s.infos[all[k]].inTried <==> k >= s.nNew))
    && (forall j, k {:trigger Apart(all, j, k)} :: 0 <= j < k < |all| ==> Apart(all, j, k))
    && (forall id :: id in s.infos ==> id in all)
  }

  ghost predicate Apart(all: seq<int>, j: int, k: int) {
    0 <= j < |all| && 0 <= k < |all| && all[j] != all[k]
  }

  lemma SamePlace(s: State, all: seq<int>, j: int, k: int)
    requires IsOrder(s, all) && 0 <= j < |all| && 0 <= k < |all| && all[j] == all[k]
    ensures j == k
  {
    assert j < k ==> Apart(all, j, k);
    assert k < j ==> Apart(all, k, j);
  }

  lemma OrderIs(cfg: Config, s: State)
    requires Consistent(cfg, s)
    ensures IsOrder(s, Order(s))
  {
    SavedCounts(cfg, s);
    var a, b := Ids(s.infos, s.idCount, false), Ids(s.infos, s.idCount, true);
    var all := Order(s);
    forall k | 0 <= k < |all| ensures all[k] in s.infos && (s.infos[all[k]].inTried <==> k >= s.nNew) {
      if k < |a| {
        IdsAre(s.infos, s.idCount, false, a[k]);
        assert EntryOk(cfg, s, a[k], {});
      } else {
        IdsAre(s.infos, s.idCount, true, b[k - |a|]);
      }
    }
    IdsAscend(s.infos, s.idCount, false);
    IdsAscend(s.infos, s.idCount, true);
    forall j, k | 0 <= j < k < |all| ensures Apart(all, j, k) {
      assert s.infos[all[j]].inTried == s.infos[all[k]].inTried ==> all[j] < all[k];
    }
    forall id | id in s.infos ensures id in all {
      IdsAre(s.infos, s.idCount, false, id);
      IdsAre(s.infos, s.idCount, true, id);
      assert EntryOk(cfg, s, id, {});
    }
  }

  // ----- nothing is lost from what was saved -----

  /** Entry i of st is entry all[i] of s, but for the fields that live only in memory. */
  ghost predicate EntryFrom(s: State, all: seq<int>, st: State, i: int)
    requires 0 <= i < |all| && all[i] in s.infos
  {
    i in st.infos && st.infos[i].(refCount := 0) == s.infos[all[i]].(lastTry := 0, refCount := 0, randomPos := i)
  }

  /** The first k entries of s, in the given order, are those of st. */
  ghost predicate From(s: State, all: seq<int>, st: State, k: nat) {
    && k <= |all| && IsOrder(s, all)
    && st.key == s.key && st.idCount == k && |st.random| == k
    && (forall id :: id in st.infos <==> 0 <= id < k)
    && (forall i {:trigger EntryFrom(s, all, st, i)} :: 0 <= i < k ==> EntryFrom(s, all, st, i))
  }

  ghost predicate Blank(t: Table) {
    forall c, q {:trigger t[c][q]} :: 0 <= c < |t| && 0 <= q < |t[c]| ==> t[c][q] == EMPTY
  }

  /** The state after k entries: no references yet, and the counters so far. */
  ghost predicate Stage(s: State, all: seq<int>, st: State, k: nat) {
    && From(s, all, st, k)
    && Blank(st.newTable)
    && st.nNew == (if k < s.nNew then k else s.nNew) && st.nTried == k - st.nNew
  }

  lemma RestoreFrom(s: State, all: seq<int>, st: State, k: nat, k': nat, r: State)
    requires From(s, all, st, k) && k < |all| && k' == k + 1
    requires r.infos == Restore(st, Store(s.infos[all[k]])).infos[k := Restore(st, Store(s.infos[all[k]])).infos[k].(inTried := s.infos[all[k]].inTried)]
    requires r.key == s.key && r.idCount == k' && r.random == st.random + [k]
    ensures From(s, all, r, k')
  {
    forall i {:trigger EntryFrom(s, all, r, i)} | 0 <= i < k' ensures EntryFrom(s, all, r, i) {
      if i < k {
        assert EntryFrom(s, all, st, i);
      }
    }
  }

  lemma AddNewStage(cfg: Config, s: State, all: seq<int>, st: State, k: nat, k': nat, r: State)
    requires Shape(cfg, st) && Stage(s, all, st, k) && k < s.nNew && k' == k + 1 && r == AddNew(cfg, true, st, Store(s.infos[all[k]]))
    ensures Stage(s, all, r, k')
  {
    assert !s.infos[all[k]].inTried;
    RestoreFrom(s, all, st, k, k', r);
  }

  /** A tried entry finds its slot free: whoever had it would be in the same slot of s. */
  lemma TriedSlotFree(cfg: Config, s: State, all: seq<int>, st: State, k: nat)
    requires Consistent(cfg, s) && Loading(cfg, st) && From(s, all, st, k) && s.nNew <= k < |all|
    ensures var service := s.infos[all[k]].service;
      var b := cfg.TriedBucket(s.key, service);
      st.triedTable[b][cfg.BucketPosition(s.key, false, b, service)] == EMPTY
  {
    var service := s.infos[all[k]].service;
    var b := cfg.TriedBucket(s.key, service);
    var p := cfg.BucketPosition(s.key, false, b, service);
    assert TriedEntryOk(cfg, s, all[k]);
    if st.triedTable[b][p] != EMPTY {
      TriedOrigin(cfg, s, all, st, k, b, p);
      SamePlace(s, all, st.triedTable[b][p], k);
    }
  }

  lemma TriedOrigin(cfg: Config, s: State, all: seq<int>, st: State, k: nat, b: nat, p: nat)
    requires Consistent(cfg, s) && Loading(cfg, st) && From(s, all, st, k)
    requires b < cfg.triedBuckets && p < cfg.bucketSize && st.triedTable[b][p] != EMPTY
    ensures 0 <= st.triedTable[b][p] < k && s.triedTable[b][p] == all[st.triedTable[b][p]]
  {
    var i := st.triedTable[b][p];
    assert TriedSlotOk(cfg, st, b, p);
    assert EntryFrom(s, all, st, i);
    SameInfo(s.infos[all[i]], st.infos[i], i);
    assert TriedEntryOk(cfg, s, all[i]);
  }

  lemma SameInfo(a: Info, b: Info, i: int)
    requires b.(refCount := 0) == a.(lastTry := 0, refCount := 0, randomPos := i)
    ensures a.service == b.service && a.inTried == b.inTried && b.lastTry == 0 && b.randomPos == i
    ensures b == a.(lastTry := 0, refCount := b.refCount, randomPos := i)
  {
    var c := b.(refCount := 0);
    assert c.service == b.service && c.inTried == b.inTried && c.lastTry == b.lastTry && c.randomPos == b.randomPos;
    assert c.services == b.services && c.time == b.time && c.source == b.source;
    assert c.lastSuccess == b.lastSuccess && c.attempts == b.attempts;
  }

  lemma AddTriedStage(cfg: Config, s: State, all: seq<int>, st: State, k: nat, k': nat, e: Stored, r: State)
    requires Consistent(cfg, s) && Loading(cfg, st) && Stage(s, all, st, k) && s.nNew <= k < |all| && k' == k + 1
    requires e == Store(s.infos[all[k]]) && r == AddTried(cfg, st, e)
    ensures Stage(s, all, r, k')
  {
    TriedSlotFree(cfg, s, all, st, k);
    assert s.infos[all[k]].inTried;
    RestoreFrom(s, all, st, k, k', r);
  }

  /** The same entry, or the same emptiness, under the two numberings. */
  predicate Same(all: seq<int>, x: int, y: int) {
    if x == EMPTY then y == EMPTY else 0 <= y < |all| && all[y] == x
  }

  /** Slot (c, q) while the references before slot (b, p) have been placed. */
  ghost predicate SlotPlaced(cfg: Config, s: State, all: seq<int>, st: State, b: nat, p: nat, c: nat, q: nat)
    requires Shape(cfg, s) && Shape(cfg, st) && c < cfg.newBuckets && q < cfg.bucketSize
  {
    if c < b || (c == b && q < p) then Same(all, s.newTable[c][q], st.newTable[c][q])
    else st.newTable[c][q] == EMPTY
  }

  ghost predicate Slots(cfg: Config, s: State, all: seq<int>, st: State, b: nat, p: nat)
    requires Shape(cfg, s) && Shape(cfg, st)
  {
    forall c: nat, q: nat {:trigger SlotPlaced(cfg, s, all, st, b, p, c, q)} ::
      c < cfg.newBuckets && q < cfg.bucketSize ==> SlotPlaced(cfg, s, all, st, b, p, c, q)
  }

  /** The state with all entries loaded and the references before slot (b, p) placed. */
  ghost predicate Placed(cfg: Config, s: State, all: seq<int>, st: State, b: nat, p: nat) {
    && Consistent(cfg, s) && Loading(cfg, st)
    && From(s, all, st, |all|) && all == Order(s) && st.nNew == s.nNew && st.nTried == s.nTried
    && Slots(cfg, s, all, st, b, p)
  }

  /** The index recorded for an id is its place in the order. */
  lemma IndexOf(cfg: Config, s: State, id: int)
    requires Consistent(cfg, s) && id in s.infos && !s.infos[id].inTried
    ensures id >= 0 && |Ids(s.infos, id, false)| < s.nNew <= |Order(s)| && Order(s)[|Ids(s.infos, id, false)|] == id
  {
    SavedCounts(cfg, s);
    assert EntryOk(cfg, s, id, {});
    IdsAre(s.infos, s.idCount, false, id);
  }

  /** A reference still to be placed leaves room for it: fewer are placed than the entry had. */
  lemma RoomForRef(cfg: Config, s: State, all: seq<int>, st: State, b: nat, p: nat, i: nat)
    requires Placed(cfg, s, all, st, b, p) && b < cfg.newBuckets && p < cfg.bucketSize && i < s.nNew
    requires s.newTable[b][p] == all[i] != EMPTY
    ensures st.infos[i].service == s.infos[all[i]].service && !st.infos[i].inTried
    ensures p == cfg.BucketPosition(s.key, true, b, st.infos[i].service)
    ensures st.infos[i].refCount < NEW_BUCKETS_PER_ADDRESS
  {
    var id := all[i];
    assert EntryFrom(s, all, st, i);
    SameInfo(s.infos[id], st.infos[i], i);
    assert NewSlotOk(cfg, s, b, p);
    assert EntryOk(cfg, s, id, {}) && EntryOk(cfg, st, i, LooseIds(st) + {});
    var service := s.infos[id].service;
    var had, has := Refs(cfg, s.key, s.newTable, service, id), Refs(cfg, s.key, st.newTable, service, i);
    forall c | c in has ensures c in had && c != b {
      var q := cfg.BucketPosition(s.key, true, c, service);
      assert SlotPlaced(cfg, s, all, st, b, p, c, q);
    }
    assert b in had;
    SmallerSet(has, had, b);
  }

  lemma SmallerSet(small: set<nat>, large: set<nat>, x: nat)
    requires small <= large - {x} && x in large
    ensures |small| < |large|
  {
    SubsetSize(small, large - {x});
  }

  lemma {:induction false} SubsetSize(small: set<nat>, large: set<nat>)
    requires small <= large
    ensures |small| <= |large|
    decreases |small|
  {
    if small != {} {
      var x :| x in small;
      SubsetSize(small - {x}, large - {x});
    }
  }

  lemma PlaceSaved(cfg: Config, s: State, all: seq<int>, st: State, b: nat, p: nat, p': nat, i: nat, r: State)
    requires Placed(cfg, s, all, st, b, p) && b < cfg.newBuckets && p < cfg.bucketSize && p' == p + 1 && i < s.nNew
    requires s.newTable[b][p] == all[i] != EMPTY && r == PlaceRef(cfg, true, s.nNew, st, b, i)
    ensures Placed(cfg, s, all, r, b, p')
  {
    assert EntryFrom(s, all, st, i);
    RoomForRef(cfg, s, all, st, b, p, i);
    assert SlotPlaced(cfg, s, all, st, b, p, b, p);
    assert r == Attach(st, i, b, p);
    AttachLoading(cfg, st, i, b, p);
    AttachFrom(s, all, st, i, b, p, r);
    forall c: nat, q: nat | c < cfg.newBuckets && q < cfg.bucketSize ensures SlotPlaced(cfg, s, all, r, b, p', c, q) {
      SlotAttached(cfg, s, all, st, b, p, p', i, r, c, q);
    }
  }

  lemma SlotAttached(cfg: Config, s: State, all: seq<int>, st: State, b: nat, p: nat, p': nat, i: nat, r: State, c: nat, q: nat)
    requires Placed(cfg, s, all, st, b, p) && b < cfg.newBuckets && p < cfg.bucketSize && p' == p + 1 && i < s.nNew
    requires s.newTable[b][p] == all[i] != EMPTY && i in st.infos && r == Attach(st, i, b, p)
    requires c < cfg.newBuckets && q < cfg.bucketSize
    ensures SlotPlaced(cfg, s, all, r, b, p', c, q)
  {
    assert SlotPlaced(cfg, s, all, st, b, p, c, q);
  }

  lemma AttachFrom(s: State, all: seq<int>, st: State, i: nat, b: nat, p: nat, r: State)
    requires From(s, all, st, |all|) && i < |all| && b < |st.newTable| && p < |st.newTable[b]| && i in st.infos
    requires r == Attach(st, i, b, p)
    ensures From(s, all, r, |all|)
  {
    forall k {:trigger EntryFrom(s, all, r, k)} | 0 <= k < |all| ensures EntryFrom(s, all, r, k) {
      assert EntryFrom(s, all, st, k);
    }
  }

  lemma SkipEmpty(cfg: Config, s: State, all: seq<int>, st: State, b: nat, p: nat, p': nat)
    requires Placed(cfg, s, all, st, b, p) && b < cfg.newBuckets && p < cfg.bucketSize && p' == p + 1 && s.newTable[b][p] == EMPTY
    ensures Placed(cfg, s, all, st, b, p')
  {
    forall c: nat, q: nat | c < cfg.newBuckets && q < cfg.bucketSize ensures SlotPlaced(cfg, s, all, st, b, p', c, q) {
      assert SlotPlaced(cfg, s, all, st, b, p, c, q);
    }
  }

  lemma RowEnd(cfg: Config, s: State, all: seq<int>, st: State, b: nat, b': nat)
    requires Placed(cfg, s, all, st, b, cfg.bucketSize) && b' == b + 1
    ensures Placed(cfg, s, all, st, b', 0)
  {
    forall c: nat, q: nat | c < cfg.newBuckets && q < cfg.bucketSize ensures SlotPlaced(cfg, s, all, st, b', 0, c, q) {
      assert SlotPlaced(cfg, s, all, st, b, cfg.bucketSize, c, q);
    }
  }

  /** What one more slot adds to a saved row. */
  lemma RowStep(cfg: Config, s: State, b: nat, p: nat, p': nat)
    requires Consistent(cfg, s) && b < cfg.newBuckets && p < cfg.bucketSize && p' == p + 1
    ensures var id := s.newTable[b][p];
      if id == EMPTY then RowOf(s, b, p') == RowOf(s, b, p)
      else
        var i := if id < 0 then 0 else |Ids(s.infos, id, false)|;
        id >= 0 && RowOf(s, b, p') == RowOf(s, b, p) + [i] && i < s.nNew <= |Order(s)| && Order(s)[i] == id
  {
    var id := s.newTable[b][p];
    if id != EMPTY {
      assert NewSlotOk(cfg, s, b, p);
      IndexOf(cfg, s, id);
    }
  }

  lemma LoadRowLast(cfg: Config, n: nat, st: State, b: nat, row: seq<int>, i: int, row': seq<int>, mid: State, r: State)
    requires Shape(cfg, st) && row' == row + [i] && mid == LoadRow(cfg, true, n, st, b, row) && r == LoadRow(cfg, true, n, st, b, row')
    ensures r == PlaceRef(cfg, true, n, mid, b, i)
  {
    assert row'[..|row|] == row;
  }

  lemma {:induction false} LoadRowSaved(cfg: Config, s: State, all: seq<int>, st: State, b: nat, p: nat, r: State)
    requires Placed(cfg, s, all, st, b, 0) && b < cfg.newBuckets && p <= cfg.bucketSize
    requires r == LoadRow(cfg, true, s.nNew, st, b, RowOf(s, b, p))
    ensures Placed(cfg, s, all, r, b, p)
    decreases p
  {
    if p > 0 {
      var q: nat := p - 1;
      RowStep(cfg, s, b, q, p);
      if s.newTable[b][q] == EMPTY {
        LoadRowSaved(cfg, s, all, st, b, q, r);
        SkipEmpty(cfg, s, all, r, b, q, p);
      } else {
        var i := |Ids(s.infos, s.newTable[b][q], false)|;
        var row := RowOf(s, b, q);
        var mid := LoadRow(cfg, true, s.nNew, st, b, row);
        LoadRowLast(cfg, s.nNew, st, b, row, i, RowOf(s, b, p), mid, r);
        LoadRowSaved(cfg, s, all, st, b, q, mid);
        PlaceSaved(cfg, s, all, mid, b, q, p, i, r);
      }
    }
  }

  lemma {:induction false} LoadRowsSaved(cfg: Config, s: State, all: seq<int>, st: State, rows: seq<seq<int>>, b: nat, r: State)
    requires Placed(cfg, s, all, st, 0, 0) && |rows| == b <= cfg.newBuckets
    requires forall c {:trigger rows[c]} :: 0 <= c < b ==> rows[c] == RowOf(s, c, cfg.bucketSize)
    requires r == LoadRows(cfg, true, s.nNew, st, rows)
    ensures Placed(cfg, s, all, r, b, 0)
    decreases b
  {
    if b > 0 {
      var c: nat := b - 1;
      var mid := LoadRows(cfg, true, s.nNew, st, rows[..c]);
      LoadRowsSaved(cfg, s, all, st, rows[..c], c, mid);
      LoadRowSaved(cfg, s, all, mid, c, cfg.bucketSize, r);
      RowEnd(cfg, s, all, r, c, b);
    }
  }

  // ----- the round trip -----

  /** t is s with its entries renumbered by their place in `all`: the same entries but for the time of the
      last try and the place in the random order, and the same tables. */
  ghost predicate Renumbered(cfg: Config, s: State, t: State, all: seq<int>) {
    && IsOrder(s, all) && t.key == s.key && t.nNew == s.nNew && t.nTried == s.nTried
    && Shape(cfg, s) && Shape(cfg, t)
    && (forall id :: id in t.infos <==> 0 <= id < |all|)
    && (forall i {:trigger t.infos[i]} :: 0 <= i < |all| ==> t.infos[i] == s.infos[all[i]].(lastTry := 0, randomPos := i))
    && (forall c: nat, q: nat {:trigger t.newTable[c][q]} ::
          c < cfg.newBuckets && q < cfg.bucketSize ==> Same(all, s.newTable[c][q], t.newTable[c][q]))
    && (forall c: nat, q: nat {:trigger t.triedTable[c][q]} ::
          c < cfg.triedBuckets && q < cfg.bucketSize ==> Same(all, s.triedTable[c][q], t.triedTable[c][q]))
  }

  lemma SavedApart(cfg: Config, s: State, all: seq<int>, j: nat, k: nat)
    requires Consistent(cfg, s) && all == Order(s) && IsOrder(s, all)
    ensures V.Wide(cfg, Save(cfg, s)) && !V.Shares(cfg, Save(cfg, s), j, k)
  {
    if j < |all| && k < |all| && s.infos[all[j]].service.ip == s.infos[all[k]].service.ip {
      assert AddrOk(s, all[j]) && AddrOk(s, all[k]);
      SamePlace(s, all, j, k);
    }
  }

  lemma SavedWhole(cfg: Config, s: State)
    requires Consistent(cfg, s)
    ensures V.Wide(cfg, Save(cfg, s)) && Usable(cfg, Save(cfg, s))
    ensures V.TimesGood(cfg, Save(cfg, s)) && V.NoneShared(cfg, Save(cfg, s))
  {
    var img, all := Save(cfg, s), Order(s);
    OrderIs(cfg, s);
    forall j: nat, k: nat ensures !V.Shares(cfg, img, j, k) { SavedApart(cfg, s, all, j, k); }
    forall k: nat | V.Survives(cfg, img, k) ensures V.GoodTimes(img, k) {
      var id := all[k];
      assert id in s.infos && s.infos[id].TimesOk();
    }
  }

  lemma {:induction false} LoadNewsSaved(cfg: Config, s: State, all: seq<int>, es: seq<Stored>, n: nat, st: State, r: State)
    requires Shape(cfg, st) && Stage(s, all, st, 0) && n <= s.nNew && |es| == n
    requires forall k {:trigger es[k]} :: 0 <= k < n ==> es[k] == Store(s.infos[all[k]])
    requires r == LoadNews(cfg, true, st, es)
    ensures Stage(s, all, r, n)
    decreases n
  {
    if n > 0 {
      var k: nat := n - 1;
      var mid := LoadNews(cfg, true, st, es[..k]);
      LoadNewsSaved(cfg, s, all, es[..k], k, st, mid);
      AddNewStage(cfg, s, all, mid, k, n, r);
    }
  }

  ghost predicate TriedItem(s: State, all: seq<int>, es: seq<Stored>, k: int)
    requires IsOrder(s, all) && s.nNew + |es| <= |all| && 0 <= k < |es|
  {
    es[k] == Store(s.infos[all[s.nNew + k]])
  }

  /** The first tried entries of s, as stored. */
  ghost predicate TriedList(s: State, all: seq<int>, es: seq<Stored>)
    requires IsOrder(s, all)
  {
    s.nNew + |es| <= |all| && forall k {:trigger TriedItem(s, all, es, k)} :: 0 <= k < |es| ==> TriedItem(s, all, es, k)
  }

  lemma TriedListLast(s: State, all: seq<int>, es: seq<Stored>, before: seq<Stored>, e: Stored, j: nat)
    requires IsOrder(s, all) && TriedList(s, all, es) && es != [] && before == es[..|es| - 1] && e == es[|es| - 1]
    requires j == s.nNew + |before|
    ensures TriedList(s, all, before) && s.nNew <= j < |all| && e == Store(s.infos[all[j]])
  {
    assert TriedItem(s, all, es, |es| - 1);
    forall k | 0 <= k < |before| ensures TriedItem(s, all, before, k) {
      assert TriedItem(s, all, es, k);
    }
  }

  /** The k-th entry of a saved manager is about to be read. */
  ghost predicate Reading(cfg: Config, s: State, all: seq<int>, st: State, k: nat) {
    Stage(s, all, st, k) && Absorbed(cfg, st, s.nNew) && st.idCount >= s.nNew
  }

  lemma ReadTried(cfg: Config, s: State, all: seq<int>, st: State, k: nat, k': nat, e: Stored, r: State)
    requires Consistent(cfg, s) && Reading(cfg, s, all, st, k) && s.nNew <= k < |all| && k' == k + 1
    requires e == Store(s.infos[all[k]]) && r == AddTried(cfg, st, e)
    ensures Reading(cfg, s, all, r, k')
  {
    AddTriedStage(cfg, s, all, st, k, k', e, r);
    AddTriedAbsorbs(cfg, st, e, r, s.nNew);
  }

  lemma {:induction false} LoadTriedsSaved(cfg: Config, s: State, all: seq<int>, es: seq<Stored>, st: State, k: nat, r: State)
    requires Consistent(cfg, s) && Reading(cfg, s, all, st, s.nNew) && IsOrder(s, all)
    requires k == s.nNew + |es| && TriedList(s, all, es) && r == LoadTrieds(cfg, st, es)
    ensures Reading(cfg, s, all, r, k)
    decreases |es|
  {
    if es != [] {
      var before, e := es[..|es| - 1], es[|es| - 1];
      var j: nat := k - 1;
      var mid := LoadTrieds(cfg, st, before);
      TriedListLast(s, all, es, before, e, j);
      LoadTriedsLast(cfg, st, es, before, e, mid, r);
      LoadTriedsSaved(cfg, s, all, before, st, j, mid);
      ReadTried(cfg, s, all, mid, j, k, e, r);
    }
  }

  lemma FreshStage(cfg: Config, s: State)
    requires Consistent(cfg, s)
    ensures Stage(s, Order(s), Ops.Fresh(cfg, s.key), 0) && Shape(cfg, Ops.Fresh(cfg, s.key))
  {
    OrderIs(cfg, s);
  }

  lemma NothingPlaced(cfg: Config, s: State, all: seq<int>, st: State)
    requires Consistent(cfg, s) && Loading(cfg, st) && all == Order(s) && Stage(s, all, st, |all|)
    ensures Placed(cfg, s, all, st, 0, 0)
  {
    forall c: nat, q: nat | c < cfg.newBuckets && q < cfg.bucketSize ensures SlotPlaced(cfg, s, all, st, 0, 0, c, q) {
    }
  }

  /** The saved entries, in the two lists that loading reads. */
  lemma SavedEntries(cfg: Config, s: State, es: seq<Stored>, ts: seq<Stored>)
    requires Consistent(cfg, s) && es == Save(cfg, s).entries[..Save(cfg, s).nNew] && ts == Save(cfg, s).entries[Save(cfg, s).nNew..]
    ensures IsOrder(s, Order(s)) && |es| == s.nNew && |ts| == s.nTried
    ensures forall k {:trigger es[k]} :: 0 <= k < |es| ==> es[k] == Store(s.infos[Order(s)[k]])
    ensures TriedList(s, Order(s), ts)
  {
    OrderIs(cfg, s);
    SplitEntries(s, Order(s), Save(cfg, s).entries, es, ts);
  }

  lemma SplitEntries(s: State, all: seq<int>, entries: seq<Stored>, es: seq<Stored>, ts: seq<Stored>)
    requires IsOrder(s, all) && |entries| == |all| && es == entries[..s.nNew] && ts == entries[s.nNew..]
    requires forall k {:trigger entries[k]} :: 0 <= k < |all| ==> entries[k] == Store(s.infos[all[k]])
    ensures |es| == s.nNew && |ts| == s.nTried && TriedList(s, all, ts)
    ensures forall k {:trigger es[k]} :: 0 <= k < |es| ==> es[k] == Store(s.infos[all[k]])
  {
    forall k | 0 <= k < |ts| ensures TriedItem(s, all, ts, k) {
      assert ts[k] == entries[s.nNew + k];
    }
  }

  lemma NewsSaved(cfg: Config, s: State, es: seq<Stored>, st: State)
    requires Consistent(cfg, s) && es == Save(cfg, s).entries[..Save(cfg, s).nNew]
    requires Shape(cfg, Ops.Fresh(cfg, s.key)) && st == LoadNews(cfg, true, Ops.Fresh(cfg, s.key), es)
    ensures Reading(cfg, s, Order(s), st, s.nNew)
  {
    var img, st0 := Save(cfg, s), Ops.Fresh(cfg, s.key);
    SavedEntries(cfg, s, es, img.entries[img.nNew..]);
    FreshStage(cfg, s);
    FreshAbsorbed(cfg, s.key, img.nNew);
    LoadNewsKeeps(cfg, true, es, st0, img.nNew, st);
    LoadNewsSaved(cfg, s, Order(s), es, img.nNew, st0, st);
  }

  lemma TriedsSaved(cfg: Config, s: State, es: seq<Stored>, ts: seq<Stored>, st: State, r: State)
    requires Consistent(cfg, s) && es == Save(cfg, s).entries[..Save(cfg, s).nNew] && ts == Save(cfg, s).entries[Save(cfg, s).nNew..]
    requires Reading(cfg, s, Order(s), st, s.nNew) && r == LoadTrieds(cfg, st, ts)
    ensures Placed(cfg, s, Order(s), r, 0, 0)
  {
    SavedEntries(cfg, s, es, ts);
    LoadTriedsSaved(cfg, s, Order(s), ts, st, s.nNew + s.nTried, r);
    NothingPlaced(cfg, s, Order(s), r);
  }

  lemma LoadSaved(cfg: Config, s: State)
    requires Consistent(cfg, s)
    ensures Placed(cfg, s, Order(s), LoadTables(cfg, Save(cfg, s)), cfg.newBuckets, 0)
  {
    var img := Save(cfg, s);
    Ops.FreshConsistent(cfg, s.key);
    var es, ts := img.entries[..img.nNew], img.entries[img.nNew..];
    var st1 := LoadNews(cfg, true, Ops.Fresh(cfg, s.key), es);
    NewsSaved(cfg, s, es, st1);
    var st2 := LoadTrieds(cfg, st1, ts);
    TriedsSaved(cfg, s, es, ts, st1, st2);
    var r := LoadTables(cfg, img);
    assert r == LoadRows(cfg, true, s.nNew, st2, img.rows);
    LoadRowsSaved(cfg, s, Order(s), st2, img.rows, cfg.newBuckets, r);
  }

  /** With all references placed, each entry has as many as it had. */
  lemma RefsRestored(cfg: Config, s: State, all: seq<int>, st: State, i: nat)
    requires Placed(cfg, s, all, st, cfg.newBuckets, 0) && i < |all|
    ensures st.infos[i] == s.infos[all[i]].(lastTry := 0, randomPos := i)
  {
    var id := all[i];
    assert EntryFrom(s, all, st, i);
    SameInfo(s.infos[id], st.infos[i], i);
    assert EntryOk(cfg, s, id, {}) && EntryOk(cfg, st, i, LooseIds(st) + {});
    var service := s.infos[id].service;
    var had, has := Refs(cfg, s.key, s.newTable, service, id), Refs(cfg, s.key, st.newTable, service, i);
    forall c: nat | c < cfg.newBuckets ensures c in had <==> c in has {
      var q := cfg.BucketPosition(s.key, true, c, service);
      assert SlotPlaced(cfg, s, all, st, cfg.newBuckets, 0, c, q);
      if c in had {
        SamePlace(s, all, st.newTable[c][q], i);
      }
    }
    assert had == has;
  }

  lemma TriedSame(cfg: Config, s: State, all: seq<int>, st: State, c: nat, q: nat)
    requires Consistent(cfg, s) && Loading(cfg, st) && From(s, all, st, |all|) && c < cfg.triedBuckets && q < cfg.bucketSize
    ensures Same(all, s.triedTable[c][q], st.triedTable[c][q])
  {
    if s.triedTable[c][q] != EMPTY {
      TriedHome(cfg, s, all, st, c, q);
    } else if st.triedTable[c][q] != EMPTY {
      TriedOrigin(cfg, s, all, st, |all|, c, q);
    }
  }

  lemma TriedHome(cfg: Config, s: State, all: seq<int>, st: State, c: nat, q: nat)
    requires Consistent(cfg, s) && Loading(cfg, st) && From(s, all, st, |all|) && c < cfg.triedBuckets && q < cfg.bucketSize
    requires s.triedTable[c][q] != EMPTY
    ensures Same(all, s.triedTable[c][q], st.triedTable[c][q])
  {
    var x := s.triedTable[c][q];
    assert TriedSlotOk(cfg, s, c, q);
    assert x in all;
    var i :| 0 <= i < |all| && all[i] == x;
    assert EntryFrom(s, all, st, i);
    SameInfo(s.infos[x], st.infos[i], i);
    assert TriedEntryOk(cfg, st, i);
  }

  lemma NoneLoose(cfg: Config, s: State, all: seq<int>, st: State)
    requires Placed(cfg, s, all, st, cfg.newBuckets, 0)
    ensures LooseIds(st) == {}
  {
    forall i | i in st.infos ensures i !in LooseIds(st) {
      RefsRestored(cfg, s, all, st, i);
      assert EntryOk(cfg, s, all[i], {});
    }
  }

  lemma PlacedRenumbered(cfg: Config, s: State, all: seq<int>, st: State)
    requires Placed(cfg, s, all, st, cfg.newBuckets, 0)
    ensures Renumbered(cfg, s, st, all)
  {
    forall i | 0 <= i < |all| ensures st.infos[i] == s.infos[all[i]].(lastTry := 0, randomPos := i) {
      RefsRestored(cfg, s, all, st, i);
    }
    forall c: nat, q: nat | c < cfg.newBuckets && q < cfg.bucketSize ensures Same(all, s.newTable[c][q], st.newTable[c][q]) {
      assert SlotPlaced(cfg, s, all, st, cfg.newBuckets, 0, c, q);
    }
    forall c: nat, q: nat | c < cfg.triedBuckets && q < cfg.bucketSize ensures Same(all, s.triedTable[c][q], st.triedTable[c][q]) {
      TriedSame(cfg, s, all, st, c, q);
    }
  }

  /** Saving any consistent manager and loading it into a new one loses nothing and is consistent again. */
  lemma SaveLoad(cfg: Config, s: State)
    requires Consistent(cfg, s)
    ensures var img := Save(cfg, s);
      Whole(img) && Consistent(cfg, Load(cfg, img)) && Renumbered(cfg, s, Load(cfg, img), Order(s))
  {
    var img := Save(cfg, s);
    SavedWhole(cfg, s);
    V.LoadConsistent(cfg, img);
    LoadSaved(cfg, s);
    var st := LoadTables(cfg, img);
    PlacedRenumbered(cfg, s, Order(s), st);
    NoneLoose(cfg, s, Order(s), st);
    PruneNothing(st, if st.idCount < 0 then 0 else st.idCount);
  }

  /** In particular exactly the same addresses are known. */
  lemma AddressesKept(cfg: Config, s: State, t: State, all: seq<int>)
    requires Consistent(cfg, s) && Consistent(cfg, t) && Renumbered(cfg, s, t, all)
    ensures t.addrs.Keys == s.addrs.Keys
  {
    forall ip | ip in s.addrs ensures ip in t.addrs {
      assert IpOk(s, ip);
      var i :| 0 <= i < |all| && all[i] == s.addrs[ip];
      assert t.infos[i].service.ip == ip && AddrOk(t, i);
    }
    forall ip | ip in t.addrs ensures ip in s.addrs {
      assert IpOk(t, ip);
      assert AddrOk(s, all[t.addrs[ip]]);
    }
  }
}
