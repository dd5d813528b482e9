/**
 Which entries of a stored address list survive loading, and when the result is consistent, told from the
 stored list alone (src/addrman.h:308-408).
 */
module AddrManSurvival {
  import opened AddrManState
  import opened AddrManLoad
  import Ops = AddrManOps

  // ----- told from the image -----

  predicate Wide(cfg: Config, img: Image) { cfg.Valid() && Whole(img) }

  /** Entry j belongs into this tried slot. */
  predicate TriedAt(cfg: Config, img: Image, j: nat, b: nat, p: nat)
    requires Wide(cfg, img) && j < |img.entries|
  {
    b == cfg.TriedBucket(img.key, img.entries[j].service) && p == cfg.BucketPosition(img.key, false, b, img.entries[j].service)
  }

  /** One of the tried entries before n belongs into this tried slot. */
  predicate TriedTaken(cfg: Config, img: Image, n: nat, b: nat, p: nat)
    requires Wide(cfg, img) && n <= |img.entries|
  {
    exists j: nat :: img.nNew <= j < n && TriedAt(cfg, img, j, b, p)
  }

  /** Entry j belongs into this new slot by its own source. */
  predicate OwnAt(cfg: Config, img: Image, j: nat, b: nat, p: nat)
    requires Wide(cfg, img) && j < |img.entries|
  {
    && b == cfg.NewBucket(img.key, img.entries[j].service, img.entries[j].source)
    && p == cfg.BucketPosition(img.key, true, b, img.entries[j].service)
  }

  predicate OwnTaken(cfg: Config, img: Image, n: nat, b: nat, p: nat)
    requires Wide(cfg, img) && n <= |img.entries|
  {
    exists j: nat :: j < n && OwnAt(cfg, img, j, b, p)
  }

  /** A new entry always enters; a tried one when no earlier tried entry has its slot. */
  predicate Enters(cfg: Config, img: Image, k: nat)
    requires Wide(cfg, img) && k < |img.entries|
  {
    var b := cfg.TriedBucket(img.key, img.entries[k].service);
    k < img.nNew || !TriedTaken(cfg, img, k, b, cfg.BucketPosition(img.key, false, b, img.entries[k].service))
  }

  /** Without the saved buckets, a new entry gets a place when no earlier one has the slot of its source. */
  predicate TakesOwn(cfg: Config, img: Image, k: nat)
    requires Wide(cfg, img) && k < img.nNew
  {
    var b := cfg.NewBucket(img.key, img.entries[k].service, img.entries[k].source);
    !OwnTaken(cfg, img, k, b, cfg.BucketPosition(img.key, true, b, img.entries[k].service))
  }

  /** The position in bucket b of the new entry with index k. */
  function PlaceIn(cfg: Config, img: Image, b: nat, k: int): nat
    requires Wide(cfg, img)
  {
    if 0 <= k < |img.entries| then cfg.BucketPosition(img.key, true, b, img.entries[k].service) else 0
  }

  /** The reference at place i of row b is taken: its index is one of a new entry, that entry has fewer than
      eight places in earlier rows, and no reference taken before in this row has its position. */
  predicate Wins(cfg: Config, img: Image, b: nat, i: nat)
    requires Wide(cfg, img) && b < |img.rows| && i < |img.rows[b]|
    decreases b, i + 1
  {
    var k := img.rows[b][i];
    && 0 <= k < img.nNew && Won(cfg, img, b, k) < NEW_BUCKETS_PER_ADDRESS
    && forall j: nat {:trigger Wins(cfg, img, b, j)} ::
         j < i && Wins(cfg, img, b, j) ==> PlaceIn(cfg, img, b, img.rows[b][j]) != PlaceIn(cfg, img, b, k)
  }

  /** One of the first n references of row b is taken and is to entry k. */
  predicate WinsIn(cfg: Config, img: Image, b: nat, n: nat, k: int)
    requires Wide(cfg, img) && b < |img.rows| && n <= |img.rows[b]|
    decreases b, n + 1
  {
    exists i: nat {:trigger Wins(cfg, img, b, i)} :: i < n && Wins(cfg, img, b, i) && img.rows[b][i] == k
  }

  /** How many of the rows before b place entry k. */
  function Won(cfg: Config, img: Image, b: nat, k: int): nat
    requires Wide(cfg, img) && b <= |img.rows|
    decreases b, 0
  {
    if b == 0 then 0
    else Won(cfg, img, b - 1, k) + if WinsIn(cfg, img, b - 1, |img.rows[b - 1]|, k) then 1 else 0
  }

  /** The places that a new entry has in the end. */
  function Places(cfg: Config, img: Image, k: nat): nat
    requires Wide(cfg, img) && k < img.nNew
  {
    if Usable(cfg, img) then Won(cfg, img, |img.rows|, k) else if TakesOwn(cfg, img, k) then 1 else 0
  }

  /** An entry is there in the end when it enters and, if it is new, has a place. */
  predicate Survives(cfg: Config, img: Image, k: nat)
    requires Wide(cfg, img)
  {
    k < |img.entries| && Enters(cfg, img, k) && (k < img.nNew ==> Places(cfg, img, k) > 0)
  }

  predicate GoodTimes(img: Image, k: nat)
    requires k < |img.entries|
  {
    img.entries[k].lastSuccess >= 0 && (k >= img.nNew ==> img.entries[k].lastSuccess != 0)
  }

  /** Every surviving entry has a success time, not negative, and not zero for a tried entry. */
  ghost predicate TimesGood(cfg: Config, img: Image)
    requires Wide(cfg, img)
  {
    forall k: nat {:trigger Survives(cfg, img, k)} :: Survives(cfg, img, k) ==> GoodTimes(img, k)
  }

  /** Two different entries that enter have the same address. */
  predicate Shares(cfg: Config, img: Image, j: nat, k: nat)
    requires Wide(cfg, img)
  {
    && j < |img.entries| && k < |img.entries| && j != k && Enters(cfg, img, j) && Enters(cfg, img, k)
    && img.entries[j].service.ip == img.entries[k].service.ip
  }

  /** No surviving entry shares its address with another one that entered. */
  ghost predicate NoneShared(cfg: Config, img: Image)
    requires Wide(cfg, img)
  {
    forall j: nat, k: nat {:trigger Shares(cfg, img, j, k)} :: Shares(cfg, img, j, k) ==> !Survives(cfg, img, k)
  }

  /** The entries that enter among the first n; the place in this list is the id. */
  function Entered(cfg: Config, img: Image, n: nat): (l: seq<nat>)
    requires Wide(cfg, img) && n <= |img.entries|
  {
    if n == 0 then [] else Entered(cfg, img, n - 1) + if Enters(cfg, img, n - 1) then [n - 1] else []
  }

  lemma {:induction false} EnteredIs(cfg: Config, img: Image, n: nat)
    requires Wide(cfg, img) && n <= |img.entries|
    ensures forall i {:trigger Entered(cfg, img, n)[i]} :: 0 <= i < |Entered(cfg, img, n)| ==>
      Entered(cfg, img, n)[i] < n && Enters(cfg, img, Entered(cfg, img, n)[i])
    ensures forall i, j {:trigger Entered(cfg, img, n)[i], Entered(cfg, img, n)[j]} ::
      0 <= i < j < |Entered(cfg, img, n)| ==> Entered(cfg, img, n)[i] < Entered(cfg, img, n)[j]
  {
    if n > 0 {
      EnteredIs(cfg, img, n - 1);
    }
  }

  lemma {:induction false} EnteredHas(cfg: Config, img: Image, n: nat, k: nat) returns (i: nat)
    requires Wide(cfg, img) && k < n <= |img.entries| && Enters(cfg, img, k)
    ensures i < |Entered(cfg, img, n)| && Entered(cfg, img, n)[i] == k
  {
    if k == n - 1 {
      i := |Entered(cfg, img, k)|;
    } else {
      i := EnteredHas(cfg, img, n - 1, k);
    }
  }

  lemma EnteredNext(cfg: Config, img: Image, n: nat, n': nat)
    requires Wide(cfg, img) && n' == n + 1 <= |img.entries|
    ensures Entered(cfg, img, n') == if Enters(cfg, img, n) then Entered(cfg, img, n) + [n] else Entered(cfg, img, n)
  {
  }

  /** The new entries have their own indices as ids. */
  lemma {:induction false} EnteredNew(cfg: Config, img: Image, n: nat)
    requires Wide(cfg, img) && n <= img.nNew
    ensures |Entered(cfg, img, n)| == n && forall i {:trigger Entered(cfg, img, n)[i]} :: 0 <= i < n ==> Entered(cfg, img, n)[i] == i
  {
    if n > 0 {
      EnteredNew(cfg, img, n - 1);
      EnteredNext(cfg, img, n - 1, n);
    }
  }

  lemma {:induction false} EnteredMore(cfg: Config, img: Image, m: nat, n: nat)
    requires Wide(cfg, img) && m <= n <= |img.entries|
    ensures Entered(cfg, img, m) <= Entered(cfg, img, n)
  {
    if m < n {
      var k: nat := n - 1;
      EnteredMore(cfg, img, m, k);
      EnteredNext(cfg, img, k, n);
      PrefixMore(Entered(cfg, img, m), Entered(cfg, img, k), k, Entered(cfg, img, n));
    }
  }

  lemma PrefixMore<T>(a: seq<T>, b: seq<T>, x: T, c: seq<T>)
    requires a <= b && (c == b || c == b + [x])
    ensures a <= c
  {
  }

  // ----- the entries of the state -----

  /** Entry k of the image, but for the fields that live only in memory. */
  predicate Matches(img: Image, info: Info, k: nat) {
    k < |img.entries| && Store(info) == img.entries[k] && info.lastTry == 0 && (info.inTried <==> k >= img.nNew)
  }

  predicate EntryAt(img: Image, st: State, l: seq<nat>, i: int) {
    0 <= i < |l| && i in st.infos && Matches(img, st.infos[i], l[i])
  }

  /** Every address of an entry is in the map, and every address in the map is that of the entry it leads to. */
  ghost predicate Listed(st: State) {
    && (forall id {:trigger st.infos[id]} :: id in st.infos ==> st.infos[id].service.ip in st.addrs)
    && (forall ip {:trigger IpOk(st, ip)} :: ip in st.addrs ==> IpOk(st, ip))
  }

  /** The entries are those listed, in that order. */
  ghost predicate Entries(img: Image, st: State, l: seq<nat>) {
    && st.key == img.key && st.idCount == |l| && Listed(st)
    && (forall id :: id in st.infos <==> 0 <= id < |l|)
    && (forall i {:trigger EntryAt(img, st, l, i)} :: 0 <= i < |l| ==> EntryAt(img, st, l, i))
  }

  lemma EntriesMore(img: Image, st: State, l: seq<nat>, k: nat, l': seq<nat>, info: Info, r: State)
    requires Entries(img, st, l) && l' == l + [k] && Matches(img, info, k)
    requires r.key == st.key && r.idCount == st.idCount + 1 && r.infos == st.infos[st.idCount := info]
    requires r.addrs == st.addrs[info.service.ip := st.idCount]
    ensures Entries(img, r, l')
  {
    forall i | 0 <= i < |l'| ensures EntryAt(img, r, l', i) {
      if i < |l| { assert EntryAt(img, st, l, i); }
    }
    forall ip | ip in r.addrs ensures IpOk(r, ip) {
      if ip != info.service.ip { assert IpOk(st, ip); }
    }
  }

  /** The same entries, but for their references and their places in the random vector. */
  predicate SameButPlace(a: Info, b: Info) {
    Store(a) == Store(b) && a.lastTry == b.lastTry && a.inTried == b.inTried
  }

  ghost predicate SameEntries(st: State, r: State) {
    && r.key == st.key && r.idCount == st.idCount && r.addrs == st.addrs && r.infos.Keys == st.infos.Keys
    && forall id {:trigger r.infos[id]} :: id in r.infos ==> SameButPlace(st.infos[id], r.infos[id])
  }

  lemma EntriesSame(img: Image, st: State, l: seq<nat>, r: State)
    requires Entries(img, st, l) && SameEntries(st, r)
    ensures Entries(img, r, l)
  {
    forall i | 0 <= i < |l| ensures EntryAt(img, r, l, i) {
      assert EntryAt(img, st, l, i);
      assert SameButPlace(st.infos[i], r.infos[i]);
    }
    forall id | id in r.infos ensures r.infos[id].service == st.infos[id].service {
      assert Store(st.infos[id]) == Store(r.infos[id]);
    }
    forall ip | ip in r.addrs ensures IpOk(r, ip) {
      assert IpOk(st, ip);
      assert r.infos[r.addrs[ip]].service == st.infos[st.addrs[ip]].service;
    }
  }

  // ----- reading the new entries -----

  /** A new slot is taken when some earlier entry belongs into it; with usable buckets none is yet. */
  ghost predicate OwnSlots(cfg: Config, img: Image, n: nat, st: State)
    requires Wide(cfg, img) && Shape(cfg, st) && n <= img.nNew
  {
    forall b: nat, p: nat {:trigger OwnTaken(cfg, img, n, b, p)} {:trigger st.newTable[b][p]} ::
      b < cfg.newBuckets && p < cfg.bucketSize ==>
        (st.newTable[b][p] != EMPTY <==> !Usable(cfg, img) && OwnTaken(cfg, img, n, b, p))
  }

  function OwnCount(cfg: Config, img: Image, k: nat): int
    requires Wide(cfg, img) && k < img.nNew
  {
    if !Usable(cfg, img) && TakesOwn(cfg, img, k) then 1 else 0
  }

  ghost predicate OwnCounts(cfg: Config, img: Image, n: nat, st: State)
    requires Wide(cfg, img) && n <= img.nNew
  {
    forall k: nat {:trigger st.infos[k]} :: k < n ==> k in st.infos && st.infos[k].refCount == OwnCount(cfg, img, k)
  }

  ghost predicate NewsRead(cfg: Config, img: Image, n: nat, st: State) {
    && Wide(cfg, img) && Shape(cfg, st) && n <= img.nNew
    && Entries(img, st, Entered(cfg, img, n)) && OwnSlots(cfg, img, n, st) && OwnCounts(cfg, img, n, st)
  }

  lemma OwnTakenNext(cfg: Config, img: Image, n: nat, n': nat, b: nat, p: nat)
    requires Wide(cfg, img) && n' == n + 1 <= |img.entries|
    ensures OwnTaken(cfg, img, n', b, p) <==> OwnTaken(cfg, img, n, b, p) || OwnAt(cfg, img, n, b, p)
  {
  }

  lemma ReadNew(cfg: Config, img: Image, n: nat, n': nat, st: State, r: State)
    requires NewsRead(cfg, img, n, st) && n' == n + 1 <= img.nNew && r == AddNew(cfg, Usable(cfg, img), st, img.entries[n])
    ensures NewsRead(cfg, img, n', r)
  {
    EnteredNew(cfg, img, n);
    EnteredNext(cfg, img, n, n');
    EntriesMore(img, st, Entered(cfg, img, n), n, Entered(cfg, img, n'), r.infos[n], r);
    ReadNewSlots(cfg, img, n, n', st, r);
  }

  lemma ReadNewSlots(cfg: Config, img: Image, n: nat, n': nat, st: State, r: State)
    requires Wide(cfg, img) && Shape(cfg, st) && n' == n + 1 <= img.nNew && st.key == img.key && st.idCount == n
    requires OwnSlots(cfg, img, n, st) && OwnCounts(cfg, img, n, st) && r == AddNew(cfg, Usable(cfg, img), st, img.entries[n])
    ensures OwnSlots(cfg, img, n', r) && OwnCounts(cfg, img, n', r)
  {
    forall b: nat, p: nat | b < cfg.newBuckets && p < cfg.bucketSize
      ensures r.newTable[b][p] != EMPTY <==> !Usable(cfg, img) && OwnTaken(cfg, img, n', b, p) {
      OwnTakenNext(cfg, img, n, n', b, p);
    }
    assert r.infos[n].refCount == OwnCount(cfg, img, n);
  }

  lemma {:induction false} ReadNews(cfg: Config, img: Image, n: nat, st: State, es: seq<Stored>, r: State)
    requires NewsRead(cfg, img, 0, st) && n <= img.nNew && es == img.entries[..n] && r == LoadNews(cfg, Usable(cfg, img), st, es)
    ensures NewsRead(cfg, img, n, r) && r.triedTable == st.triedTable
    decreases n
  {
    if n > 0 {
      var k: nat := n - 1;
      assert es[..k] == img.entries[..k];
      var mid := LoadNews(cfg, Usable(cfg, img), st, es[..k]);
      ReadNews(cfg, img, k, st, es[..k], mid);
      ReadNew(cfg, img, k, n, mid, r);
    }
  }

  // ----- reading the tried entries -----

  ghost predicate TriedSlots(cfg: Config, img: Image, n: nat, st: State)
    requires Wide(cfg, img) && Shape(cfg, st) && n <= |img.entries|
  {
    forall b: nat, p: nat {:trigger TriedTaken(cfg, img, n, b, p)} {:trigger st.triedTable[b][p]} ::
      b < cfg.triedBuckets && p < cfg.bucketSize ==> (st.triedTable[b][p] != EMPTY <==> TriedTaken(cfg, img, n, b, p))
  }

  ghost predicate TriedsRead(cfg: Config, img: Image, n: nat, st: State) {
    && Wide(cfg, img) && Shape(cfg, st) && img.nNew <= n <= |img.entries|
    && Entries(img, st, Entered(cfg, img, n)) && TriedSlots(cfg, img, n, st)
  }

  lemma TriedTakenNext(cfg: Config, img: Image, n: nat, n': nat, b: nat, p: nat)
    requires Wide(cfg, img) && img.nNew <= n && n' == n + 1 <= |img.entries|
    ensures TriedTaken(cfg, img, n', b, p) <==> TriedTaken(cfg, img, n, b, p) || TriedAt(cfg, img, n, b, p)
  {
  }

  lemma ReadTried(cfg: Config, img: Image, n: nat, n': nat, st: State, r: State)
    requires TriedsRead(cfg, img, n, st) && n' == n + 1 <= |img.entries| && r == AddTried(cfg, st, img.entries[n])
    ensures TriedsRead(cfg, img, n', r) && r.newTable == st.newTable && SameBelow(st, r)
  {
    EnteredNext(cfg, img, n, n');
    if Enters(cfg, img, n) {
      EntriesMore(img, st, Entered(cfg, img, n), n, Entered(cfg, img, n'), r.infos[st.idCount], r);
    }
    forall b: nat, p: nat | b < cfg.triedBuckets && p < cfg.bucketSize
      ensures r.triedTable[b][p] != EMPTY <==> TriedTaken(cfg, img, n', b, p) {
      TriedTakenNext(cfg, img, n, n', b, p);
    }
  }

  predicate SameAt(st: State, r: State, id: int)
    requires id in st.infos
  {
    id in r.infos && r.infos[id] == st.infos[id]
  }

  /** The entries with smaller ids are as they were. */
  ghost predicate SameBelow(st: State, r: State) {
    r.idCount >= st.idCount && forall id {:trigger SameAt(st, r, id)} :: id in st.infos && id < st.idCount ==> SameAt(st, r, id)
  }

  lemma SameBelowNext(st: State, m: State, r: State)
    requires SameBelow(st, m) && SameBelow(m, r)
    ensures SameBelow(st, r)
  {
    forall id | id in st.infos && id < st.idCount ensures SameAt(st, r, id) {
      assert SameAt(st, m, id) && SameAt(m, r, id);
    }
  }

  lemma ReadAfter(cfg: Config, img: Image, st: State, k: nat, n: nat, mid: State, r: State)
    requires TriedsRead(cfg, img, k, mid) && SameBelow(st, mid) && mid.newTable == st.newTable
    requires n == k + 1 <= |img.entries| && r == AddTried(cfg, mid, img.entries[k])
    ensures TriedsRead(cfg, img, n, r) && r.newTable == st.newTable && SameBelow(st, r)
  {
    ReadTried(cfg, img, k, n, mid, r);
    SameBelowNext(st, mid, r);
  }

  lemma TriedsLast(img: Image, j: nat, k: nat, n: nat, es: seq<Stored>, before: seq<Stored>)
    requires img.nNew <= k && k == img.nNew + j && n == k + 1 <= |img.entries| && es == img.entries[img.nNew..n] && before == es[..j]
    ensures before == img.entries[img.nNew..k] && |es| == j + 1 && es[j] == img.entries[k]
  {
  }

  lemma {:induction false} ReadTrieds(cfg: Config, img: Image, m: nat, n: nat, st: State, es: seq<Stored>, r: State)
    requires TriedsRead(cfg, img, img.nNew, st) && m <= img.nTried && n == img.nNew + m && es == img.entries[img.nNew..n]
    requires r == LoadTrieds(cfg, st, es)
    ensures TriedsRead(cfg, img, n, r) && r.newTable == st.newTable && SameBelow(st, r)
    decreases m
  {
    if m > 0 {
      var j: nat, k: nat, before := m - 1, n - 1, es[..m - 1];
      TriedsLast(img, j, k, n, es, before);
      var mid := LoadTrieds(cfg, st, before);
      LoadTriedsLast(cfg, st, es, before, img.entries[k], mid, r);
      ReadTrieds(cfg, img, j, k, st, before, mid);
      ReadAfter(cfg, img, st, k, n, mid, r);
    }
  }

  // ----- placing the references -----

  /** A new entry as the image has it, with the given number of references. */
  predicate HasRefs(img: Image, st: State, k: nat, n: int)
    requires k < |img.entries|
  {
    k in st.infos && st.infos[k].service == img.entries[k].service && st.infos[k].refCount == n
  }

  /** The references that the rows before b gave to entry k. */
  ghost predicate CountedIn(cfg: Config, img: Image, b: nat, st: State, k: nat)
    requires Wide(cfg, img) && b <= |img.rows| && k < img.nNew
  {
    HasRefs(img, st, k, Won(cfg, img, b, k))
  }

  ghost predicate Counts(cfg: Config, img: Image, b: nat, st: State)
    requires Wide(cfg, img) && b <= |img.rows|
  {
    forall k: nat {:trigger CountedIn(cfg, img, b, st, k)} :: k < img.nNew ==> CountedIn(cfg, img, b, st, k)
  }

  /** And with those of the first i references of row b. */
  ghost predicate CountedTo(cfg: Config, img: Image, b: nat, i: nat, st: State, k: nat)
    requires Wide(cfg, img) && b < |img.rows| && i <= |img.rows[b]| && k < img.nNew
  {
    HasRefs(img, st, k, Won(cfg, img, b, k) + Bit(WinsIn(cfg, img, b, i, k)))
  }

  ghost predicate BlankFrom(cfg: Config, st: State, b: nat)
    requires Shape(cfg, st)
  {
    forall c: nat, p: nat {:trigger st.newTable[c][p]} :: b <= c < cfg.newBuckets && p < cfg.bucketSize ==> st.newTable[c][p] == EMPTY
  }

  /** One of the first i references of row b is taken and is at position p. */
  ghost predicate WonSlot(cfg: Config, img: Image, b: nat, i: nat, p: nat)
    requires Wide(cfg, img) && b < |img.rows| && i <= |img.rows[b]|
  {
    exists j: nat {:trigger Wins(cfg, img, b, j)} :: j < i && Wins(cfg, img, b, j) && PlaceIn(cfg, img, b, img.rows[b][j]) == p
  }

  function Bit(b: bool): int { if b then 1 else 0 }

  ghost predicate InRow(cfg: Config, img: Image, b: nat, i: nat, st: State) {
    && Wide(cfg, img) && Shape(cfg, st) && st.key == img.key && b < |img.rows| == cfg.newBuckets && i <= |img.rows[b]|
    && (forall k: nat {:trigger CountedTo(cfg, img, b, i, st, k)} :: k < img.nNew ==> CountedTo(cfg, img, b, i, st, k))
    && (forall p: nat {:trigger st.newTable[b][p]} :: p < cfg.bucketSize ==> (st.newTable[b][p] != EMPTY <==> WonSlot(cfg, img, b, i, p)))
    && BlankFrom(cfg, st, b + 1)
  }

  lemma WinsInNext(cfg: Config, img: Image, b: nat, i: nat, i': nat, k: int)
    requires Wide(cfg, img) && b < |img.rows| && i' == i + 1 <= |img.rows[b]|
    ensures WinsIn(cfg, img, b, i', k) <==> WinsIn(cfg, img, b, i, k) || (Wins(cfg, img, b, i) && img.rows[b][i] == k)
  {
  }

  lemma WonSlotNext(cfg: Config, img: Image, b: nat, i: nat, i': nat, p: nat)
    requires Wide(cfg, img) && b < |img.rows| && i' == i + 1 <= |img.rows[b]|
    ensures WonSlot(cfg, img, b, i', p)
       <==> WonSlot(cfg, img, b, i, p) || (Wins(cfg, img, b, i) && PlaceIn(cfg, img, b, img.rows[b][i]) == p)
  {
  }

  /** A reference is taken exactly when its slot is still free and the entry has fewer than eight places. */
  lemma TakenIff(cfg: Config, img: Image, b: nat, i: nat, st: State, k: int)
    requires InRow(cfg, img, b, i, st) && i < |img.rows[b]| && k == img.rows[b][i]
    ensures Wins(cfg, img, b, i) <==>
      0 <= k < img.nNew && k in st.infos && st.newTable[b][PlaceIn(cfg, img, b, k)] == EMPTY && st.infos[k].refCount < NEW_BUCKETS_PER_ADDRESS
  {
    if 0 <= k < img.nNew {
      var p, x: nat := PlaceIn(cfg, img, b, k), k;
      assert CountedTo(cfg, img, b, i, st, x);
      assert st.newTable[b][p] != EMPTY <==> WonSlot(cfg, img, b, i, p);
      if WinsIn(cfg, img, b, i, k) {
        var j: nat :| j < i && Wins(cfg, img, b, j) && img.rows[b][j] == k;
        assert WonSlot(cfg, img, b, i, p);
      }
    }
  }

  lemma PlaceOne(cfg: Config, img: Image, b: nat, i: nat, i': nat, st: State, k: int, r: State)
    requires InRow(cfg, img, b, i, st) && i' == i + 1 <= |img.rows[b]| && k == img.rows[b][i]
    requires r == PlaceRef(cfg, true, img.nNew, st, b, k)
    ensures InRow(cfg, img, b, i', r)
  {
    TakenIff(cfg, img, b, i, st, k);
    if 0 <= k < img.nNew {
      var x: nat := k;
      assert CountedTo(cfg, img, b, i, st, x);
    }
    forall x: nat | x < img.nNew ensures CountedTo(cfg, img, b, i', r, x) {
      WinsInNext(cfg, img, b, i, i', x);
      PlacedCount(cfg, img, b, i, i', st, k, r, x);
    }
    forall p: nat | p < cfg.bucketSize ensures r.newTable[b][p] != EMPTY <==> WonSlot(cfg, img, b, i', p) {
      WonSlotNext(cfg, img, b, i, i', p);
    }
    StillBlank(cfg, st, b + 1, r);
  }

  lemma StillBlank(cfg: Config, st: State, b: nat, r: State)
    requires Shape(cfg, st) && Shape(cfg, r) && BlankFrom(cfg, st, b) && b <= |st.newTable| && r.newTable[b..] == st.newTable[b..]
    ensures BlankFrom(cfg, r, b)
  {
    forall c: nat, p: nat | b <= c < cfg.newBuckets && p < cfg.bucketSize ensures r.newTable[c][p] == EMPTY {
      assert r.newTable[c] == r.newTable[b..][c - b] == st.newTable[b..][c - b] == st.newTable[c];
      assert st.newTable[c][p] == EMPTY;
    }
  }

  /** The count of one entry after a reference; a reference to an entry that was already placed in this row
      finds its slot taken. */
  lemma PlacedCount(cfg: Config, img: Image, b: nat, i: nat, i': nat, st: State, k: int, r: State, x: nat)
    requires InRow(cfg, img, b, i, st) && i' == i + 1 <= |img.rows[b]| && k == img.rows[b][i] && x < img.nNew
    requires r == PlaceRef(cfg, true, img.nNew, st, b, k)
    requires Wins(cfg, img, b, i) <==>
      0 <= k < img.nNew && k in st.infos && st.newTable[b][PlaceIn(cfg, img, b, k)] == EMPTY && st.infos[k].refCount < NEW_BUCKETS_PER_ADDRESS
    requires WinsIn(cfg, img, b, i', x) <==> WinsIn(cfg, img, b, i, x) || (Wins(cfg, img, b, i) && img.rows[b][i] == x)
    ensures CountedTo(cfg, img, b, i', r, x)
  {
    assert CountedTo(cfg, img, b, i, st, x);
  }

  lemma {:induction false} PlaceRow(cfg: Config, img: Image, b: nat, i: nat, st: State, row: seq<int>, r: State)
    requires InRow(cfg, img, b, 0, st) && i <= |img.rows[b]| && row == img.rows[b][..i] && r == LoadRow(cfg, true, img.nNew, st, b, row)
    ensures InRow(cfg, img, b, i, r)
    decreases i
  {
    if i > 0 {
      var j: nat := i - 1;
      assert row[..j] == img.rows[b][..j];
      var mid := LoadRow(cfg, true, img.nNew, st, b, row[..j]);
      PlaceRow(cfg, img, b, j, st, row[..j], mid);
      PlaceOne(cfg, img, b, j, i, mid, row[j], r);
    }
  }

  ghost predicate RowsPlaced(cfg: Config, img: Image, b: nat, st: State) {
    && Wide(cfg, img) && Shape(cfg, st) && st.key == img.key && b <= |img.rows| == cfg.newBuckets
    && Counts(cfg, img, b, st) && BlankFrom(cfg, st, b)
  }

  lemma RowStart(cfg: Config, img: Image, b: nat, st: State)
    requires RowsPlaced(cfg, img, b, st) && b < |img.rows|
    ensures InRow(cfg, img, b, 0, st)
  {
    forall k: nat | k < img.nNew ensures CountedTo(cfg, img, b, 0, st, k) {
      assert CountedIn(cfg, img, b, st, k) && !WinsIn(cfg, img, b, 0, k);
    }
    forall p: nat | p < cfg.bucketSize ensures st.newTable[b][p] != EMPTY <==> WonSlot(cfg, img, b, 0, p) {
      assert !WonSlot(cfg, img, b, 0, p);
    }
    assert BlankFrom(cfg, st, b + 1);
  }

  lemma RowDone(cfg: Config, img: Image, b: nat, b': nat, st: State)
    requires b < |img.rows| && InRow(cfg, img, b, |img.rows[b]|, st) && b' == b + 1
    ensures RowsPlaced(cfg, img, b', st)
  {
    forall k: nat | k < img.nNew ensures CountedIn(cfg, img, b', st, k) {
      assert CountedTo(cfg, img, b, |img.rows[b]|, st, k);
    }
  }

  lemma {:induction false} PlaceRows(cfg: Config, img: Image, b: nat, st: State, rows: seq<seq<int>>, r: State)
    requires RowsPlaced(cfg, img, 0, st) && b <= |img.rows| && rows == img.rows[..b] && r == LoadRows(cfg, true, img.nNew, st, rows)
    ensures RowsPlaced(cfg, img, b, r)
    decreases b
  {
    if b > 0 {
      var c: nat := b - 1;
      assert rows[..c] == img.rows[..c];
      var mid := LoadRows(cfg, true, img.nNew, st, rows[..c]);
      PlaceRows(cfg, img, c, st, rows[..c], mid);
      RowStart(cfg, img, c, mid);
      assert rows[c] == img.rows[c][..|img.rows[c]|];
      PlaceRow(cfg, img, c, |img.rows[c]|, mid, rows[c], r);
      RowDone(cfg, img, c, b, r);
    }
  }

  lemma SameThrough(st: State, m: State, r: State)
    requires SameEntries(st, m) && SameEntries(m, r)
    ensures SameEntries(st, r)
  {
    forall id | id in r.infos ensures SameButPlace(st.infos[id], r.infos[id]) {
      assert SameButPlace(st.infos[id], m.infos[id]) && SameButPlace(m.infos[id], r.infos[id]);
    }
  }

  lemma {:induction false} RowSame(cfg: Config, usable: bool, n: nat, st: State, b: nat, row: seq<int>, r: State)
    requires Shape(cfg, st) && r == LoadRow(cfg, usable, n, st, b, row)
    ensures SameEntries(st, r) && (!usable ==> r == st)
    decreases |row|
  {
    if row != [] {
      var m := LoadRow(cfg, usable, n, st, b, row[..|row| - 1]);
      RowSame(cfg, usable, n, st, b, row[..|row| - 1], m);
      RefSame(cfg, usable, n, m, b, row[|row| - 1], r);
      SameThrough(st, m, r);
    }
  }

  lemma RefSame(cfg: Config, usable: bool, n: nat, st: State, b: nat, index: int, r: State)
    requires Shape(cfg, st) && r == PlaceRef(cfg, usable, n, st, b, index)
    ensures SameEntries(st, r) && (!usable ==> r == st)
  {
  }

  lemma {:induction false} RowsSame(cfg: Config, usable: bool, n: nat, st: State, rows: seq<seq<int>>, r: State)
    requires Shape(cfg, st) && r == LoadRows(cfg, usable, n, st, rows)
    ensures SameEntries(st, r) && (!usable ==> r == st)
    decreases |rows|
  {
    if rows != [] {
      var m := LoadRows(cfg, usable, n, st, rows[..|rows| - 1]);
      RowsSame(cfg, usable, n, st, rows[..|rows| - 1], m);
      RowSame(cfg, usable, n, m, |rows| - 1, rows[|rows| - 1], r);
      SameThrough(st, m, r);
    }
  }

  // ----- pruning -----

  function LooseBelow(st: State, n: nat): set<int> { set id | id in LooseIds(st) && 0 <= id < n }

  function LooseIps(st: State, n: nat): set<NetAddr> { set id | id in LooseIds(st) && 0 <= id < n :: st.infos[id].service.ip }

  /** Pruning the ids below n removed the loose ones and their addresses. */
  ghost predicate PrunedTo(st: State, n: nat, r: State) {
    && r.key == st.key && r.infos.Keys == st.infos.Keys - LooseBelow(st, n) && r.addrs == st.addrs - LooseIps(st, n)
    && forall id {:trigger r.infos[id]} :: id in r.infos ==> SamePayload(st.infos[id], r.infos[id])
  }

  lemma {:induction false} PruneIs(cfg: Config, st: State, n: nat, r: State)
    requires Loading(cfg, st) && r == Prune(st, n)
    ensures PrunedTo(st, n, r)
    decreases n
  {
    if n > 0 {
      var k: nat := n - 1;
      var m := Prune(st, k);
      PruneIs(cfg, st, k, m);
      PruneKeeps(cfg, st, k);
      PruneOneIs(cfg, st, k, n, m, r);
    }
  }

  lemma PruneOneIs(cfg: Config, st: State, k: nat, n: nat, m: State, r: State)
    requires PrunedTo(st, k, m) && Loading(cfg, m) && n == k + 1 && r == PruneOne(m, k)
    ensures PrunedTo(st, n, r)
  {
    LooseNext(st, k, n);
    StillLoose(st, k, m);
    if k in LooseIds(m) {
      LooseDropped(cfg, m, k, r);
      DroppedNext(st, k, n, m, r);
    }
  }

  lemma StillLoose(st: State, k: nat, m: State)
    requires PrunedTo(st, k, m)
    ensures k in LooseIds(m) <==> k in LooseIds(st)
    ensures k in LooseIds(st) ==> m.infos[k].service == st.infos[k].service
  {
    assert k in st.infos ==> k in m.infos;
    if k in m.infos { SamePayloadTables(st.infos[k], m.infos[k]); }
  }

  /** One entry and its address are gone. */
  ghost predicate Drops(m: State, k: int, r: State)
    requires k in m.infos
  {
    && r.key == m.key && r.infos.Keys == m.infos.Keys - {k} && r.addrs == m.addrs - {m.infos[k].service.ip}
    && forall id {:trigger r.infos[id]} :: id in r.infos ==> SamePayload(m.infos[id], r.infos[id])
  }

  lemma LooseDropped(cfg: Config, m: State, k: int, r: State)
    requires Loading(cfg, m) && k in LooseIds(m) && r == PruneOne(m, k)
    ensures Drops(m, k, r)
  {
    LooseDeletable(cfg, m, k);
    DeleteKeeps(cfg, m, LooseIds(m), {}, k);
  }

  lemma DroppedNext(st: State, k: nat, n: nat, m: State, r: State)
    requires PrunedTo(st, k, m) && k in LooseIds(st) && k in m.infos && Drops(m, k, r)
    requires LooseBelow(st, n) == LooseBelow(st, k) + {k as int} && LooseIps(st, n) == LooseIps(st, k) + {m.infos[k].service.ip}
    ensures PrunedTo(st, n, r)
  {
    forall id | id in r.infos ensures SamePayload(st.infos[id], r.infos[id]) {
      assert SamePayload(m.infos[id], r.infos[id]) && SamePayload(st.infos[id], m.infos[id]);
    }
  }

  lemma LooseNext(st: State, k: nat, n: nat)
    requires n == k + 1
    ensures LooseBelow(st, n) == LooseBelow(st, k) + if k in LooseIds(st) then {k as int} else {}
    ensures LooseIps(st, n) == LooseIps(st, k) + if k in LooseIds(st) then {st.infos[k].service.ip} else {}
  {
  }

  lemma SamePayloadTables(a: Info, b: Info)
    requires SamePayload(a, b)
    ensures Store(a) == Store(b) && a.lastTry == b.lastTry && a.inTried == b.inTried && a.refCount == b.refCount
  {
    var c, d := a.(randomPos := 0), b.(randomPos := 0);
    assert c.service == d.service && c.services == d.services && c.time == d.time && c.source == d.source;
    assert c.lastSuccess == d.lastSuccess && c.attempts == d.attempts && c.lastTry == d.lastTry;
    assert c.inTried == d.inTried && c.refCount == d.refCount;
  }

  // ----- the address map in the end -----

  /** Two entries with the same address. */
  predicate Twins(st: State, i: int, j: int) {
    i in st.infos && j in st.infos && i != j && st.infos[i].service.ip == st.infos[j].service.ip
  }

  /** All loose entries are among those pruned. */
  ghost predicate PrunedAll(st: State, n: nat, r: State) {
    PrunedTo(st, n, r) && Listed(st) && forall id :: id in LooseIds(st) ==> 0 <= id < n
  }

  lemma KeptInfo(st: State, n: nat, r: State, id: int)
    requires PrunedAll(st, n, r)
    ensures id in r.infos <==> id in st.infos && id !in LooseIds(st)
    ensures id in r.infos ==> r.infos[id].service == st.infos[id].service
  {
    if id in r.infos { SamePayloadTables(st.infos[id], r.infos[id]); }
  }

  /** An address is gone exactly when a loose entry had it. */
  lemma KeptAddr(st: State, n: nat, r: State, ip: NetAddr)
    requires PrunedAll(st, n, r)
    ensures ip in r.addrs <==> ip in st.addrs && forall id {:trigger st.infos[id]} :: id in LooseIds(st) ==> st.infos[id].service.ip != ip
    ensures ip in r.addrs ==> r.addrs[ip] == st.addrs[ip]
  {
    if ip in LooseIps(st, n) {
      var id :| id in LooseIds(st) && 0 <= id < n && st.infos[id].service.ip == ip;
      assert st.infos[id].service.ip == ip;
    }
  }

  /** No address leads nowhere. */
  lemma AddrsLead(st: State, n: nat, r: State, ip: NetAddr)
    requires PrunedAll(st, n, r) && ip in r.addrs
    ensures IpOk(r, ip)
  {
    KeptAddr(st, n, r, ip);
    assert IpOk(st, ip);
    KeptInfo(st, n, r, st.addrs[ip]);
  }

  lemma Alone(st: State, n: nat, r: State, i: int)
    requires PrunedAll(st, n, r) && i in r.infos && forall j {:trigger Twins(st, i, j)} :: !Twins(st, i, j)
    ensures AddrOk(r, i)
  {
    KeptInfo(st, n, r, i);
    var ip := st.infos[i].service.ip;
    assert ip in st.addrs && IpOk(st, ip) && !Twins(st, i, st.addrs[ip]);
    forall id | id in LooseIds(st) ensures st.infos[id].service.ip != ip { assert !Twins(st, i, id); }
    KeptAddr(st, n, r, ip);
  }

  /** The address map is right exactly when no entry that stays has a twin. */
  lemma MapOk(st: State, n: nat, r: State)
    requires PrunedAll(st, n, r)
    ensures AddrsOk(r) <==> forall i, j {:trigger Twins(st, i, j)} :: Twins(st, i, j) ==> i in LooseIds(st)
  {
    if AddrsOk(r) {
      forall i, j | Twins(st, i, j) ensures i in LooseIds(st) { TwinIsLoose(st, n, r, i, j); }
    }
    if forall i, j {:trigger Twins(st, i, j)} :: Twins(st, i, j) ==> i in LooseIds(st) {
      forall i | i in r.infos ensures AddrOk(r, i) {
        KeptInfo(st, n, r, i);
        Alone(st, n, r, i);
      }
      forall ip | ip in r.addrs ensures IpOk(r, ip) { AddrsLead(st, n, r, ip); }
    }
  }

  lemma TwinIsLoose(st: State, n: nat, r: State, i: int, j: int)
    requires PrunedAll(st, n, r) && Twins(st, i, j) && AddrsOk(r)
    ensures i in LooseIds(st)
  {
    var ip := st.infos[i].service.ip;
    KeptInfo(st, n, r, i);
    KeptInfo(st, n, r, j);
    KeptAddr(st, n, r, ip);
    assert i in r.infos ==> AddrOk(r, i);
    assert j in r.infos ==> AddrOk(r, j);
    assert st.infos[j].service.ip == ip;
  }

  // ----- the whole of loading -----

  lemma NothingRead(cfg: Config, img: Image, st: State)
    requires Wide(cfg, img) && st == Ops.Fresh(cfg, img.key) && Shape(cfg, st)
    ensures NewsRead(cfg, img, 0, st)
    ensures forall b: nat, p: nat {:trigger st.triedTable[b][p]} :: b < cfg.triedBuckets && p < cfg.bucketSize ==> st.triedTable[b][p] == EMPTY
  {
    assert Entered(cfg, img, 0) == [];
  }

  lemma NewsDone(cfg: Config, img: Image, st: State)
    requires NewsRead(cfg, img, img.nNew, st)
    requires forall b: nat, p: nat {:trigger st.triedTable[b][p]} :: b < cfg.triedBuckets && p < cfg.bucketSize ==> st.triedTable[b][p] == EMPTY
    ensures TriedsRead(cfg, img, img.nNew, st)
  {
    forall b: nat, p: nat | b < cfg.triedBuckets && p < cfg.bucketSize
      ensures st.triedTable[b][p] != EMPTY <==> TriedTaken(cfg, img, img.nNew, b, p) {
      assert !TriedTaken(cfg, img, img.nNew, b, p);
    }
  }

  /** Each new entry has as many references as the image gives it. */
  ghost predicate FinalRefs(cfg: Config, img: Image, st: State, k: nat)
    requires Wide(cfg, img) && k < img.nNew
  {
    HasRefs(img, st, k, Places(cfg, img, k))
  }

  ghost predicate AllRefs(cfg: Config, img: Image, st: State)
    requires Wide(cfg, img)
  {
    forall k: nat {:trigger FinalRefs(cfg, img, st, k)} :: k < img.nNew ==> FinalRefs(cfg, img, st, k)
  }

  /** A new entry after all entries have been read. */
  lemma NewEntryRead(cfg: Config, img: Image, st1: State, st2: State, k: nat)
    requires NewsRead(cfg, img, img.nNew, st1) && SameBelow(st1, st2) && k < img.nNew
    ensures HasRefs(img, st2, k, OwnCount(cfg, img, k))
  {
    EnteredNew(cfg, img, img.nNew);
    assert EntryAt(img, st1, Entered(cfg, img, img.nNew), k);
    assert k in st1.infos && st1.infos[k].refCount == OwnCount(cfg, img, k);
    assert SameAt(st1, st2, k);
  }

  lemma RowsAhead(cfg: Config, img: Image, st1: State, st2: State)
    requires NewsRead(cfg, img, img.nNew, st1) && TriedsRead(cfg, img, |img.entries|, st2) && SameBelow(st1, st2)
    requires st2.newTable == st1.newTable && Usable(cfg, img)
    ensures RowsPlaced(cfg, img, 0, st2)
  {
    forall k: nat | k < img.nNew ensures CountedIn(cfg, img, 0, st2, k) { NewEntryRead(cfg, img, st1, st2, k); }
    forall b: nat, p: nat | 0 <= b < cfg.newBuckets && p < cfg.bucketSize ensures st2.newTable[b][p] == EMPTY {
      assert st1.newTable[b][p] == EMPTY;
    }
  }

  lemma RefsDone(cfg: Config, img: Image, st1: State, st2: State, st: State)
    requires NewsRead(cfg, img, img.nNew, st1) && TriedsRead(cfg, img, |img.entries|, st2) && SameBelow(st1, st2)
    requires st2.newTable == st1.newTable && st == LoadRows(cfg, Usable(cfg, img), img.nNew, st2, img.rows)
    ensures AllRefs(cfg, img, st)
  {
    if Usable(cfg, img) {
      RowsAhead(cfg, img, st1, st2);
      assert img.rows == img.rows[..|img.rows|];
      PlaceRows(cfg, img, |img.rows|, st2, img.rows, st);
      forall k: nat | k < img.nNew ensures FinalRefs(cfg, img, st, k) { assert CountedIn(cfg, img, |img.rows|, st, k); }
    } else {
      RowsSame(cfg, false, img.nNew, st2, img.rows, st);
      forall k: nat | k < img.nNew ensures FinalRefs(cfg, img, st, k) { NewEntryRead(cfg, img, st1, st2, k); }
    }
  }

  lemma AllNewsRead(cfg: Config, img: Image, st0: State, st1: State)
    requires Wide(cfg, img) && st0 == Ops.Fresh(cfg, img.key) && Shape(cfg, st0)
    requires st1 == LoadNews(cfg, Usable(cfg, img), st0, img.entries[..img.nNew])
    ensures NewsRead(cfg, img, img.nNew, st1) && TriedsRead(cfg, img, img.nNew, st1)
  {
    NothingRead(cfg, img, st0);
    ReadNews(cfg, img, img.nNew, st0, img.entries[..img.nNew], st1);
    NewsDone(cfg, img, st1);
  }

  lemma AllTriedsRead(cfg: Config, img: Image, st1: State, es: seq<Stored>, st2: State)
    requires TriedsRead(cfg, img, img.nNew, st1) && es == img.entries[img.nNew..] && st2 == LoadTrieds(cfg, st1, es)
    ensures TriedsRead(cfg, img, |img.entries|, st2) && SameBelow(st1, st2) && st2.newTable == st1.newTable
  {
    assert es == img.entries[img.nNew..|img.entries|];
    ReadTrieds(cfg, img, img.nTried, |img.entries|, st1, es, st2);
  }

  lemma EntriesRead(cfg: Config, img: Image, st0: State, st1: State, st2: State, st: State)
    requires Stages(cfg, img, st0, st1, st2, st)
    ensures NewsRead(cfg, img, img.nNew, st1) && TriedsRead(cfg, img, |img.entries|, st2)
    ensures SameBelow(st1, st2) && st2.newTable == st1.newTable
  {
    AllNewsRead(cfg, img, st0, st1);
    AllTriedsRead(cfg, img, st1, img.entries[img.nNew..], st2);
  }

  /** The state before pruning: the entries that enter, in their order, with the references the image gives them. */
  lemma TablesAre(cfg: Config, img: Image, st: State)
    requires Wide(cfg, img) && st == LoadTables(cfg, img)
    ensures Entries(img, st, Entered(cfg, img, |img.entries|)) && AllRefs(cfg, img, st)
  {
    var st0, st1, st2 := LoadStages(cfg, img);
    EntriesRead(cfg, img, st0, st1, st2, st);
    RowsSame(cfg, Usable(cfg, img), img.nNew, st2, img.rows, st);
    EntriesSame(img, st2, Entered(cfg, img, |img.entries|), st);
    RefsDone(cfg, img, st1, st2, st);
  }

  lemma NewIsOwnId(cfg: Config, img: Image, l: seq<nat>, i: int)
    requires Wide(cfg, img) && l == Entered(cfg, img, |img.entries|) && 0 <= i < |l| && l[i] < img.nNew
    ensures l[i] == i
  {
    var k := l[i];
    EnteredIs(cfg, img, |img.entries|);
    EnteredNew(cfg, img, img.nNew);
    EnteredMore(cfg, img, img.nNew, |img.entries|);
    assert l[k] == Entered(cfg, img, img.nNew)[k] == k;
  }

  lemma LooseIff(cfg: Config, img: Image, st: State, l: seq<nat>, i: int)
    requires Wide(cfg, img) && l == Entered(cfg, img, |img.entries|) && Entries(img, st, l) && AllRefs(cfg, img, st) && 0 <= i < |l|
    ensures i in LooseIds(st) <==> !Survives(cfg, img, l[i])
  {
    EnteredIs(cfg, img, |img.entries|);
    assert EntryAt(img, st, l, i);
    if l[i] < img.nNew {
      NewIsOwnId(cfg, img, l, i);
      assert FinalRefs(cfg, img, st, l[i]);
    }
  }

  /** A loaded manager, with the list of the entries that entered and the state before pruning. */
  ghost predicate LoadedAs(cfg: Config, img: Image, l: seq<nat>, st: State, n: nat, r: State) {
    && Wide(cfg, img) && l == Entered(cfg, img, |img.entries|) && Entries(img, st, l)
    && PrunedAll(st, n, r) && Tabled(cfg, r, {}, {})
    && forall i {:trigger l[i]} :: 0 <= i < |l| ==> (i in LooseIds(st) <==> !Survives(cfg, img, l[i]))
  }

  lemma LoadedFrom(cfg: Config, img: Image) returns (l: seq<nat>, st: State, n: nat)
    requires Wide(cfg, img)
    ensures LoadedAs(cfg, img, l, st, n, Load(cfg, img))
  {
    st, l := LoadTables(cfg, img), Entered(cfg, img, |img.entries|);
    LoadTablesKeeps(cfg, img);
    LoadTabled(cfg, img);
    n := st.idCount;
    TablesAre(cfg, img, st);
    PruneIs(cfg, st, n, Load(cfg, img));
    forall i | 0 <= i < |l| ensures i in LooseIds(st) <==> !Survives(cfg, img, l[i]) { LooseIff(cfg, img, st, l, i); }
  }

  /** What is there in the end: the surviving entries, each under the id that it got when it entered. */
  lemma LoadedEntries(cfg: Config, img: Image, id: int)
    requires Wide(cfg, img)
    ensures var l, r := Entered(cfg, img, |img.entries|), Load(cfg, img);
      && (id in r.infos <==> 0 <= id < |l| && Survives(cfg, img, l[id]))
      && (id in r.infos ==> Matches(img, r.infos[id], l[id]))
  {
    var l, st, n := LoadedFrom(cfg, img);
    EntryKept(cfg, img, l, st, n, Load(cfg, img), id);
  }

  lemma EntryKept(cfg: Config, img: Image, l: seq<nat>, st: State, n: nat, r: State, id: int)
    requires LoadedAs(cfg, img, l, st, n, r)
    ensures id in r.infos <==> 0 <= id < |l| && Survives(cfg, img, l[id])
    ensures id in r.infos ==> Matches(img, r.infos[id], l[id])
  {
    KeptInfo(st, n, r, id);
    if id in r.infos {
      assert EntryAt(img, st, l, id);
      SamePayloadTables(st.infos[id], r.infos[id]);
    }
  }

  lemma TimedIff(cfg: Config, img: Image, l: seq<nat>, st: State, n: nat, r: State)
    requires LoadedAs(cfg, img, l, st, n, r)
    ensures Timed(r) <==> TimesGood(cfg, img)
  {
    if TimesGood(cfg, img) {
      forall id | id in r.infos ensures r.infos[id].TimesOk() {
        EntryKept(cfg, img, l, st, n, r, id);
        assert GoodTimes(img, l[id]);
      }
    }
    if Timed(r) {
      forall k: nat | Survives(cfg, img, k) ensures GoodTimes(img, k) {
        var id := EnteredHas(cfg, img, |img.entries|, k);
        EntryKept(cfg, img, l, st, n, r, id);
        assert r.infos[id].TimesOk();
      }
    }
  }

  /** Entries with one address are twins under their ids. */
  lemma TwinsShare(cfg: Config, img: Image, l: seq<nat>, st: State, n: nat, r: State, i: int, j: int)
    requires LoadedAs(cfg, img, l, st, n, r) && 0 <= i < |l| && 0 <= j < |l|
    ensures Twins(st, i, j) <==> Shares(cfg, img, l[j], l[i])
  {
    EnteredIs(cfg, img, |img.entries|);
    assert EntryAt(img, st, l, i) && EntryAt(img, st, l, j);
    assert i < j ==> l[i] < l[j];
    assert j < i ==> l[j] < l[i];
  }

  lemma SharedIff(cfg: Config, img: Image, l: seq<nat>, st: State, n: nat, r: State)
    requires LoadedAs(cfg, img, l, st, n, r)
    ensures (forall i, j {:trigger Twins(st, i, j)} :: Twins(st, i, j) ==> i in LooseIds(st)) <==> NoneShared(cfg, img)
  {
    if NoneShared(cfg, img) {
      forall i, j | Twins(st, i, j) ensures i in LooseIds(st) { TwinsShare(cfg, img, l, st, n, r, i, j); }
    }
    if forall i, j {:trigger Twins(st, i, j)} :: Twins(st, i, j) ==> i in LooseIds(st) {
      forall j: nat, k: nat | Shares(cfg, img, j, k) ensures !Survives(cfg, img, k) {
        var a := EnteredHas(cfg, img, |img.entries|, k);
        var b := EnteredHas(cfg, img, |img.entries|, j);
        TwinsShare(cfg, img, l, st, n, r, a, b);
        assert Twins(st, a, b);
      }
    }
  }

  /** Every image loads into tables that agree with each other; it loads into a consistent manager exactly when
      every surviving entry has good times and none of them shares its address with another entry that entered. */
  lemma LoadConsistent(cfg: Config, img: Image)
    requires Wide(cfg, img)
    ensures Tabled(cfg, Load(cfg, img), {}, {})
    ensures Consistent(cfg, Load(cfg, img)) <==> TimesGood(cfg, img) && NoneShared(cfg, img)
  {
    var r := Load(cfg, img);
    var l, st, n := LoadedFrom(cfg, img);
    TimedIff(cfg, img, l, st, n, r);
    MapOk(st, n, r);
    SharedIff(cfg, img, l, st, n, r);
  }

  // ----- images that load wrongly -----

  /** One bucket of each kind with two slots, chosen by the port. */
  const SMALL := Config(1, 1, 2, (q: Preimage) => if q.Position? then q.service.port else 0, (ip: NetAddr) => 0, (ip: NetAddr) => true)

  function Entry(ip: NetAddr, port: nat, lastSuccess: int): Stored { Stored(Service(ip, port), 0, 0, 0, lastSuccess, 0) }

  /** Two ports of one address, both tried and reached, in different slots: both stay, with one place in the map. */
  lemma RepeatedAddressFails(key: Key)
    ensures var img := Image(1, key, 0, 2, 1, [Entry(5, 0, 1), Entry(5, 1, 1)], [[]]);
      Wide(SMALL, img) && Usable(SMALL, img) && TimesGood(SMALL, img) && !Consistent(SMALL, Load(SMALL, img))
  {
    var img := Image(1, key, 0, 2, 1, [Entry(5, 0, 1), Entry(5, 1, 1)], [[]]);
    assert !TriedTaken(SMALL, img, 0, 0, 0);
    assert !TriedAt(SMALL, img, 0, 0, 1) && !TriedTaken(SMALL, img, 1, 0, 1);
    assert Shares(SMALL, img, 0, 1) && Survives(SMALL, img, 1);
    LoadConsistent(SMALL, img);
  }

  /** A tried entry that was never reached. */
  lemma UnreachedTriedFails(key: Key)
    ensures var img := Image(1, key, 0, 1, 1, [Entry(5, 0, 0)], [[]]);
      Wide(SMALL, img) && Usable(SMALL, img) && NoneShared(SMALL, img) && !Consistent(SMALL, Load(SMALL, img))
  {
    var img := Image(1, key, 0, 1, 1, [Entry(5, 0, 0)], [[]]);
    assert !TriedTaken(SMALL, img, 0, 0, 0);
    assert Survives(SMALL, img, 0) && !GoodTimes(img, 0);
    LoadConsistent(SMALL, img);
  }
}
