/**
 The stake modifier: 64 blocks of the recent past are selected one by one, each giving one bit
 (src/kernel.cpp:22-191). The selection hash is an input; a chain is the list of its blocks from genesis.
 */
module StakeModifier {
  import opened Wrappers

  type Hash = nat
  type Selection = (Hash, nat) -> nat

  const MODIFIER_INTERVAL := 600
  const MODIFIER_INTERVAL_RATIO := 3
  const ROUNDS := 64

  datatype Block = Block(hash: Hash, time: nat, proof: Hash, stake: bool, entropy: bool, generated: bool, modifier: nat)
  datatype Stamp = Stamp(time: nat, hash: Hash)

  function Bit(b: bool): nat { if b then 1 else 0 }

  function Pow2(n: nat): (p: nat)
    ensures p > 0
  {
    if n == 0 then 1 else 2 * Pow2(n - 1)
  }

  // ----- selection intervals -----

  function Section(n: nat): nat
    requires n < ROUNDS
  {
    MODIFIER_INTERVAL * 63 / (63 + (63 - n) * (MODIFIER_INTERVAL_RATIO - 1))
  }

  /** The total of the first n sections. */
  function Sections(n: nat): nat
    requires n <= ROUNDS
  {
    if n == 0 then 0 else Sections(n - 1) + Section(n - 1)
  }

  function IntervalStart(t: nat): int {
    t / MODIFIER_INTERVAL * MODIFIER_INTERVAL - Sections(ROUNDS)
  }

  function StopTime(start: int, round: nat): int
    requires round < ROUNDS
  {
    start + Sections(round + 1)
  }

  /** The stop time grows with every round and ends at the boundary before the previous block. */
  lemma StopTimes(t: nat, r: nat)
    requires r < ROUNDS
    ensures r + 1 < ROUNDS ==> StopTime(IntervalStart(t), r) < StopTime(IntervalStart(t), r + 1)
    ensures StopTime(IntervalStart(t), ROUNDS - 1) == t / MODIFIER_INTERVAL * MODIFIER_INTERVAL <= t
  {
    if r + 1 < ROUNDS {
      var d := 63 + (63 - (r + 1)) * (MODIFIER_INTERVAL_RATIO - 1);
      assert 0 < d <= 189;
      assert Section(r + 1) == MODIFIER_INTERVAL * 63 / d;
      Quotient(MODIFIER_INTERVAL * 63, d);
    }
  }

  /** Each round adds its section, of 200 s in the first round rising to 600 s in the last. */
  lemma SectionsAre(t: nat, r: nat)
    requires r < ROUNDS
    ensures Section(r) * (189 - 2 * r) <= 37800 < (Section(r) + 1) * (189 - 2 * r)
    ensures Section(0) == 200 && Section(63) == 600
    ensures StopTime(IntervalStart(t), r) == (if r == 0 then IntervalStart(t) else StopTime(IntervalStart(t), r - 1)) + Section(r)
  {
    var d := 189 - 2 * r;
    assert Section(r) == 37800 / d;
    SectionFloor(37800, d);
  }

  lemma SectionFloor(n: nat, d: nat)
    requires d > 0
    ensures n / d * d <= n < (n / d + 1) * d
  {
    var q, r := n / d, n % d;
    assert n == d * q + r;
    assert (q + 1) * d == q * d + d;
  }

  lemma Quotient(n: nat, d: nat)
    requires 0 < d <= n
    ensures n / d > 0
  {
  }

  // ----- one selection -----

  function SelectionHash(h: Selection, modifier: nat, b: Block): nat {
    var x := h(b.proof, modifier);
    if b.stake then x / 0x1_0000_0000 else x
  }

  /** A proof-of-stake block's hash is divided by 2^32, a proof-of-work block's is not. */
  lemma StakeDivided(h: Selection, modifier: nat, b: Block)
    ensures b.stake ==>
      SelectionHash(h, modifier, b) * 0x1_0000_0000 <= h(b.proof, modifier) < (SelectionHash(h, modifier, b) + 1) * 0x1_0000_0000
    ensures !b.stake ==> SelectionHash(h, modifier, b) == h(b.proof, modifier)
  {
  }

  /** So a proof-of-stake block is preferred to a proof-of-work block with a hash 2^32 times as large. */
  lemma StakeFavoured(h: Selection, modifier: nat, bs: seq<Block>, stop: int, k: nat, j: nat)
    requires k < |bs| && j < |bs| && bs[k].stake && !bs[j].stake && bs[k].time <= stop
    requires h(bs[k].proof, modifier) < h(bs[j].proof, modifier) * 0x1_0000_0000
    ensures Preferred(h, modifier, bs, stop, k, j) && (bs[j].time <= stop ==> !Preferred(h, modifier, bs, stop, j, k))
  {
    StakeDivided(h, modifier, bs[k]);
    StakeDivided(h, modifier, bs[j]);
  }

  predicate Open(bs: seq<Block>, taken: set<Hash>, k: int) {
    0 <= k < |bs| && bs[k].hash !in taken
  }

  predicate TimeSorted(bs: seq<Block>) {
    forall j, k :: 0 <= j < k < |bs| ==> bs[j].time <= bs[k].time
  }

  predicate DistinctHashes(bs: seq<Block>) {
    forall j, k :: 0 <= j < k < |bs| ==> bs[j].hash != bs[k].hash
  }

  /** Block k is preferred to block j, both open: among blocks up to the stop time the least selection hash
      wins, the earlier one of equals; without any such block it is the earliest. */
  predicate Preferred(h: Selection, modifier: nat, bs: seq<Block>, stop: int, k: nat, j: nat)
    requires k < |bs| && j < |bs|
  {
    var x, y := SelectionHash(h, modifier, bs[k]), SelectionHash(h, modifier, bs[j]);
    if bs[k].time <= stop then bs[j].time <= stop ==> x < y || (x == y && k <= j)
    else bs[j].time > stop && k <= j
  }

  ghost predicate ChosenBefore(h: Selection, modifier: nat, bs: seq<Block>, taken: set<Hash>, stop: int, n: int, k: int) {
    && Open(bs, taken, k)
    && k < n
    && forall j {:trigger Open(bs, taken, j)} :: Open(bs, taken, j) && j < n ==> Preferred(h, modifier, bs, stop, k, j)
  }

  ghost predicate IsChoice(h: Selection, modifier: nat, bs: seq<Block>, taken: set<Hash>, stop: int, k: int) {
    ChosenBefore(h, modifier, bs, taken, stop, |bs|, k)
  }

  lemma ChoiceUnique(h: Selection, modifier: nat, bs: seq<Block>, taken: set<Hash>, stop: int, j: int, k: int)
    requires IsChoice(h, modifier, bs, taken, stop, j) && IsChoice(h, modifier, bs, taken, stop, k)
    ensures j == k
  {
    assert Preferred(h, modifier, bs, stop, j, k) && Preferred(h, modifier, bs, stop, k, j);
  }

  function Resolve(stamps: seq<Stamp>, index: map<Hash, Block>): (bs: seq<Block>)
    requires forall s :: s in stamps ==> s.hash in index
    ensures |bs| == |stamps| && forall k {:trigger bs[k]} :: 0 <= k < |bs| ==> bs[k] == index[stamps[k].hash]
  {
    seq(|stamps|, k requires 0 <= k < |stamps| => assert stamps[k] in stamps; index[stamps[k].hash])
  }

  predicate Agrees(index: map<Hash, Block>) {
    forall x :: x in index ==> index[x].hash == x
  }

  /** `SelectBlockFromCandidates`: nothing only if every candidate is taken or one is not indexed. */
  method SelectBlock(h: Selection, stamps: seq<Stamp>, index: map<Hash, Block>, taken: set<Hash>, stop: int, modifier: nat)
    returns (found: bool, k: nat)
    requires Agrees(index)
    ensures (forall s :: s in stamps ==> s.hash in index) && TimeSorted(Resolve(stamps, index)) ==>
      && (found ==> IsChoice(h, modifier, Resolve(stamps, index), taken, stop, k))
      && (!found ==> forall s :: s in stamps ==> s.hash in taken)
    ensures found ==> k < |stamps| && stamps[k].hash in index && stamps[k].hash !in taken
  {
    found, k := false, 0;
    var best: nat := 0;
    var i := 0;
    ghost var known := (forall s :: s in stamps ==> s.hash in index) && TimeSorted(Resolve(stamps, index));
    ghost var bs := if known then Resolve(stamps, index) else [];
    while i < |stamps|
      invariant 0 <= i <= |stamps|
      invariant found ==> k < i && stamps[k].hash in index && stamps[k].hash !in taken
      invariant found ==> best == SelectionHash(h, modifier, index[stamps[k].hash])
      invariant known && found ==> ChosenBefore(h, modifier, bs, taken, stop, i, k)
      invariant !found ==> forall j :: 0 <= j < i ==> stamps[j].hash in taken
    {
      var item := stamps[i];
      if item.hash !in index {
        return false, 0;
      }
      var b := index[item.hash];
      if found && b.time > stop {
        assert known ==> bs[i] == b && LateFrom(bs, stop, i);
        if known {
          BreakChoice(h, modifier, bs, taken, stop, i, k);
        }
        break;
      }
      if item.hash !in taken {
        var x := SelectionHash(h, modifier, b);
        ghost var was, had := k, found;
        if !found || x < best {
          found, k, best := true, i, x;
        }
        if known {
          StepChoice(h, modifier, bs, taken, stop, i, had, was, k);
        }
      } else {
        assert known ==> !Open(bs, taken, i);
      }
      i := i + 1;
    }
  }

  predicate LateFrom(bs: seq<Block>, stop: int, i: nat) {
    forall j :: i <= j < |bs| ==> bs[j].time > stop
  }

  lemma BreakChoice(h: Selection, modifier: nat, bs: seq<Block>, taken: set<Hash>, stop: int, i: nat, k: int)
    requires i < |bs| && LateFrom(bs, stop, i) && ChosenBefore(h, modifier, bs, taken, stop, i, k)
    ensures IsChoice(h, modifier, bs, taken, stop, k)
  {
    forall j {:trigger Open(bs, taken, j)} | Open(bs, taken, j) ensures Preferred(h, modifier, bs, stop, k, j) {
    }
  }

  lemma StepChoice(h: Selection, modifier: nat, bs: seq<Block>, taken: set<Hash>, stop: int, i: nat, had: bool, was: nat, k: nat)
    requires TimeSorted(bs) && Open(bs, taken, i)
    requires if had then ChosenBefore(h, modifier, bs, taken, stop, i, was) && bs[i].time <= stop
             else forall j :: 0 <= j < i ==> bs[j].hash in taken
    requires k == if !had || SelectionHash(h, modifier, bs[i]) < SelectionHash(h, modifier, bs[was]) then i else was
    ensures ChosenBefore(h, modifier, bs, taken, stop, i + 1, k)
  {
    forall j {:trigger Open(bs, taken, j)} | Open(bs, taken, j) && j < i + 1 ensures Preferred(h, modifier, bs, stop, k, j) {
      if had && j < i {
        assert Preferred(h, modifier, bs, stop, was, j);
      }
    }
  }

  // ----- all rounds -----

  function Taken(bs: seq<Block>, picks: seq<nat>): (taken: set<Hash>)
    requires forall r {:trigger picks[r]} :: 0 <= r < |picks| ==> picks[r] < |bs|
  {
    if picks == [] then {} else Taken(bs, picks[..|picks| - 1]) + {bs[picks[|picks| - 1]].hash}
  }

  lemma {:induction false} TakenIs(bs: seq<Block>, picks: seq<nat>, r: nat)
    requires forall k {:trigger picks[k]} :: 0 <= k < |picks| ==> picks[k] < |bs|
    requires r < |picks|
    ensures bs[picks[r]].hash in Taken(bs, picks)
  {
    if r < |picks| - 1 {
      TakenIs(bs, picks[..|picks| - 1], r);
    }
  }

  lemma {:induction false} TakenSize(bs: seq<Block>, picks: seq<nat>)
    requires forall r {:trigger picks[r]} :: 0 <= r < |picks| ==> picks[r] < |bs|
    ensures |Taken(bs, picks)| <= |picks|
  {
    if picks != [] {
      TakenSize(bs, picks[..|picks| - 1]);
    }
  }

  /** Fewer hashes than distinct candidates leave one open. */
  lemma {:induction false} OpenLeft(bs: seq<Block>, taken: set<Hash>)
    requires DistinctHashes(bs) && |taken| < |bs|
    ensures exists k :: Open(bs, taken, k)
    decreases |bs|
  {
    var n := |bs| - 1;
    if bs[n].hash !in taken {
      assert Open(bs, taken, n);
    } else {
      var rest := taken - {bs[n].hash};
      OpenLeft(bs[..n], rest);
      var k :| Open(bs[..n], rest, k);
      assert Open(bs, taken, k);
    }
  }

  ghost predicate IsRound(h: Selection, modifier: nat, bs: seq<Block>, start: int, picks: seq<nat>, r: int) {
    && 0 <= r < |picks| <= ROUNDS
    && (forall k {:trigger picks[k]} :: 0 <= k < r ==> picks[k] < |bs|)
    && IsChoice(h, modifier, bs, Taken(bs, picks[..r]), StopTime(start, r), picks[r])
  }

  /** Each round's pick is the choice among the blocks not picked in earlier rounds. */
  ghost predicate IsRun(h: Selection, modifier: nat, bs: seq<Block>, start: int, picks: seq<nat>) {
    && |picks| <= ROUNDS
    && (forall r {:trigger picks[r]} :: 0 <= r < |picks| ==> picks[r] < |bs|)
    && (forall r {:trigger IsRound(h, modifier, bs, start, picks, r)} :: 0 <= r < |picks| ==> IsRound(h, modifier, bs, start, picks, r))
  }

  lemma RunDistinct(h: Selection, modifier: nat, bs: seq<Block>, start: int, picks: seq<nat>)
    requires IsRun(h, modifier, bs, start, picks)
    ensures forall q, r :: 0 <= q < r < |picks| ==> picks[q] != picks[r] && bs[picks[q]].hash != bs[picks[r]].hash
  {
    forall q, r | 0 <= q < r < |picks| ensures picks[q] != picks[r] && bs[picks[q]].hash != bs[picks[r]].hash {
      assert IsRound(h, modifier, bs, start, picks, r);
      TakenIs(bs, picks[..r], q);
    }
  }

  lemma {:induction false} RunUnique(h: Selection, modifier: nat, bs: seq<Block>, start: int, p: seq<nat>, q: seq<nat>)
    requires IsRun(h, modifier, bs, start, p) && IsRun(h, modifier, bs, start, q) && |p| == |q|
    ensures p == q
  {
    if p != [] {
      var n := |p| - 1;
      RunPrefix(h, modifier, bs, start, p, n);
      RunPrefix(h, modifier, bs, start, q, n);
      RunUnique(h, modifier, bs, start, p[..n], q[..n]);
      assert IsRound(h, modifier, bs, start, p, n) && IsRound(h, modifier, bs, start, q, n);
      ChoiceUnique(h, modifier, bs, Taken(bs, p[..n]), StopTime(start, n), p[n], q[n]);
      assert p == p[..n] + [p[n]] && q == q[..n] + [q[n]];
    }
  }

  lemma RunPrefix(h: Selection, modifier: nat, bs: seq<Block>, start: int, p: seq<nat>, n: nat)
    requires IsRun(h, modifier, bs, start, p) && n <= |p|
    ensures IsRun(h, modifier, bs, start, p[..n])
  {
    forall r | 0 <= r < n ensures IsRound(h, modifier, bs, start, p[..n], r) {
      assert IsRound(h, modifier, bs, start, p, r) && p[..n][..r] == p[..r] && p[..n][r] == p[r];
    }
  }

  lemma RunExtends(h: Selection, modifier: nat, bs: seq<Block>, start: int, p: seq<nat>, k: nat)
    requires IsRun(h, modifier, bs, start, p) && |p| < ROUNDS
    requires IsChoice(h, modifier, bs, Taken(bs, p), StopTime(start, |p|), k)
    ensures IsRun(h, modifier, bs, start, p + [k])
    ensures Taken(bs, p + [k]) == Taken(bs, p) + {bs[k].hash}
  {
    var q := p + [k];
    assert q[..|p|] == p;
    forall r | 0 <= r < |q| ensures IsRound(h, modifier, bs, start, q, r) {
      if r < |p| {
        assert IsRound(h, modifier, bs, start, p, r) && q[..r] == p[..r] && q[r] == p[r];
      }
    }
  }

  function ModifierOf(bs: seq<Block>, picks: seq<nat>): (m: nat)
    requires forall r {:trigger picks[r]} :: 0 <= r < |picks| ==> picks[r] < |bs|
    ensures m < Pow2(|picks|)
  {
    if picks == [] then 0
    else
      var n := |picks| - 1;
      ModifierOf(bs, picks[..n]) + Bit(bs[picks[n]].entropy) * Pow2(n)
  }

  function BitOf(m: nat, r: nat): nat {
    if r == 0 then m % 2 else BitOf(m / 2, r - 1)
  }

  lemma {:induction false} HigherBit(m: nat, b: nat, r: nat, n: nat)
    requires r < n && b <= 1
    ensures BitOf(m + b * Pow2(n), r) == BitOf(m, r)
  {
    var x := b * Pow2(n - 1);
    assert b * Pow2(n) == 2 * x;
    assert (m + 2 * x) / 2 == m / 2 + x && (m + 2 * x) % 2 == m % 2;
    if r > 0 {
      HigherBit(m / 2, b, r - 1, n - 1);
    }
  }

  lemma {:induction false} TopBit(m: nat, b: nat, n: nat)
    requires b <= 1 && m < Pow2(n)
    ensures BitOf(m + b * Pow2(n), n) == b
  {
    if n > 0 {
      var x := b * Pow2(n - 1);
      assert b * Pow2(n) == 2 * x;
      assert (m + 2 * x) / 2 == m / 2 + x;
      TopBit(m / 2, b, n - 1);
    }
  }

  /** Bit r of the modifier is the entropy bit of the block picked in round r. */
  lemma {:induction false} ModifierBit(bs: seq<Block>, picks: seq<nat>, r: nat)
    requires forall k {:trigger picks[k]} :: 0 <= k < |picks| ==> picks[k] < |bs|
    requires r < |picks|
    ensures BitOf(ModifierOf(bs, picks), r) == Bit(bs[picks[r]].entropy)
  {
    var n := |picks| - 1;
    var low, b := ModifierOf(bs, picks[..n]), Bit(bs[picks[n]].entropy);
    if r < n {
      ModifierBit(bs, picks[..n], r);
      HigherBit(low, b, r, n);
    } else {
      TopBit(low, b, n);
    }
  }

  // ----- candidates -----

  predicate Leq(a: Stamp, b: Stamp) {
    a.time < b.time || (a.time == b.time && a.hash <= b.hash)
  }

  predicate Sorted(s: seq<Stamp>) {
    forall j, k :: 0 <= j < k < |s| ==> Leq(s[j], s[k])
  }

  /** The library sort, as the one list it can return for distinct stamps. */
  function Insert(x: Stamp, s: seq<Stamp>): (r: seq<Stamp>) {
    if s == [] || Leq(x, s[0]) then [x] + s else [s[0]] + Insert(x, s[1..])
  }

  function Sort(s: seq<Stamp>): (r: seq<Stamp>) {
    if s == [] then [] else Insert(s[0], Sort(s[1..]))
  }

  lemma {:induction false} InsertKeeps(x: Stamp, s: seq<Stamp>)
    requires Sorted(s)
    ensures multiset(Insert(x, s)) == multiset(s) + multiset{x}
    ensures Sorted(Insert(x, s))
  {
    if s == [] || Leq(x, s[0]) {
    } else {
      var r := Insert(x, s[1..]);
      InsertKeeps(x, s[1..]);
      assert s == [s[0]] + s[1..];
      forall k | 0 <= k < |r| ensures Leq(s[0], r[k]) {
        assert r[k] in multiset(r);
        assert r[k] == x || r[k] in s[1..];
      }
    }
  }

  lemma {:induction false} SortKeeps(s: seq<Stamp>)
    ensures multiset(Sort(s)) == multiset(s) && Sorted(Sort(s))
  {
    if s != [] {
      SortKeeps(s[1..]);
      InsertKeeps(s[0], Sort(s[1..]));
      assert s == [s[0]] + s[1..];
    }
  }

  function StampOf(b: Block): Stamp { Stamp(b.time, b.hash) }

  function Stamps(bs: seq<Block>): (s: seq<Stamp>)
    ensures |s| == |bs| && forall k {:trigger s[k]} :: 0 <= k < |s| ==> s[k] == StampOf(bs[k])
  {
    seq(|bs|, k requires 0 <= k < |bs| => StampOf(bs[k]))
  }

  /** Where the walk back from the tip stops: every block from there on is recent enough. */
  function FirstCandidate(chain: seq<Block>, start: int): (n: nat)
    ensures n <= |chain| && forall k :: n <= k < |chain| ==> chain[k].time >= start
    ensures n > 0 ==> chain[n - 1].time < start
  {
    if chain == [] || chain[|chain| - 1].time < start then |chain|
    else FirstCandidate(chain[..|chain| - 1], start)
  }

  predicate OnIndex(chain: seq<Block>, index: map<Hash, Block>) {
    && Agrees(index) && DistinctHashes(chain)
    && forall k {:trigger chain[k]} :: 0 <= k < |chain| ==> chain[k].hash in index && index[chain[k].hash] == chain[k]
  }

  lemma SameMembers(s: seq<Stamp>, r: seq<Stamp>)
    requires multiset(s) == multiset(r)
    ensures |s| == |r| && forall x :: x in s <==> x in r
  {
    assert |s| == |multiset(s)|;
    forall x ensures x in s <==> x in r {
      assert x in s <==> x in multiset(s);
    }
  }

  lemma {:induction false} CountOnce(s: seq<Stamp>, x: Stamp)
    requires forall j, k :: 0 <= j < k < |s| ==> s[j] != s[k]
    ensures multiset(s)[x] <= 1
  {
    if s != [] {
      assert s == [s[0]] + s[1..];
      CountOnce(s[1..], x);
      if x == s[0] {
        assert x !in s[1..];
      }
    }
  }

  lemma OnceDistinct(s: seq<Stamp>, j: nat, k: nat)
    requires j < k < |s| && multiset(s)[s[j]] <= 1
    ensures s[j] != s[k]
  {
    var t := s[..j + 1];
    assert s == t + s[j + 1..];
    assert s[j] in t && s[k] in s[j + 1..];
  }

  /** Sorting the candidates' stamps and looking them up again gives the candidates in time order. */
  lemma CandidatesSorted(bs: seq<Block>, index: map<Hash, Block>)
    requires OnIndex(bs, index)
    ensures var s := Sort(Stamps(bs));
      && (forall x :: x in s ==> x.hash in index)
      && |s| == |bs| && TimeSorted(Resolve(s, index)) && DistinctHashes(Resolve(s, index))
      && multiset(Resolve(s, index)) == multiset(bs)
  {
    var t, s := Stamps(bs), Sort(Stamps(bs));
    SortKeeps(t);
    SameMembers(s, t);
    forall x | x in s ensures x.hash in index && StampOf(index[x.hash]) == x {
      var k :| 0 <= k < |t| && t[k] == x;
      assert t[k] == StampOf(bs[k]);
    }
    var rs := Resolve(s, index);
    forall j, k | 0 <= j < k < |s| ensures rs[j].time <= rs[k].time && rs[j].hash != rs[k].hash {
      assert s[j] in s && s[k] in s && Leq(s[j], s[k]);
      CountOnce(t, s[j]);
      OnceDistinct(s, j, k);
    }
    assert Known(t, index);
    ResolveSort(t, index);
    assert Resolve(t, index) == bs;
  }

  ghost predicate Known(s: seq<Stamp>, index: map<Hash, Block>) {
    forall x :: x in s ==> x.hash in index
  }

  lemma ResolveFirst(x: Stamp, s: seq<Stamp>, index: map<Hash, Block>)
    requires Known(s, index) && x.hash in index
    ensures Known([x] + s, index) && Resolve([x] + s, index) == [index[x.hash]] + Resolve(s, index)
  {
  }

  lemma {:induction false} ResolveInsert(x: Stamp, s: seq<Stamp>, index: map<Hash, Block>)
    requires Known(s, index) && x.hash in index
    ensures Known(Insert(x, s), index)
    ensures multiset(Resolve(Insert(x, s), index)) == multiset(Resolve(s, index)) + multiset{index[x.hash]}
  {
    if s == [] || Leq(x, s[0]) {
      ResolveFirst(x, s, index);
    } else {
      assert s == [s[0]] + s[1..];
      assert s[0] in s;
      ResolveInsert(x, s[1..], index);
      ResolveFirst(s[0], s[1..], index);
      ResolveFirst(s[0], Insert(x, s[1..]), index);
    }
  }

  lemma {:induction false} ResolveSort(s: seq<Stamp>, index: map<Hash, Block>)
    requires Known(s, index)
    ensures Known(Sort(s), index) && multiset(Resolve(Sort(s), index)) == multiset(Resolve(s, index))
  {
    if s != [] {
      assert s == [s[0]] + s[1..];
      assert s[0] in s;
      ResolveSort(s[1..], index);
      ResolveInsert(s[0], Sort(s[1..]), index);
      ResolveFirst(s[0], s[1..], index);
    }
  }

  // ----- the modifier -----

  /** The latest block that generated a modifier. */
  function LastGenerated(chain: seq<Block>): (n: Option<nat>)
    ensures n.Some? ==> n.value < |chain| && chain[n.value].generated && forall k :: n.value < k < |chain| ==> !chain[k].generated
    ensures n.None? ==> forall k :: 0 <= k < |chain| ==> !chain[k].generated
  {
    if chain == [] then None
    else if chain[|chain| - 1].generated then Some(|chain| - 1)
    else LastGenerated(chain[..|chain| - 1])
  }

  datatype Outcome = Failed | Same(modifier: nat) | Generated(modifier: nat)

  /** The candidate blocks for the block after this chain, in the order of the selection. */
  function Candidates(chain: seq<Block>, index: map<Hash, Block>): (bs: seq<Block>)
    requires chain != [] && OnIndex(chain, index)
    ensures TimeSorted(bs) && DistinctHashes(bs) && bs != []
  {
    var start := IntervalStart(chain[|chain| - 1].time);
    var n := FirstCandidate(chain, start);
    CandidatesSorted(chain[n..], index);
    assert chain[|chain| - 1].time >= start;
    Resolve(Sort(Stamps(chain[n..])), index)
  }

  /** The candidates are the latest blocks of the chain whose times reach back to the interval start, each once, by
      time and then by hash. */
  lemma CandidatesAre(chain: seq<Block>, index: map<Hash, Block>, start: int, n: nat)
    requires chain != [] && OnIndex(chain, index) && start == IntervalStart(chain[|chain| - 1].time)
    requires n <= |chain| && (n > 0 ==> chain[n - 1].time < start) && forall k :: n <= k < |chain| ==> chain[k].time >= start
    ensures multiset(Candidates(chain, index)) == multiset(chain[n..])
    ensures var bs := Candidates(chain, index);
      forall j, k :: 0 <= j < k < |bs| ==> bs[j].time < bs[k].time || (bs[j].time == bs[k].time && bs[j].hash < bs[k].hash)
  {
    FirstIs(chain, start, n, FirstCandidate(chain, start));
    SuffixOnIndex(chain, index, n, chain[n..]);
    SortKnown(chain[n..], index, Sort(Stamps(chain[n..])));
    CandidatesFrom(chain[n..], index, Sort(Stamps(chain[n..])), Candidates(chain, index));
  }

  lemma SortKnown(bs: seq<Block>, index: map<Hash, Block>, s: seq<Stamp>)
    requires OnIndex(bs, index) && s == Sort(Stamps(bs))
    ensures Known(s, index)
  {
    CandidatesSorted(bs, index);
  }

  lemma FirstIs(chain: seq<Block>, start: int, n: nat, m: nat)
    requires n <= |chain| && (n > 0 ==> chain[n - 1].time < start) && forall k :: n <= k < |chain| ==> chain[k].time >= start
    requires m <= |chain| && (m > 0 ==> chain[m - 1].time < start) && forall k :: m <= k < |chain| ==> chain[k].time >= start
    ensures m == n
  {
    if m < n { assert false; }
  }

  lemma SuffixOnIndex(chain: seq<Block>, index: map<Hash, Block>, n: nat, tail: seq<Block>)
    requires OnIndex(chain, index) && n <= |chain| && tail == chain[n..]
    ensures OnIndex(tail, index)
  {
    assert forall k {:trigger tail[k]} :: 0 <= k < |tail| ==> tail[k] == chain[n + k];
  }

  lemma CandidatesFrom(bs: seq<Block>, index: map<Hash, Block>, s: seq<Stamp>, rs: seq<Block>)
    requires OnIndex(bs, index) && s == Sort(Stamps(bs)) && Known(s, index) && rs == Resolve(s, index)
    ensures multiset(rs) == multiset(bs)
    ensures forall j, k :: 0 <= j < k < |rs| ==> rs[j].time < rs[k].time || (rs[j].time == rs[k].time && rs[j].hash < rs[k].hash)
  {
    CandidatesSorted(bs, index);
    CandidatesOrdered(bs, index, s, rs);
  }

  lemma CandidatesOrdered(bs: seq<Block>, index: map<Hash, Block>, s: seq<Stamp>, rs: seq<Block>)
    requires OnIndex(bs, index) && s == Sort(Stamps(bs)) && Known(s, index) && rs == Resolve(s, index) && DistinctHashes(rs)
    ensures forall j, k :: 0 <= j < k < |rs| ==> rs[j].time < rs[k].time || (rs[j].time == rs[k].time && rs[j].hash < rs[k].hash)
  {
    var t := Stamps(bs);
    SortKeeps(t);
    SameMembers(s, t);
    forall k | 0 <= k < |rs| ensures StampOf(rs[k]) == s[k] {
      assert s[k] in s;
      var i :| 0 <= i < |t| && t[i] == s[k];
      assert t[i] == StampOf(bs[i]);
    }
    forall j, k | 0 <= j < k < |rs| ensures rs[j].time < rs[k].time || (rs[j].time == rs[k].time && rs[j].hash < rs[k].hash) {
      assert Leq(s[j], s[k]) && StampOf(rs[j]) == s[j] && StampOf(rs[k]) == s[k];
    }
  }

  /** What a generated modifier is: its bits are the entropy bits along a full run of selections. */
  ghost predicate IsModifier(h: Selection, chain: seq<Block>, index: map<Hash, Block>, prev: nat, m: nat, picks: seq<nat>)
    requires chain != [] && OnIndex(chain, index)
  {
    var bs := Candidates(chain, index);
    && |picks| == Min(ROUNDS, |bs|)
    && IsRun(h, prev, bs, IntervalStart(chain[|chain| - 1].time), picks)
    && m == ModifierOf(bs, picks)
  }

  /** `ComputeNextStakeModifier`: it fails only without any generated modifier to start from. */
  method ComputeNextStakeModifier(h: Selection, chain: seq<Block>, index: map<Hash, Block>) returns (r: Outcome)
    requires OnIndex(chain, index)
    ensures chain == [] ==> r == Generated(0)
    ensures chain != [] ==> (r.Failed? <==> forall k :: 0 <= k < |chain| ==> !chain[k].generated)
    ensures chain != [] && LastGenerated(chain).Some? ==>
      var g, t := chain[LastGenerated(chain).value], chain[|chain| - 1].time;
      if g.time / MODIFIER_INTERVAL >= t / MODIFIER_INTERVAL then r == Same(g.modifier)
      else r.Generated? && exists picks :: IsModifier(h, chain, index, g.modifier, r.modifier, picks)
  {
    if chain == [] {
      return Generated(0);
    }
    var k: nat := |chain| - 1;
    assert chain[..k + 1] == chain;
    while k > 0 && !chain[k].generated
      invariant k < |chain| && LastGenerated(chain[..k + 1]) == LastGenerated(chain)
    {
      assert chain[..k + 1][..k] == chain[..k];
      k := k - 1;
    }
    assert chain[..k + 1][..k] == chain[..k];
    if !chain[k].generated {
      return Failed;
    }
    var g, t := chain[k], chain[|chain| - 1].time;
    if g.time / MODIFIER_INTERVAL >= t / MODIFIER_INTERVAL {
      return Same(g.modifier);
    }
    var m := Generate(h, chain, index, g.modifier);
    return Generated(m);
  }

  /** The walk back, and the pairs it collects in chain order. */
  method Collect(chain: seq<Block>, start: int) returns (stamps: seq<Stamp>)
    ensures stamps == Stamps(chain[FirstCandidate(chain, start)..])
  {
    stamps := [];
    var i := |chain|;
    assert chain[..i] == chain;
    while i > 0 && chain[i - 1].time >= start
      invariant 0 <= i <= |chain| && stamps == Stamps(chain[i..])
      invariant FirstCandidate(chain[..i], start) == FirstCandidate(chain, start)
    {
      i := i - 1;
      assert chain[..i + 1][..i] == chain[..i];
      stamps := [StampOf(chain[i])] + stamps;
    }
  }

  method Generate(h: Selection, chain: seq<Block>, index: map<Hash, Block>, prev: nat) returns (m: nat)
    requires chain != [] && OnIndex(chain, index)
    ensures exists picks :: IsModifier(h, chain, index, prev, m, picks)
  {
    var start := IntervalStart(chain[|chain| - 1].time);
    var stamps := Collect(chain, start);
    stamps := Sort(stamps);
    ghost var bs := Candidates(chain, index);
    CandidatesSorted(chain[FirstCandidate(chain, start)..], index);
    ghost var picks;
    m, picks := Rounds(h, stamps, index, prev, start, bs);
    assert IsModifier(h, chain, index, prev, m, picks);
  }

  method Rounds(h: Selection, stamps: seq<Stamp>, index: map<Hash, Block>, prev: nat, start: int, ghost bs: seq<Block>)
    returns (m: nat, ghost picks: seq<nat>)
    requires Agrees(index) && Known(stamps, index) && bs == Resolve(stamps, index) && TimeSorted(bs) && DistinctHashes(bs)
    ensures |picks| == Min(ROUNDS, |bs|) && IsRun(h, prev, bs, start, picks) && m == ModifierOf(bs, picks)
  {
    m, picks := 0, [];
    var stop := start;
    var taken: set<Hash> := {};
    var weight := 1;
    for round := 0 to Min(ROUNDS, |stamps|)
      invariant |picks| == round && IsRun(h, prev, bs, start, picks)
      invariant taken == Taken(bs, picks) && m == ModifierOf(bs, picks)
      invariant stop == start + Sections(round) && weight == Pow2(round)
    {
      stop := stop + Section(round);
      var k := Round(h, stamps, index, taken, stop, prev, bs, start, picks);
      var b := index[stamps[k].hash];
      picks := picks + [k];
      m := m + Bit(b.entropy) * weight;
      weight := 2 * weight;
      taken := taken + {b.hash};
    }
  }

  /** One round: a candidate is always left, and its choice extends the run. */
  method Round(h: Selection, stamps: seq<Stamp>, index: map<Hash, Block>, taken: set<Hash>, stop: int, prev: nat,
               ghost bs: seq<Block>, ghost start: int, ghost picks: seq<nat>) returns (k: nat)
    requires Agrees(index) && Known(stamps, index) && bs == Resolve(stamps, index) && TimeSorted(bs) && DistinctHashes(bs)
    requires |picks| < Min(ROUNDS, |bs|) && IsRun(h, prev, bs, start, picks)
    requires taken == Taken(bs, picks) && stop == StopTime(start, |picks|)
    ensures k < |stamps| && stamps[k].hash in index && bs[k] == index[stamps[k].hash]
    ensures IsRun(h, prev, bs, start, picks + [k])
    ensures Taken(bs, picks + [k]) == taken + {bs[k].hash}
    ensures ModifierOf(bs, picks + [k]) == ModifierOf(bs, picks) + Bit(bs[k].entropy) * Pow2(|picks|)
  {
    var found: bool;
    found, k := SelectBlock(h, stamps, index, taken, stop, prev);
    SomeOpen(bs, picks, stamps, index);
    RunExtends(h, prev, bs, start, picks, k);
    assert (picks + [k])[..|picks|] == picks;
  }

  lemma SomeOpen(bs: seq<Block>, picks: seq<nat>, stamps: seq<Stamp>, index: map<Hash, Block>)
    requires forall r {:trigger picks[r]} :: 0 <= r < |picks| ==> picks[r] < |bs|
    requires (forall s :: s in stamps ==> s.hash in index) && bs == Resolve(stamps, index) && DistinctHashes(bs)
    requires |picks| < |bs| && Agrees(index)
    ensures exists s :: s in stamps && s.hash !in Taken(bs, picks)
  {
    TakenSize(bs, picks);
    OpenLeft(bs, Taken(bs, picks));
    var k :| Open(bs, Taken(bs, picks), k);
    assert stamps[k] in stamps && bs[k] == index[stamps[k].hash];
  }
}
