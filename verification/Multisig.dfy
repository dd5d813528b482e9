/**
 The signature matching loop of OP_CHECKMULTISIG (src/script.cpp:1221-1281) and the merging of partial
 signatures for it (src/script.cpp:2074-2123), over any validity relation between a signature and a
 public key.
 */
module Multisig {
  import opened BigNum
  import opened Wrappers

  type Elem = seq<Byte>

  /** f assigns to the signatures from i on, in order, keys from k on, each pair valid. */
  ghost predicate Assigns(valid: (Elem, Elem) -> bool, sigs: seq<Elem>, keys: seq<Elem>, i: nat, k: nat, f: seq<nat>)
    requires i <= |sigs|
  {
    && |f| == |sigs| - i
    && (forall a {:trigger f[a]} :: 0 <= a < |f| ==> k <= f[a] < |keys| && valid(sigs[i + a], keys[f[a]]))
    && (forall a, b {:trigger f[a], f[b]} :: 0 <= a < b < |f| ==> f[a] < f[b])
  }

  ghost predicate Matches(valid: (Elem, Elem) -> bool, sigs: seq<Elem>, keys: seq<Elem>, i: nat, k: nat)
    requires i <= |sigs|
  {
    exists f :: Assigns(valid, sigs, keys, i, k, f)
  }

  /** Taking a matching key for the next signature never loses a solution. */
  lemma TakeKey(valid: (Elem, Elem) -> bool, sigs: seq<Elem>, keys: seq<Elem>, i: nat, k: nat)
    requires i < |sigs| && k < |keys| && valid(sigs[i], keys[k])
    ensures Matches(valid, sigs, keys, i, k) <==> Matches(valid, sigs, keys, i + 1, k + 1)
  {
    if f :| Assigns(valid, sigs, keys, i, k, f) {
      var g := f[1..];
      assert f[0] >= k;
      forall a | 0 <= a < |g| ensures k + 1 <= g[a] < |keys| && valid(sigs[i + 1 + a], keys[g[a]]) {
        assert g[a] == f[a + 1] && sigs[i + 1 + a] == sigs[i + (a + 1)];
      }
      assert Assigns(valid, sigs, keys, i + 1, k + 1, g);
    }
    if Matches(valid, sigs, keys, i + 1, k + 1) {
      var i1, k1 := i + 1, k + 1;
      var g :| Assigns(valid, sigs, keys, i1, k1, g);
      var f := [k] + g;
      forall a | 0 <= a < |f| ensures k <= f[a] < |keys| && valid(sigs[i + a], keys[f[a]]) {
        if a > 0 { assert f[a] == g[a - 1]; }
      }
      assert Assigns(valid, sigs, keys, i, k, f);
    }
  }

  lemma SkipKey(valid: (Elem, Elem) -> bool, sigs: seq<Elem>, keys: seq<Elem>, i: nat, k: nat)
    requires i < |sigs| && k < |keys| && !valid(sigs[i], keys[k])
    ensures Matches(valid, sigs, keys, i, k) <==> Matches(valid, sigs, keys, i, k + 1)
  {
    if f :| Assigns(valid, sigs, keys, i, k, f) {
      assert f[0] != k;
      assert forall a :: 0 <= a < |f| ==> f[a] >= f[0];
      assert Assigns(valid, sigs, keys, i, k + 1, f);
    }
    if Matches(valid, sigs, keys, i, k + 1) {
      var k1 := k + 1;
      var f :| Assigns(valid, sigs, keys, i, k1, f);
      assert Assigns(valid, sigs, keys, i, k, f);
    }
  }

  lemma {:induction false} Increasing(f: seq<nat>, k: nat, a: nat)
    requires a < |f| && (forall b :: 0 <= b < |f| ==> k <= f[b]) && forall b, c :: 0 <= b < c < |f| ==> f[b] < f[c]
    ensures f[a] >= k + a
  {
    if a > 0 {
      Increasing(f, k, a - 1);
    }
  }

  lemma TooFewKeys(valid: (Elem, Elem) -> bool, sigs: seq<Elem>, keys: seq<Elem>, i: nat, k: nat)
    requires i <= |sigs| && k <= |keys| && |sigs| - i > |keys| - k
    ensures !Matches(valid, sigs, keys, i, k)
  {
    if f :| Assigns(valid, sigs, keys, i, k, f) {
      Increasing(f, k, |f| - 1);
    }
  }

  /** The loop: both lists are in the order in which it takes them from the stack. It accepts exactly
      when the signatures can be assigned to keys in order, each to a different key. */
  method CheckMultisig(valid: (Elem, Elem) -> bool, sigs: seq<Elem>, keys: seq<Elem>) returns (success: bool)
    requires |sigs| <= |keys|
    ensures success <==> Matches(valid, sigs, keys, 0, 0)
  {
    success := true;
    var isig, ikey := 0, 0;
    while success && |sigs| - isig > 0
      invariant 0 <= isig <= |sigs| && 0 <= ikey <= |keys|
      invariant success <==> |sigs| - isig <= |keys| - ikey
      invariant Matches(valid, sigs, keys, 0, 0) <==> Matches(valid, sigs, keys, isig, ikey)
      decreases |keys| - ikey
    {
      if valid(sigs[isig], keys[ikey]) {
        TakeKey(valid, sigs, keys, isig, ikey);
        isig := isig + 1;
      } else {
        SkipKey(valid, sigs, keys, isig, ikey);
      }
      ikey := ikey + 1;
      if |sigs| - isig > |keys| - ikey {
        success := false;
      }
    }
    if success {
      assert Assigns(valid, sigs, keys, isig, ikey, []);
    } else {
      TooFewKeys(valid, sigs, keys, isig, ikey);
    }
  }

  // ----- merging partial signatures -----

  /** The stack hands both lists over from the top; that makes no difference to the matching. */
  lemma MatchesReversed(valid: (Elem, Elem) -> bool, sigs: seq<Elem>, keys: seq<Elem>)
    requires Matches(valid, sigs, keys, 0, 0)
    ensures Matches(valid, Reversed(sigs), Reversed(keys), 0, 0)
  {
    var f :| Assigns(valid, sigs, keys, 0, 0, f);
    var n := |keys|;
    var g: seq<nat> := seq(|f|, i requires 0 <= i < |f| => (var x := f[|f| - 1 - i]; assert x < n; n - 1 - x));
    forall a | 0 <= a < |g| ensures g[a] < n && valid(Reversed(sigs)[a], Reversed(keys)[g[a]]) {
      assert valid(sigs[0 + (|f| - 1 - a)], keys[f[|f| - 1 - a]]);
    }
    forall a, b | 0 <= a < b < |g| ensures g[a] < g[b] {
      assert f[|f| - 1 - b] < f[|f| - 1 - a];
    }
    assert Assigns(valid, Reversed(sigs), Reversed(keys), 0, 0, g);
  }

  ghost predicate Signed(valid: (Elem, Elem) -> bool, all: set<Elem>, key: Elem) {
    exists x :: x in all && valid(x, key)
  }

  /** How many of the first n keys have a signature. */
  ghost function SignedKeys(valid: (Elem, Elem) -> bool, all: set<Elem>, keys: seq<Elem>, n: nat): nat
    requires n <= |keys|
  {
    if n == 0 then 0 else SignedKeys(valid, all, keys, n - 1) + if Signed(valid, all, keys[n - 1]) then 1 else 0
  }

  lemma {:induction false} SignedKeysGrow(valid: (Elem, Elem) -> bool, all: set<Elem>, keys: seq<Elem>, m: nat, n: nat)
    requires m <= n <= |keys|
    ensures SignedKeys(valid, all, keys, m) <= SignedKeys(valid, all, keys, n)
    decreases n
  {
    if m < n {
      SignedKeysGrow(valid, all, keys, m, n - 1);
    }
  }

  /** No signature is good for two different keys. */
  ghost predicate OneKeyEach(valid: (Elem, Elem) -> bool, all: set<Elem>, keys: seq<Elem>) {
    forall x, j, k {:trigger valid(x, keys[j]), valid(x, keys[k])} ::
      x in all && 0 <= j < |keys| && 0 <= k < |keys| && valid(x, keys[j]) && valid(x, keys[k]) ==> keys[j] == keys[k]
  }

  /** The signatures placed so far: good ones from the collection. */
  ghost predicate Sorted(valid: (Elem, Elem) -> bool, all: set<Elem>, found: map<Elem, Elem>) {
    forall k :: k in found ==> found[k] in all && valid(found[k], k)
  }

  /** Every key that one of these signatures is good for has a signature. */
  ghost predicate Served(valid: (Elem, Elem) -> bool, done: set<Elem>, keys: seq<Elem>, found: map<Elem, Elem>) {
    forall x, k {:trigger valid(x, keys[k])} :: x in done && 0 <= k < |keys| && valid(x, keys[k]) ==> keys[k] in found
  }

  /** A signature goes to one of the keys that lack one and accept it, if there is any. */
  ghost predicate Assigned(valid: (Elem, Elem) -> bool, keys: seq<Elem>, sig: Elem, before: map<Elem, Elem>, found: map<Elem, Elem>) {
    || (found == before && forall i :: 0 <= i < |keys| ==> keys[i] in before || !valid(sig, keys[i]))
    || (exists i :: 0 <= i < |keys| && keys[i] !in before && valid(sig, keys[i]) && found == before[keys[i] := sig])
  }

  /** Find a key without a signature yet that accepts this one. */
  method Assign(valid: (Elem, Elem) -> bool, keys: seq<Elem>, sig: Elem, before: map<Elem, Elem>) returns (found: map<Elem, Elem>)
    ensures Assigned(valid, keys, sig, before, found)
  {
    found := before;
    for i := 0 to |keys|
      invariant forall j :: 0 <= j < i ==> keys[j] in before || !valid(sig, keys[j])
    {
      if keys[i] !in before {
        if valid(sig, keys[i]) {
          return before[keys[i] := sig];
        }
      }
    }
  }

  /** All signatures given, in whichever order they are taken, matched to keys. */
  method Collect(valid: (Elem, Elem) -> bool, keys: seq<Elem>, given: set<Elem>) returns (found: map<Elem, Elem>)
    ensures Sorted(valid, given, found)
    ensures OneKeyEach(valid, given, keys) ==> forall k :: 0 <= k < |keys| ==> (keys[k] in found <==> Signed(valid, given, keys[k]))
  {
    var rest := given;
    found := map[];
    while rest != {}
      invariant rest <= given && Sorted(valid, given, found)
      invariant OneKeyEach(valid, given, keys) ==> Served(valid, given - rest, keys, found)
      decreases rest
    {
      var sig :| sig in rest;
      var before := found;
      found := Assign(valid, keys, sig, before);
      if OneKeyEach(valid, given, keys) {
        ServedNext(valid, given, given - rest, keys, sig, before, found);
        assert given - (rest - {sig}) == (given - rest) + {sig};
      }
      rest := rest - {sig};
    }
    assert given - rest == given;
  }

  lemma ServedNext(valid: (Elem, Elem) -> bool, given: set<Elem>, done: set<Elem>, keys: seq<Elem>, sig: Elem,
                   before: map<Elem, Elem>, found: map<Elem, Elem>)
    requires OneKeyEach(valid, given, keys) && sig in given && Served(valid, done, keys, before)
    requires Assigned(valid, keys, sig, before, found)
    ensures Served(valid, done + {sig}, keys, found)
  {
  }

  function AllSigs(sigs1: seq<Elem>, sigs2: seq<Elem>): set<Elem> {
    (set s | s in sigs1 && s != []) + (set s | s in sigs2 && s != [])
  }

  /** Merge two lists of signatures, with empty placeholders, for an m-of-n script. A result that
      collected all required signatures is accepted by the matching loop; and when no signature is good
      for two keys, as many are collected as there are signed keys, up to the number required. */
  method CombineMultisig(valid: (Elem, Elem) -> bool, keys: seq<Elem>, required: nat, sigs1: seq<Elem>, sigs2: seq<Elem>)
      returns (sigs: seq<Elem>, have: nat)
    ensures |sigs| == required && have <= required
    ensures have == required ==> Matches(valid, Reversed(sigs), Reversed(keys), 0, 0)
    ensures forall i :: 0 <= i < have ==> sigs[i] in AllSigs(sigs1, sigs2)
    ensures forall i :: have <= i < required ==> sigs[i] == []
    ensures var all := AllSigs(sigs1, sigs2);
      OneKeyEach(valid, all, keys) ==> have == Min(required, SignedKeys(valid, all, keys, |keys|))
  {
    var all := AllSigs(sigs1, sigs2);
    var found := Collect(valid, keys, all);
    sigs := Merge(valid, keys, required, all, found);
    have := |sigs|;
    if have == required {
      MatchesReversed(valid, sigs, keys);
    }
    while |sigs| < required
      invariant have <= |sigs| <= required
      invariant have == required ==> Matches(valid, Reversed(sigs), Reversed(keys), 0, 0)
      invariant forall j :: 0 <= j < have ==> sigs[j] in all
      invariant forall j :: have <= j < |sigs| ==> sigs[j] == []
    {
      sigs := sigs + [[]];
    }
  }

  /** The signatures found, in the order of their keys, until there are enough. */
  method Merge(valid: (Elem, Elem) -> bool, keys: seq<Elem>, required: nat, ghost all: set<Elem>, found: map<Elem, Elem>)
      returns (sigs: seq<Elem>)
    requires Sorted(valid, all, found)
    ensures |sigs| <= required && Matches(valid, sigs, keys, 0, 0)
    ensures forall i :: 0 <= i < |sigs| ==> sigs[i] in all
    ensures (forall k :: 0 <= k < |keys| ==> (keys[k] in found <==> Signed(valid, all, keys[k]))) ==>
      |sigs| == Min(required, SignedKeys(valid, all, keys, |keys|))
  {
    sigs := [];
    ghost var f: seq<nat> := [];
    ghost var exact := forall k :: 0 <= k < |keys| ==> (keys[k] in found <==> Signed(valid, all, keys[k]));
    var i := 0;
    while i < |keys| && |sigs| < required
      invariant 0 <= i <= |keys| && |sigs| <= required && forall j :: 0 <= j < |sigs| ==> sigs[j] in all
      invariant Assigns(valid, sigs, keys, 0, 0, f) && forall a :: 0 <= a < |f| ==> f[a] < i
      invariant exact ==> |sigs| == SignedKeys(valid, all, keys, i)
    {
      if keys[i] in found {
        sigs := sigs + [found[keys[i]]];
        f := f + [i];
      }
      i := i + 1;
    }
    SignedKeysGrow(valid, all, keys, i, |keys|);
  }
}
