/** OP_CHECKMULTISIG: signatures are matched to keys in one pass over both. */
module Multisig {
  import opened Primitives

  type Item = seq<Byte>
  type Check = (Item, Item) -> bool

  const MAX_KEYS: int := 20
  const MAX_OPS: int := 201
  const TRUE: Item := [1]
  const FALSE: Item := []

  // ---------- What it means for signatures to match keys ----------

  /** f assigns keys to signatures, in order, such that every pair passes the check. */
  ghost predicate IsMatching(ok: Check, sigs: seq<Item>, keys: seq<Item>, f: seq<nat>) {
    && |f| == |sigs|
    && (forall i :: 0 <= i < |f| ==> f[i] < |keys| && ok(sigs[i], keys[f[i]]))
    && (forall i, j :: 0 <= i < j < |f| ==> f[i] < f[j])
  }

  ghost predicate Matches(ok: Check, sigs: seq<Item>, keys: seq<Item>) {
    exists f :: IsMatching(ok, sigs, keys, f)
  }

  /** The loop: the first signature left is tried on the first key left. */
  function Greedy(ok: Check, sigs: seq<Item>, keys: seq<Item>): bool
    decreases |keys|
  {
    if sigs == [] then true
    else if |sigs| > |keys| then false
    else Greedy(ok, if ok(sigs[0], keys[0]) then sigs[1..] else sigs, keys[1..])
  }

  function Shifted(f: seq<nat>): (r: seq<nat>)
    ensures |r| == |f| && forall i :: 0 <= i < |f| ==> r[i] == f[i] + 1
  {
    seq(|f|, i requires 0 <= i < |f| => f[i] + 1)
  }

  lemma MatchFirst(ok: Check, sigs: seq<Item>, keys: seq<Item>, g: seq<nat>)
    requires sigs != [] && keys != [] && ok(sigs[0], keys[0]) && IsMatching(ok, sigs[1..], keys[1..], g)
    ensures IsMatching(ok, sigs, keys, [0] + Shifted(g))
  {
    var f := [0] + Shifted(g);
    forall i | 0 <= i < |f|
      ensures f[i] < |keys| && ok(sigs[i], keys[f[i]])
    {
      if i > 0 {
        assert ok(sigs[1..][i - 1], keys[1..][g[i - 1]]);
      }
    }
  }

  lemma MatchLater(ok: Check, sigs: seq<Item>, keys: seq<Item>, g: seq<nat>)
    requires keys != [] && IsMatching(ok, sigs, keys[1..], g)
    ensures IsMatching(ok, sigs, keys, Shifted(g))
  {
    forall i | 0 <= i < |g|
      ensures g[i] + 1 < |keys| && ok(sigs[i], keys[g[i] + 1])
    {
      assert ok(sigs[i], keys[1..][g[i]]);
    }
  }

  lemma {:induction false} GreedyFinds(ok: Check, sigs: seq<Item>, keys: seq<Item>) returns (f: seq<nat>)
    requires Greedy(ok, sigs, keys)
    ensures IsMatching(ok, sigs, keys, f)
    decreases |keys|
  {
    if sigs == [] {
      f := [];
    } else {
      hide IsMatching;
      if ok(sigs[0], keys[0]) {
        var g := GreedyFinds(ok, sigs[1..], keys[1..]);
        MatchFirst(ok, sigs, keys, g);
        f := [0] + Shifted(g);
      } else {
        var g := GreedyFinds(ok, sigs, keys[1..]);
        MatchLater(ok, sigs, keys, g);
        f := Shifted(g);
      }
    }
  }

  /** Strictly increasing numbers below n cannot be more than n. */
  lemma {:induction false} FewEnough(f: seq<nat>, n: nat)
    requires forall i :: 0 <= i < |f| ==> f[i] < n
    requires forall i, j :: 0 <= i < j < |f| ==> f[i] < f[j]
    ensures |f| <= n
  {
    if f != [] {
      FewEnough(f[..|f| - 1], f[|f| - 1]);
    }
  }

  /** Taking the first key that fits never spoils a matching. */
  lemma {:induction false} GreedyIsComplete(ok: Check, sigs: seq<Item>, keys: seq<Item>, f: seq<nat>)
    requires IsMatching(ok, sigs, keys, f)
    ensures Greedy(ok, sigs, keys)
    decreases |keys|
  {
    FewEnough(f, |keys|);
    if sigs != [] {
      if ok(sigs[0], keys[0]) {
        var g := seq(|f| - 1, i requires 0 <= i < |f| - 1 => f[i + 1] - 1);
        GreedyIsComplete(ok, sigs[1..], keys[1..], g);
      } else {
        assert f[0] > 0;
        var g := seq(|f|, i requires 0 <= i < |f| => f[i] - 1);
        GreedyIsComplete(ok, sigs, keys[1..], g);
      }
    }
  }

  lemma GreedyIsMatching(ok: Check, sigs: seq<Item>, keys: seq<Item>)
    ensures Greedy(ok, sigs, keys) <==> Matches(ok, sigs, keys)
  {
    if Greedy(ok, sigs, keys) {
      var f := GreedyFinds(ok, sigs, keys);
    }
    if Matches(ok, sigs, keys) {
      var f :| IsMatching(ok, sigs, keys, f);
      GreedyIsComplete(ok, sigs, keys, f);
    }
  }

  // ---------- The stack ----------

  /** stacktop(-i). */
  function Top(stack: seq<Item>, i: int): Item
    requires 1 <= i <= |stack|
  {
    stack[|stack| - i]
  }

  /** count items, the first of them i places from the top and the others below it. */
  function Items(stack: seq<Item>, i: int, count: nat): (r: seq<Item>)
    requires 1 <= i && i + count - 1 <= |stack|
    ensures |r| == count && forall k :: 0 <= k < count ==> r[k] == Top(stack, i + k)
  {
    seq(count, k requires 0 <= k < count => Top(stack, i + k))
  }

  /** The operation is well formed on this stack: the counts can be read, are within limits, and all the items and
      one more below them are there. */
  predicate WellFormed(stack: seq<Item>, ops: int, number: Item -> Option<int>) {
    && 1 <= |stack|
    && number(Top(stack, 1)).Some?
    && var keys := number(Top(stack, 1)).value;
       && 0 <= keys <= MAX_KEYS
       && ops + keys <= MAX_OPS
       && 2 + keys <= |stack|
       && number(Top(stack, 2 + keys)).Some?
       && var sigs := number(Top(stack, 2 + keys)).value;
          0 <= sigs <= keys && 3 + keys + sigs <= |stack|
  }

  function KeyCount(stack: seq<Item>, ops: int, number: Item -> Option<int>): nat
    requires WellFormed(stack, ops, number)
  {
    number(Top(stack, 1)).value
  }

  function SigCount(stack: seq<Item>, ops: int, number: Item -> Option<int>): nat
    requires WellFormed(stack, ops, number)
  {
    number(Top(stack, 2 + KeyCount(stack, ops, number))).value
  }

  /** Signatures and keys on the stack match. */
  ghost predicate Verified(stack: seq<Item>, ops: int, number: Item -> Option<int>, ok: Check)
    requires WellFormed(stack, ops, number)
  {
    var keys, sigs := KeyCount(stack, ops, number), SigCount(stack, ops, number);
    Matches(ok, Items(stack, 3 + keys, sigs), Items(stack, 2, keys))
  }

  function Reversed(s: seq<Item>): (r: seq<Item>)
    ensures |r| == |s| && forall i :: 0 <= i < |s| ==> r[i] == s[|s| - 1 - i]
  {
    seq(|s|, i requires 0 <= i < |s| => s[|s| - 1 - i])
  }

  lemma ReversedMatches(ok: Check, sigs: seq<Item>, keys: seq<Item>)
    requires Matches(ok, sigs, keys)
    ensures Matches(ok, Reversed(sigs), Reversed(keys))
  {
    var f :| IsMatching(ok, sigs, keys, f);
    var g := seq(|sigs|, i requires 0 <= i < |sigs| => |keys| - 1 - f[|sigs| - 1 - i]);
    assert IsMatching(ok, Reversed(sigs), Reversed(keys), g);
  }

  /** It does not matter from which end signatures and keys are read. */
  lemma MatchesEitherWay(ok: Check, sigs: seq<Item>, keys: seq<Item>)
    ensures Matches(ok, Reversed(sigs), Reversed(keys)) <==> Matches(ok, sigs, keys)
  {
    hide Matches;
    if Matches(ok, sigs, keys) {
      ReversedMatches(ok, sigs, keys);
    }
    if Matches(ok, Reversed(sigs), Reversed(keys)) {
      ReversedMatches(ok, Reversed(sigs), Reversed(keys));
      assert Reversed(Reversed(sigs)) == sigs && Reversed(Reversed(keys)) == keys;
    }
  }

  lemma ItemsOf(below: seq<Item>, part: seq<Item>, above: seq<Item>)
    ensures Items(below + part + above, |above| + 1, |part|) == Reversed(part)
  {
    var stack := below + part + above;
    forall k | 0 <= k < |part|
      ensures Items(stack, |above| + 1, |part|)[k] == Reversed(part)[k]
    {
      assert stack[|stack| - (|above| + 1 + k)] == part[|part| - 1 - k];
    }
  }

  ghost function Layout(rest: seq<Item>, dummy: Item, sigs: seq<Item>, m: Item, keys: seq<Item>, n: Item): seq<Item> {
    rest + [dummy] + sigs + [m] + keys + [n]
  }

  /** On a stack as scripts leave it, with an unused item, the signatures and their number, the keys and their number on
      top: the operation is well formed if there are at most 20 keys, at most 201 operations with them, and no more
      signatures than keys; it takes off exactly these items; and it succeeds if and only if the signatures match keys
      in the order of the script. */
  lemma LayoutMeans(rest: seq<Item>, dummy: Item, sigs: seq<Item>, m: Item, keys: seq<Item>, n: Item,
                    ops: int, number: Item -> Option<int>, ok: Check)
    requires number(n) == Some(|keys|) && number(m) == Some(|sigs|)
    ensures var stack := Layout(rest, dummy, sigs, m, keys, n);
            && (WellFormed(stack, ops, number) <==> |keys| <= 20 && ops + |keys| <= 201 && |sigs| <= |keys|)
            && (WellFormed(stack, ops, number) ==>
                  && KeyCount(stack, ops, number) == |keys| && SigCount(stack, ops, number) == |sigs|
                  && stack[..|stack| - (|keys| + |sigs| + 3)] == rest
                  && (Verified(stack, ops, number, ok) <==> Matches(ok, sigs, keys)))
  {
    var stack := Layout(rest, dummy, sigs, m, keys, n);
    assert Top(stack, 1) == n && Top(stack, 2 + |keys|) == m;
    if WellFormed(stack, ops, number) {
      ItemsOf(rest + [dummy] + sigs + [m], keys, [n]);
      ItemsOf(rest + [dummy], sigs, [m] + keys + [n]);
      assert stack == (rest + [dummy]) + sigs + ([m] + keys + [n]);
      hide Matches;
      MatchesEitherWay(ok, sigs, keys);
    }
  }

  /** The matching loop.  It reads only the items it was given. */
  method MatchLoop(stack: seq<Item>, firstSig: int, sigCount: nat, firstKey: int, keyCount: nat, ok: Check)
    returns (success: bool)
    requires 1 <= firstSig && firstSig + sigCount - 1 <= |stack| && 1 <= firstKey && firstKey + keyCount - 1 <= |stack|
    requires sigCount <= keyCount
    ensures success <==> Matches(ok, Items(stack, firstSig, sigCount), Items(stack, firstKey, keyCount))
  {
    ghost var sigs, keys := Items(stack, firstSig, sigCount), Items(stack, firstKey, keyCount);
    GreedyIsMatching(ok, sigs, keys);
    hide Matches;
    success := true;
    var isig, nSigs, ikey, nKeys := firstSig, sigCount, firstKey, keyCount;
    while success && nSigs > 0
      invariant 0 <= nSigs <= sigCount && 0 <= nKeys <= keyCount
      invariant isig == firstSig + sigCount - nSigs && ikey == firstKey + keyCount - nKeys
      invariant success <==> nSigs <= nKeys
      invariant Greedy(ok, sigs[sigCount - nSigs..], keys[keyCount - nKeys..]) == Greedy(ok, sigs, keys)
      decreases nKeys
    {
      ghost var s, k := sigs[sigCount - nSigs..], keys[keyCount - nKeys..];
      assert s[0] == Top(stack, isig) && k[0] == Top(stack, ikey);
      assert s[1..] == sigs[sigCount - nSigs + 1..] && k[1..] == keys[keyCount - nKeys + 1..];
      if ok(Top(stack, isig), Top(stack, ikey)) {
        isig := isig + 1;
        nSigs := nSigs - 1;
      }
      ikey := ikey + 1;
      nKeys := nKeys - 1;
      if nSigs > nKeys {
        success := false;
      }
    }
  }

  /** OP_CHECKMULTISIG and OP_CHECKMULTISIGVERIFY; None when the script fails.  number reads a count and fails on
      items that are too long. */
  method CheckMultisig(stack: seq<Item>, ops: int, verify: bool, number: Item -> Option<int>, ok: Check)
    returns (r: Option<(seq<Item>, int)>)
    ensures r.Some? <==> WellFormed(stack, ops, number) && (verify ==> Verified(stack, ops, number, ok))
    ensures r.Some? ==>
              var keys, sigs := KeyCount(stack, ops, number), SigCount(stack, ops, number);
              var rest := stack[..|stack| - (keys + sigs + 3)];
              && r.value.0
                 == (if verify then rest else rest + [if Verified(stack, ops, number, ok) then TRUE else FALSE])
              && r.value.1 == ops + keys
  {
    hide Matches;
    var i := 1;
    if |stack| < i {
      return None;
    }
    var keys := number(Top(stack, i));
    if keys.None? || keys.value < 0 || keys.value > MAX_KEYS {
      return None;
    }
    var nOps := ops + keys.value;
    if nOps > MAX_OPS {
      return None;
    }
    i := i + 1;
    var ikey := i;
    i := i + keys.value;
    if |stack| < i {
      return None;
    }
    var sigs := number(Top(stack, i));
    if sigs.None? || sigs.value < 0 || sigs.value > keys.value {
      return None;
    }
    i := i + 1;
    var isig := i;
    i := i + sigs.value;
    if |stack| < i {
      return None;
    }
    var success := MatchLoop(stack, isig, sigs.value, ikey, keys.value, ok);
    var rest := stack;
    while i > 0
      invariant 0 <= i <= |rest|
      invariant |rest| <= |stack| && rest == stack[..|rest|] && |rest| - i == |stack| - (keys.value + sigs.value + 3)
    {
      rest := rest[..|rest| - 1];
      i := i - 1;
    }
    rest := rest + [if success then TRUE else FALSE];
    if verify {
      if !success {
        return None;
      }
      rest := rest[..|rest| - 1];
    }
    r := Some((rest, nOps));
  }
}
