/**
 * The credential scan of `Crmeb::handle`: a double `foreach` over the
 * configured allow-list `account => tokens`, calling
 * `password_verify($token, $hash)` on each pair until the first one verifies.
 *
 * The allow-list is an ordered sequence of (account, tokens) pairs, as a PHP
 * array keeps insertion order. `password_verify` is a parameter: nothing is
 * assumed of it, so every result below holds for any verification function.
 */
module Matching {
  import opened Php

  type Account = string
  type Token = string
  type Hash = string
  type AllowList = seq<(Account, seq<Token>)>

  /** Position of the first token that verifies against `hash`, or `|tokens|` if none does. */
  function FirstToken(tokens: seq<Token>, hash: Hash, verify: (Token, Hash) -> bool): (j: nat)
    ensures j <= |tokens|
    ensures forall t :: 0 <= t < j ==> !verify(tokens[t], hash)
    ensures j < |tokens| ==> verify(tokens[j], hash)
  {
    if tokens == [] then 0
    else if verify(tokens[0], hash) then 0
    else 1 + FirstToken(tokens[1..], hash, verify)
  }

  /** Some token of the account verifies against `hash`. */
  predicate Accepts(tokens: seq<Token>, hash: Hash, verify: (Token, Hash) -> bool)
  {
    FirstToken(tokens, hash, verify) < |tokens|
  }

  /** An account accepts exactly when one of its tokens verifies. */
  lemma AcceptsIff(tokens: seq<Token>, hash: Hash, verify: (Token, Hash) -> bool)
    ensures Accepts(tokens, hash, verify) <==> exists t :: 0 <= t < |tokens| && verify(tokens[t], hash)
  {
    if !Accepts(tokens, hash, verify) {
      assert FirstToken(tokens, hash, verify) == |tokens|;
    }
  }

  /** Position of the first account (in list order) that accepts, or `|list|` if none does. */
  function FirstAccount(list: AllowList, hash: Hash, verify: (Token, Hash) -> bool): (i: nat)
    ensures i <= |list|
    ensures forall k :: 0 <= k < i ==> !Accepts(list[k].1, hash, verify)
    ensures i < |list| ==> Accepts(list[i].1, hash, verify)
  {
    if list == [] then 0
    else if Accepts(list[0].1, hash, verify) then 0
    else 1 + FirstAccount(list[1..], hash, verify)
  }

  /**
   * The account `login` is called with: the first account, in list order,
   * having any token that verifies; `None` when no pair verifies.
   */
  function FirstMatch(list: AllowList, hash: Hash, verify: (Token, Hash) -> bool): (r: Option<Account>)
    ensures r.Some? <==>
      exists k, t :: 0 <= k < |list| && 0 <= t < |list[k].1| && verify(list[k].1[t], hash)
    ensures r.Some? ==>
      exists i :: 0 <= i < |list| && list[i].0 == r.value && Accepts(list[i].1, hash, verify) &&
        forall k :: 0 <= k < i ==> !Accepts(list[k].1, hash, verify)
  {
    var i := FirstAccount(list, hash, verify);
    if i < |list| then
      AcceptsIff(list[i].1, hash, verify);
      Some(list[i].0)
    else
      assert forall k :: 0 <= k < |list| ==> !Accepts(list[k].1, hash, verify);
      forall k | 0 <= k < |list| ensures forall t :: 0 <= t < |list[k].1| ==> !verify(list[k].1[t], hash) {
        AcceptsIff(list[k].1, hash, verify);
      }
      None
  }

  /** The pairs of one account, in token order. */
  function Tag(account: Account, tokens: seq<Token>): (r: seq<(Account, Token)>)
    ensures |r| == |tokens|
    ensures forall t :: 0 <= t < |tokens| ==> r[t] == (account, tokens[t])
  {
    seq(|tokens|, t requires 0 <= t < |tokens| => (account, tokens[t]))
  }

  /** The number of tokens configured over all accounts of the allow-list. */
  function TokenCount(list: AllowList): nat
  {
    if list == [] then 0 else |list[0].1| + TokenCount(list[1..])
  }

  /** Every (account, token) pair of the allow-list, account-major and token-minor. */
  function Pairs(list: AllowList): (r: seq<(Account, Token)>)
    ensures |r| == TokenCount(list)
  {
    if list == [] then [] else Tag(list[0].0, list[0].1) + Pairs(list[1..])
  }

  /**
   * The pairs `password_verify` is called on, in call order: the double loop
   * stops right after the first pair that verifies.
   */
  function Examined(list: AllowList, hash: Hash, verify: (Token, Hash) -> bool): (r: seq<(Account, Token)>)
    ensures |r| <= TokenCount(list)
    ensures |r| == 0 <==> TokenCount(list) == 0
  {
    if list == [] then []
    else
      var j := FirstToken(list[0].1, hash, verify);
      if j < |list[0].1| then Tag(list[0].0, list[0].1[..j + 1])
      else Tag(list[0].0, list[0].1) + Examined(list[1..], hash, verify)
  }

  /**
   * What the scan examines: every pair of the accounts before the first
   * accepting one, then that account's tokens up to and including the first
   * one that verifies, and nothing of any later account. When no account
   * accepts, every pair is examined.
   */
  lemma ExaminedShape(list: AllowList, hash: Hash, verify: (Token, Hash) -> bool)
    ensures var i := FirstAccount(list, hash, verify);
      i < |list| ==>
        Examined(list, hash, verify) ==
          Pairs(list[..i]) + Tag(list[i].0, list[i].1[..FirstToken(list[i].1, hash, verify) + 1])
    ensures FirstAccount(list, hash, verify) == |list| ==> Examined(list, hash, verify) == Pairs(list)
  {
    if FirstAccount(list, hash, verify) < |list| {
      ExaminedUpToHit(list, hash, verify);
    } else {
      ExaminedAll(list, hash, verify);
    }
  }

  /** With an accepting account, the scan stops inside its tokens. */
  lemma {:induction false} ExaminedUpToHit(list: AllowList, hash: Hash, verify: (Token, Hash) -> bool)
    requires FirstAccount(list, hash, verify) < |list|
    ensures var i := FirstAccount(list, hash, verify);
      Examined(list, hash, verify) ==
        Pairs(list[..i]) + Tag(list[i].0, list[i].1[..FirstToken(list[i].1, hash, verify) + 1])
  {
    if FirstToken(list[0].1, hash, verify) < |list[0].1| {
      assert list[..0] == [];
    } else {
      var i := FirstAccount(list, hash, verify);
      SkipFirstAccount(list, hash, verify);
      ExaminedUpToHit(list[1..], hash, verify);
      PairsPrefix(list, i);
    }
  }

  /** When the first account does not accept, the scan goes on with the rest of the list. */
  lemma SkipFirstAccount(list: AllowList, hash: Hash, verify: (Token, Hash) -> bool)
    requires list != [] && FirstToken(list[0].1, hash, verify) == |list[0].1|
    ensures Examined(list, hash, verify) == Tag(list[0].0, list[0].1) + Examined(list[1..], hash, verify)
    ensures FirstAccount(list, hash, verify) == 1 + FirstAccount(list[1..], hash, verify)
    ensures forall i :: 0 < i < |list| ==> list[i] == list[1..][i - 1]
  {
  }

  /** Without an accepting account, the scan examines every pair. */
  lemma {:induction false} ExaminedAll(list: AllowList, hash: Hash, verify: (Token, Hash) -> bool)
    requires FirstAccount(list, hash, verify) == |list|
    ensures Examined(list, hash, verify) == Pairs(list)
  {
    if list != [] {
      assert FirstToken(list[0].1, hash, verify) == |list[0].1|;
      assert FirstAccount(list, hash, verify) == 1 + FirstAccount(list[1..], hash, verify);
      ExaminedAll(list[1..], hash, verify);
    }
  }

  /** The pairs of a non-empty prefix: the first account's, then those of the rest's prefix. */
  lemma PairsPrefix(list: AllowList, i: nat)
    requires 0 < i <= |list|
    ensures Pairs(list[..i]) == Tag(list[0].0, list[0].1) + Pairs(list[1..][..i - 1])
  {
    assert list[..i][0] == list[0];
    assert list[..i][1..] == list[1..][..i - 1];
  }

  /**
   * The examined pairs are a prefix of all pairs, so the scan never makes more
   * `password_verify` calls than there are tokens over all accounts.
   */
  lemma {:induction false} ExaminedBounded(list: AllowList, hash: Hash, verify: (Token, Hash) -> bool)
    ensures Examined(list, hash, verify) <= Pairs(list)
    ensures |Examined(list, hash, verify)| <= |Pairs(list)| == TokenCount(list)
  {
    if list != [] {
      ExaminedBounded(list[1..], hash, verify);
      var j := FirstToken(list[0].1, hash, verify);
      if j < |list[0].1| {
        var e := Tag(list[0].0, list[0].1[..j + 1]);
        var p := Tag(list[0].0, list[0].1) + Pairs(list[1..]);
        assert forall n :: 0 <= n < |e| ==> e[n] == p[n];
      }
    }
  }

  /** Every examined pair but the last fails to verify. */
  lemma {:induction false} ExaminedMissesBeforeLast(list: AllowList, hash: Hash, verify: (Token, Hash) -> bool)
    ensures var e := Examined(list, hash, verify);
      forall n :: 0 <= n < |e| - 1 ==> !verify(e[n].1, hash)
  {
    if list != [] {
      var (account, tokens) := list[0];
      var j := FirstToken(tokens, hash, verify);
      if j >= |tokens| {
        ExaminedMissesBeforeLast(list[1..], hash, verify);
        var e := Examined(list, hash, verify);
        var rest := Examined(list[1..], hash, verify);
        // The recursive call's postcondition, in the let shape it is stated in, so that it applies to `rest`.
        assert var e' := Examined(list[1..], hash, verify); forall n :: 0 <= n < |e'| - 1 ==> !verify(e'[n].1, hash);
        assert e == Tag(account, tokens) + rest;
        forall n | 0 <= n < |e| - 1 ensures !verify(e[n].1, hash) {
          if n >= |tokens| {
            var m := n - |tokens|;
            assert e[n] == rest[m] && 0 <= m < |rest| - 1;
          } else {
            assert e[n] == (account, tokens[n]);
          }
        }
      } else {
        var e := Tag(account, tokens[..j + 1]);
        assert Examined(list, hash, verify) == e;
        forall n | 0 <= n < |e| - 1 ensures !verify(e[n].1, hash) {
          assert e[n] == (account, tokens[n]);
        }
      }
    }
  }

  /** When no account accepts, no pair of the allow-list verifies. */
  lemma {:induction false} NoPairVerifies(list: AllowList, hash: Hash, verify: (Token, Hash) -> bool)
    requires FirstAccount(list, hash, verify) == |list|
    ensures forall n :: 0 <= n < |Pairs(list)| ==> !verify(Pairs(list)[n].1, hash)
  {
    if list != [] {
      var (account, tokens) := list[0];
      assert FirstToken(tokens, hash, verify) == |tokens|;
      assert FirstAccount(list, hash, verify) == 1 + FirstAccount(list[1..], hash, verify);
      NoPairVerifies(list[1..], hash, verify);
      var p, rest := Pairs(list), Pairs(list[1..]);
      assert p == Tag(account, tokens) + rest;
      forall n | 0 <= n < |p| ensures !verify(p[n].1, hash) {
        if n < |tokens| {
          assert p[n] == (account, tokens[n]);
        } else {
          assert p[n] == rest[n - |tokens|];
        }
      }
    }
  }

  /**
   * The last examined pair verifies exactly when some account accepts, and
   * then it belongs to the first accepting account.
   */
  lemma ExaminedEndsAtFirstAccount(list: AllowList, hash: Hash, verify: (Token, Hash) -> bool)
    ensures var e := Examined(list, hash, verify);
      var i := FirstAccount(list, hash, verify);
      && (i < |list| <==> |e| > 0 && verify(e[|e| - 1].1, hash))
      && (i < |list| ==> e[|e| - 1].0 == list[i].0)
  {
    var e := Examined(list, hash, verify);
    var i := FirstAccount(list, hash, verify);
    if i < |list| {
      ExaminedUpToHit(list, hash, verify);
      var tokens := list[i].1;
      var j := FirstToken(tokens, hash, verify);
      var last := Tag(list[i].0, tokens[..j + 1]);
      assert e == Pairs(list[..i]) + last;
      LastOfAppend(Pairs(list[..i]), last);
      assert last[j] == (list[i].0, tokens[j]);
      assert verify(tokens[j], hash);
    } else {
      ExaminedAll(list, hash, verify);
      NoPairVerifies(list, hash, verify);
    }
  }

  /** The last element of a concatenation is the last element of its non-empty right part. */
  lemma LastOfAppend<T>(a: seq<T>, b: seq<T>)
    requires |b| > 0
    ensures |a + b| > 0 && (a + b)[|a + b| - 1] == b[|b| - 1]
  {
  }

  /**
   * Every examined pair but the last fails to verify; the last one verifies
   * exactly when there is a match, and then it belongs to the matched account.
   */
  lemma ExaminedStopsAtHit(list: AllowList, hash: Hash, verify: (Token, Hash) -> bool)
    ensures var e := Examined(list, hash, verify);
      forall n :: 0 <= n < |e| - 1 ==> !verify(e[n].1, hash)
    ensures var e := Examined(list, hash, verify);
      FirstMatch(list, hash, verify).Some? <==> |e| > 0 && verify(e[|e| - 1].1, hash)
    ensures var e := Examined(list, hash, verify);
      FirstMatch(list, hash, verify).Some? ==> e[|e| - 1].0 == FirstMatch(list, hash, verify).value
  {
    ExaminedMissesBeforeLast(list, hash, verify);
    ExaminedEndsAtFirstAccount(list, hash, verify);
  }

  /**
   * The double `foreach` of `Crmeb::handle`: the outer loop runs over the
   * accounts in list order, the inner one over the account's tokens, and the
   * first pair that verifies ends both loops.
   */
  method Scan(list: AllowList, hash: Hash, verify: (Token, Hash) -> bool) returns (found: Option<Account>)
    ensures found == FirstMatch(list, hash, verify)
    ensures found.Some? ==> found.value == list[FirstAccount(list, hash, verify)].0
  {
    var i := 0;
    while i < |list|
      invariant 0 <= i <= |list|
      invariant forall k :: 0 <= k < i ==> !Accepts(list[k].1, hash, verify)
    {
      var (account, tokens) := list[i];
      var j := 0;
      while j < |tokens|
        invariant 0 <= j <= |tokens|
        invariant forall t :: 0 <= t < j ==> !verify(tokens[t], hash)
      {
        if verify(tokens[j], hash) {
          assert Accepts(list[i].1, hash, verify);
          assert FirstAccount(list, hash, verify) == i;
          return Some(account);
        }
        j := j + 1;
      }
      assert FirstToken(tokens, hash, verify) == |tokens|;
      i := i + 1;
    }
    assert FirstAccount(list, hash, verify) == |list|;
    return None;
  }
}
