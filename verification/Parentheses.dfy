/** Counting parentheses. */
module Parentheses {
  import opened Tokens

  /** Opening minus closing parentheses. */
  function Balance(ts: seq<Token>): int {
    if ts == [] then 0
    else
      var t := ts[|ts| - 1];
      Balance(ts[..|ts| - 1]) + (if t.klass.LParen? then 1 else if t.klass.RParen? then -1 else 0)
  }

  lemma {:induction false} BalanceCons(ts: seq<Token>, k: nat)
    requires 0 < k <= |ts|
    ensures Balance(ts[..k]) == Balance(ts[..1]) + Balance(ts[1..][..k - 1])
    decreases k
  {
    if k == 1 {
      assert ts[1..][..0] == [];
    } else {
      BalanceCons(ts, k - 1);
      assert ts[..k][..k - 1] == ts[..k - 1];
      assert ts[1..][..k - 1][..k - 2] == ts[1..][..k - 2];
    }
  }

  lemma BalanceOne(ts: seq<Token>)
    requires ts != []
    ensures Balance(ts[..1]) == if ts[0].klass.LParen? then 1 else if ts[0].klass.RParen? then -1 else 0
  {
    assert ts[..1][..0] == [];
  }

  lemma {:induction false} BalanceAppend(a: seq<Token>, b: seq<Token>)
    ensures Balance(a + b) == Balance(a) + Balance(b)
    decreases |b|
  {
    if b == [] {
      assert a + b == a;
    } else {
      BalanceAppend(a, b[..|b| - 1]);
      assert (a + b)[..|a + b| - 1] == a + b[..|b| - 1];
    }
  }

  lemma BalanceOfPrefix(a: seq<Token>, b: seq<Token>, k: nat)
    requires k <= |a + b|
    ensures Balance(a + b) == Balance(a) + Balance(b)
    ensures Balance((a + b)[..k]) == if k <= |a| then Balance(a[..k]) else Balance(a) + Balance(b[..k - |a|])
  {
    BalanceAppend(a, b);
    if k <= |a| {
      assert (a + b)[..k] == a[..k];
    } else {
      assert (a + b)[..k] == a + b[..k - |a|];
      BalanceAppend(a, b[..k - |a|]);
    }
  }

  lemma BalanceOfToken(tok: Token)
    ensures Balance([tok]) == if tok.klass.LParen? then 1 else if tok.klass.RParen? then -1 else 0
    ensures Balance([tok][..0]) == 0 && [tok][..1] == [tok]
  {
    BalanceOne([tok]);
    assert [tok][..1] == [tok];
  }
}
