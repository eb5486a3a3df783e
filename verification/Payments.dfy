/**
 Who pays and who is paid: every account's balance through a message, and what its authorizations leave.

 The statements are in the message's own terms and in numbers, so that they do not lean on the functions that compute
 the transition.
 */
module Payments {
  import opened Common
  import opened Ledger
  import opened GasRules
  import opened StateTransitions
  import opened Execution

  /** A cost in the default token, at the world's rate for another token. */
  ghost function InToken(w: World, t: Token, x: int): int
  {
    if t == 0 then x else x * Rate(w, t) / 1_000_000_000_000_000_000
  }

  // ---------------------------------------------------------------- single payments

  lemma SetBalanceAt(w: World, a: Addr, t: Token, amount: nat, b: Addr, u: Token)
    ensures Balance(SetBalance(w, a, t, amount), b, u) == if b == a && u == t then amount else Balance(w, b, u)
    ensures b in SetBalance(w, a, t, amount).accounts <==> b in w.accounts || b == if t == 0 then a else 0x2007
  {
  }

  /** A payment reaches its account, in its token, and nobody else. */
  lemma PayBalance(w: World, a: Addr, t: Token, base: int, b: Addr, u: Token)
    requires GasCost(w, t, base) == Some(Cost(w, t, base)) && 0 <= Cost(w, t, base)
    requires Balance(w, a, t) + Cost(w, t, base) < w.word
    ensures Balance(Pay(w, a, t, base), b, u)
         == Balance(w, b, u) + if b == a && u == t then InToken(w, t, base) else 0
  {
    SmallWord(Cost(w, t, base), w.word);
    SmallWord(Balance(w, a, t) + Cost(w, t, base), w.word);
    SetBalanceAt(w, a, t, Balance(w, a, t) + Cost(w, t, base), b, u);
  }

  /** The gas token can pay a cost: it is the default token, or enabled with a rate. */
  ghost predicate Usable(w: World, t: Token, x: int)
  {
    x == 0 || t == 0 || (t in w.gasAllowed && Rate(w, t) > 0)
  }

  /** A cost can be paid in a token exactly when the token is usable for it, at its rate. */
  lemma GasCostExact(w: World, t: Token, x: int)
    ensures GasCost(w, t, x) == if Usable(w, t, x) then Some(InToken(w, t, x)) else None
  {
    assert 0 * Rate(w, t) == 0;
  }

  /** Setting a nonce or code makes the account, and nothing moves when nothing is paid. */
  lemma WritesMake(w: World, a: Addr, t: Token, n: nat, c: Code)
    ensures SetNonce(w, a, n).accounts == w.accounts + {a} == SetCode(w, a, c).accounts
    ensures AddBalance(w, a, t, 0) == w == SubBalance(w, a, t, 0)
  {
  }

  /** Unused gas goes back to the sender, at the price it was bought for, and nobody else's balance changes; a token
      that cannot pay any more pays nothing back. */
  lemma ReturnedBalance(w: World, m: Message, remaining: nat, a: Addr, t: Token)
    requires Balance(w, m.from, m.gasToken) + InToken(w, m.gasToken, remaining * m.gasPrice) < w.word
    ensures var back := remaining * m.gasPrice;
      Balance(Returned(w, m, remaining), a, t)
      == Balance(w, a, t) + if a == m.from && t == m.gasToken && Usable(w, t, back) then InToken(w, t, back) else 0
  {
    if Usable(w, m.gasToken, remaining * m.gasPrice) {
      MulMono(remaining, 0, m.gasPrice);
      ConvertMono(0, remaining * m.gasPrice, Rate(w, m.gasToken));
      PayBalance(w, m.from, m.gasToken, remaining * m.gasPrice, a, t);
    }
  }

  // ---------------------------------------------------------------- a whole message

  /** Three payments in a row, account by account. */
  lemma ThreeBalances(w: World, o: World, t: Token, from: Addr, to: Addr, all: nat, a: int, b: int, d: int, x: Addr,
      u: Token)
    requires GasCost(w, t, all).Some? && SamePrices(w, o, t)
    requires 0 <= a <= all && 0 <= b <= all && 0 <= d <= all
    requires Total(o, t) + Cost(w, t, a) + Cost(w, t, b) + Cost(w, t, d) < w.word
    ensures var w2 := Pay(Pay(o, from, t, a), to, t, b);
      && Balance(w2, x, u) == Balance(o, x, u) + (if x == from && u == t then InToken(w, t, a) else 0)
                              + (if x == to && u == t then InToken(w, t, b) else 0)
      && Balance(Pay(w2, to, t, d), x, u) == Balance(w2, x, u) + if x == to && u == t then InToken(w, t, d) else 0
  {
    CostKnown(w, o, t, all, a);
    CostKnown(w, o, t, all, b);
    CostKnown(w, o, t, all, d);
    BalanceBelowTotal(o, from, t);
    PayTotals(o, from, t, a);
    PayBalance(o, from, t, a, x, u);
    var w1 := Pay(o, from, t, a);
    CostKnown(w, w1, t, all, b);
    BalanceBelowTotal(w1, to, t);
    PayTotals(w1, to, t, b);
    PayBalance(w1, to, t, b, x, u);
    var w2 := Pay(w1, to, t, b);
    CostKnown(w, w2, t, all, d);
    BalanceBelowTotal(w2, to, t);
    PayBalance(w2, to, t, d, x, u);
  }

  /** Before the call the sender, and nobody else, has paid the whole gas limit at the effective price and the blob
      fee. */
  lemma PreparedBalance(w: World, env: Env, m: Message, a: Addr, t: Token)
    requires Affordable(w, env, m) && WithinCaps(env, m) && Balance(w, m.from, m.gasToken) < w.word
    ensures var upfront := m.gasLimit * m.gasPrice + BlobFeeOf(env, m);
      Balance(Prepared(w, env, m), a, t)
      == Balance(w, a, t) - if a == m.from && t == m.gasToken then InToken(w, t, upfront) else 0
  {
    Solvency(w, env, m);
    PreparedBooks(w, env, m);
    CostKnown(w, w, m.gasToken, UpfrontCost(env, m), UpfrontCost(env, m));
    SmallWord(Balance(w, m.from, m.gasToken) - Charged(w, env, m), w.word);
    SetBalanceAt(w, m.from, m.gasToken, Balance(w, m.from, m.gasToken) - Charged(w, env, m), a, t);
    assert Balance(Prepared(w, env, m), a, t) == Balance(Debited(w, env, m), a, t);
  }

  /** 131072 gas for each blob, at the block's blob price. */
  ghost function BlobFeeOf(env: Env, m: Message): nat
  {
    if env.cancun && m.blobs.Some? then 131_072 * |m.blobs.value| * env.blobBaseFee else 0
  }

  lemma SettledBalance(w: World, o: World, env: Env, m: Message, used: nat, remaining: nat, a: Addr, t: Token)
    requires GasCost(w, m.gasToken, UpfrontCost(env, m)).Some? && WithinCaps(env, m) && used + remaining == m.gasLimit
    requires SamePrices(w, o, m.gasToken) && Total(w, m.gasToken) < w.word
    requires Total(o, m.gasToken) == Total(w, m.gasToken) - Cost(w, m.gasToken, UpfrontCost(env, m))
    requires FeesPaid(Returned(o, m, remaining), env, m, used).Some?
    ensures var v := FeesPaid(Returned(o, m, remaining), env, m, used).value;
      var tip := m.gasPrice - if env.london then env.baseFee else 0;
      var payee := if env.gilt && m.gasToken == 0 then -2 else env.coinbase;
      Balance(v, a, t) == Balance(o, a, t)
        + (if a == m.from && t == m.gasToken then InToken(w, t, remaining * m.gasPrice) else 0)
        + (if a == payee && t == m.gasToken
           then InToken(w, t, used * tip) + (if env.gilt then InToken(w, t, BlobFeeOf(env, m)) else 0) else 0)
  {
    var g, all := m.gasToken, UpfrontCost(env, m);
    var x, y, z, d := remaining * m.gasPrice, used * EffectiveTip(env, m), Burnt(env, m, used),
      if env.gilt then BlobFee(env, m) else 0;
    PartsFit(env, m, used, remaining);
    Dust(w, g, x, y, z, d);
    CostKnown(w, w, g, all, z);
    ThreeBalances(w, o, g, m.from, FeeRecipient(env, m), all, x, y, d, a, t);
    FeesChain(o, env, m, used, remaining);
  }

  /** The payments of a settlement in order. */
  lemma FeesChain(o: World, env: Env, m: Message, used: nat, remaining: nat)
    requires FeesPaid(Returned(o, m, remaining), env, m, used).Some?
    ensures var payee := if env.gilt && m.gasToken == 0 then -2 else env.coinbase;
      var w2 := Pay(Pay(o, m.from, m.gasToken, remaining * m.gasPrice), payee, m.gasToken, used * EffectiveTip(env, m));
      && payee == FeeRecipient(env, m) && BlobFeeOf(env, m) == BlobFee(env, m)
      && EffectiveTip(env, m) == m.gasPrice - (if env.london then env.baseFee else 0)
      && (env.gilt && !env.cancun ==> BlobFeeOf(env, m) == 0)
      && FeesPaid(Returned(o, m, remaining), env, m, used).value
         == if env.gilt && env.cancun then Pay(w2, payee, m.gasToken, BlobFeeOf(env, m)) else w2
  {
  }

  /** An accepted message, account by account.  The sender pays the gas limit and the blobs up front and gets the unused
      gas back; the tip and, on GILT, the blob fee go to the system address in the default token and to the block's
      beneficiary otherwise; and nobody else's balance changes outside the call, which runs on what the gas limit leaves
      after the intrinsic gas. */
  lemma AcceptedBalances(w: World, pool: nat, env: Env, m: Message, evm: Evm, v: World, res: ExecutionResult, a: Addr,
                         t: Token)
    requires GasBounded(evm) && CallConserves(w, env, m, evm) && Accepted(w, pool, env, m, evm, v, res)
    requires Priced(env, m) && !env.noBaseFee && Total(w, m.gasToken) < w.word
    ensures var p := Prepared(w, env, m);
      var o := evm(p, m, m.gasLimit - IntrinsicGas(env, m).value).world;
      var upfront, back := m.gasLimit * m.gasPrice + BlobFeeOf(env, m), (m.gasLimit - res.usedGas) * m.gasPrice;
      var tip := res.usedGas * (m.gasPrice - if env.london then env.baseFee else 0);
      var payee := if env.gilt && m.gasToken == 0 then -2 else env.coinbase;
      && Balance(p, a, t) == Balance(w, a, t) - (if a == m.from && t == m.gasToken then InToken(w, t, upfront) else 0)
      && Balance(v, a, t) == Balance(o, a, t)
           + (if a == m.from && t == m.gasToken then InToken(w, t, back) else 0)
           + (if a == payee && t == m.gasToken
              then InToken(w, t, tip) + (if env.gilt then InToken(w, t, BlobFeeOf(env, m)) else 0) else 0)
  {
    ChecksBoundPrices(w, env, m);
    BalanceBelowTotal(w, m.from, m.gasToken);
    PreparedBalance(w, env, m, a, t);
    var o, u := CallOutcome(w, env, m, evm).world, UsageOf(w, env, m, evm);
    CallTotals(w, env, m, o);
    SettledBalance(w, o, env, m, u.used, u.remaining, a, t);
  }

  lemma CallTotals(w: World, env: Env, m: Message, o: World)
    requires Affordable(w, env, m) && WithinCaps(env, m) && Total(w, m.gasToken) < w.word
    requires Conserves(Prepared(w, env, m), o, m.gasToken)
    ensures SamePrices(w, o, m.gasToken)
    ensures Total(o, m.gasToken) == Total(w, m.gasToken) - Cost(w, m.gasToken, UpfrontCost(env, m))
  {
    PreparedBooks(w, env, m);
    DebitedTotals(w, env, m, m.gasToken);
  }

  /** The gas an accepted message pays for, in numbers: what its call used, less the refund counter the call left or a
      capped share of that, and after Prague no less than the floor for its data. */
  lemma AcceptedUsage(w: World, pool: nat, env: Env, m: Message, evm: Evm, v: World, res: ExecutionResult)
    requires GasBounded(evm) && Accepted(w, pool, env, m, evm, v, res)
    ensures var o := evm(Prepared(w, env, m), m, m.gasLimit - IntrinsicGas(env, m).value);
      var peak := m.gasLimit - o.gasLeft;
      var cap := peak / if env.london then 5 else 2;
      var net := peak - if o.world.refund <= cap then o.world.refund else cap;
      var floor := if env.prague then 21_000 + 40 * (|m.data| - Zeros(m.data)) + 10 * Zeros(m.data) else 0;
      && res.usedGas == (if net < floor then floor else net)
      && res.maxUsedGas == (if peak < floor then floor else peak) && res.failed == o.failed
  {
    UsageInNumbers(w, env, m, evm);
  }

  lemma UsageInNumbers(w: World, env: Env, m: Message, evm: Evm)
    requires GasBounded(evm) && CheckGas(env, m) == NoError
    ensures var o, u := evm(Prepared(w, env, m), m, m.gasLimit - IntrinsicGas(env, m).value), UsageOf(w, env, m, evm);
      var peak := m.gasLimit - o.gasLeft;
      var cap := peak / if env.london then 5 else 2;
      var net := peak - if o.world.refund <= cap then o.world.refund else cap;
      var floor := if env.prague then 21_000 + 40 * (|m.data| - Zeros(m.data)) + 10 * Zeros(m.data) else 0;
      && u.used == (if net < floor then floor else net)
      && u.maxUsed == (if peak < floor then floor else peak)
  {
    var o := CallOutcome(w, env, m, evm);
    GasUsageExact(env, m.gasLimit, o.gasLeft, o.world.refund, Floor(env, m));
    FloorInNumbers(env, m);
  }

  lemma FloorInNumbers(env: Env, m: Message)
    requires CheckGas(env, m) == NoError
    ensures env.prague ==> Floor(env, m) == 21_000 + 40 * (|m.data| - Zeros(m.data)) + 10 * Zeros(m.data)
  {
  }
}
