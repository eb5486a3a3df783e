/**
 Applying one message: checks, gas purchase in any native token, the call, refunds and fees.

 The EVM is a function parameter from the world, the kind of call and the gas given to an outcome; what is assumed of it
 is spelled out in `GasBounded`, `Conserves` and `KeepsNonces`. Access lists, access events and tracing are not
 modelled.
 */
module StateTransitions {
  import opened Common
  import opened Ledger
  import opened GasRules

  datatype TxError = NoError
    | NonceTooHigh | NonceTooLow | NonceMax | GasLimitTooHigh | SenderNoEOA
    | FeeCapVeryHigh | TipVeryHigh | TipAboveFeeCap | FeeCapTooLow
    | BlobTxCreate | MissingBlobHashes | TooManyBlobs | BadBlobVersion | BlobFeeCapTooLow
    | SetCodeTxCreate | EmptyAuthList | ValueTokenDisabled | GasTokenUnusable | InsufficientFunds | GasLimitReached
    | Blacklisted | GasUintOverflow | IntrinsicGasTooLow | FloorDataGasTooLow | InsufficientFundsForTransfer
      | InitCodeTooLarge

  datatype Outcome = Outcome(world: World, gasLeft: nat, failed: bool)

  /** The EVM: what a message's call or contract creation does to a world, given some gas. */
  type Evm = (World, Message, nat) -> Outcome

  ghost predicate GasBounded(evm: Evm)
  {
    forall w, m, gas :: evm(w, m, gas).gasLeft <= gas
  }

  /** From `w` to `o` tokens move but none is made or destroyed, and the word size and the gas token's flag and rate
      stay. */
  ghost predicate Conserves(w: World, o: World, t: Token)
  {
    (forall u: Token :: Total(o, u) == Total(w, u)) && SamePrices(w, o, t)
  }

  /** From `w` to `o` no nonce falls. */
  ghost predicate KeepsNonces(w: World, o: World)
  {
    forall a: Addr :: Nonce(w, a) <= Nonce(o, a)
  }

  /** Every nonce fits 64 bits. */
  ghost predicate NoncesFit(w: World, env: Env)
  {
    forall a: Addr :: Nonce(w, a) <= env.maxUint64
  }

  /** Code changes from `w` to `p` only between no code and a delegation. */
  ghost predicate GuardsCode(w: World, p: World)
  {
    forall a: Addr :: CodeOf(p, a) != CodeOf(w, a) ==> IsEOA(w, a) && IsEOA(p, a)
  }

  /** Two worlds price a gas token alike. */
  ghost predicate SamePrices(w: World, v: World, t: Token)
  {
    v.word == w.word && Rate(v, t) == Rate(w, t) && (t in v.gasAllowed <==> t in w.gasAllowed)
  }

  // ---------------------------------------------------------------- what a message costs

  function BlobGas(m: Message): nat
  {
    if m.blobs.Some? then |m.blobs.value| * BLOB_GAS_PER_BLOB else 0
  }

  function BlobFee(env: Env, m: Message): nat
  {
    if env.cancun then BlobGas(m) * env.blobBaseFee else 0
  }

  /** What is charged up front, at the effective prices. */
  function UpfrontCost(env: Env, m: Message): nat
  {
    m.gasLimit * m.gasPrice + BlobFee(env, m)
  }

  /** What the sender must be able to pay, at the price caps. */
  function ReservedCost(env: Env, m: Message): nat
  {
    m.gasLimit * m.feeCap + if env.cancun then BlobGas(m) * m.blobFeeCap else 0
  }

  function EffectiveTip(env: Env, m: Message): int
  {
    if env.london then m.gasPrice - env.baseFee else m.gasPrice
  }

  /** The price a transaction's message gets in this block. */
  ghost predicate Priced(env: Env, m: Message)
  {
    m.gasPrice == if env.london && m.tipCap + env.baseFee <= m.feeCap then m.tipCap + env.baseFee else m.feeCap
  }

  lemma TxIsPriced(env: Env, tx: Tx)
    ensures Priced(env, TransactionToMessage(tx, if env.london then Some(env.baseFee) else None))
  {
  }

  /** The prices charged lie within the caps, and a burnt base fee within the price. */
  ghost predicate WithinCaps(env: Env, m: Message)
  {
    && m.gasPrice <= m.feeCap
    && (env.london ==> env.baseFee <= m.gasPrice)
    && (env.cancun && BlobGas(m) > 0 ==> env.blobBaseFee <= m.blobFeeCap)
  }

  // ---------------------------------------------------------------- checks before the purchase

  predicate IsEOA(w: World, a: Addr)
  {
    !CodeOf(w, a).Contract?
  }

  function CheckNonce(w: World, env: Env, m: Message): TxError
  {
    if m.skipNonceChecks then NoError
    else if Nonce(w, m.from) < m.nonce then NonceTooHigh
    else if Nonce(w, m.from) > m.nonce then NonceTooLow
    else if Nonce(w, m.from) >= env.maxUint64 then NonceMax
    else NoError
  }

  function CheckSender(w: World, env: Env, m: Message): TxError
  {
    if m.skipTransactionChecks then NoError
    else if env.osaka && m.gasLimit > MAX_TX_GAS then GasLimitTooHigh
    else if !IsEOA(w, m.from) then SenderNoEOA
    else NoError
  }

  function CheckFees(w: World, env: Env, m: Message): TxError
  {
    if !env.london || (env.noBaseFee && m.feeCap == 0 && m.tipCap == 0) then NoError
    else if m.feeCap >= w.word then FeeCapVeryHigh
    else if m.tipCap >= w.word then TipVeryHigh
    else if m.feeCap < m.tipCap then TipAboveFeeCap
    else if m.feeCap < env.baseFee then FeeCapTooLow
    else NoError
  }

  function CheckBlobs(env: Env, m: Message): TxError
  {
    if m.blobs.Some? && m.to.None? then BlobTxCreate
    else if m.blobs.Some? && m.blobs.value == [] then MissingBlobHashes
    else if m.blobs.Some? && env.osaka && |m.blobs.value| > BLOB_TX_MAX_BLOBS then TooManyBlobs
    else if m.blobs.Some? && false in m.blobs.value then BadBlobVersion
    else if env.cancun && BlobGas(m) > 0 && !(env.noBaseFee && m.blobFeeCap == 0) && m.blobFeeCap < env.blobBaseFee
      then BlobFeeCapTooLow
    else NoError
  }

  function CheckAuths(m: Message): TxError
  {
    if m.auths.Some? && m.to.None? then SetCodeTxCreate
    else if m.auths.Some? && m.auths.value == [] then EmptyAuthList
    else NoError
  }

  /** All the checks that come before gas is bought, in order. */
  function CheckMessage(w: World, env: Env, m: Message): TxError
  {
    if CheckNonce(w, env, m) != NoError then CheckNonce(w, env, m)
    else if CheckSender(w, env, m) != NoError then CheckSender(w, env, m)
    else if CheckFees(w, env, m) != NoError then CheckFees(w, env, m)
    else if CheckBlobs(env, m) != NoError then CheckBlobs(env, m)
    else CheckAuths(m)
  }

  /** The checks in the message's own terms. */
  lemma ChecksExact(w: World, env: Env, m: Message)
    ensures CheckMessage(w, env, m) == NoError <==>
      && (m.skipNonceChecks || (Nonce(w, m.from) == m.nonce && m.nonce < env.maxUint64))
      && (m.skipTransactionChecks || ((env.osaka ==> m.gasLimit <= 16_777_216) && !CodeOf(w, m.from).Contract?))
      && (env.london && !(env.noBaseFee && m.feeCap == 0 && m.tipCap == 0) ==>
            env.baseFee <= m.feeCap < w.word && m.tipCap <= m.feeCap)
      && (m.blobs.Some? ==>
            && m.to.Some? && m.blobs.value != [] && (env.osaka ==> |m.blobs.value| <= 6)
            && (forall i :: 0 <= i < |m.blobs.value| ==> m.blobs.value[i])
            && (env.cancun && !(env.noBaseFee && m.blobFeeCap == 0) ==> env.blobBaseFee <= m.blobFeeCap))
      && (m.auths.Some? ==> m.to.Some? && m.auths.value != [])
  {
  }

  /** Which nonce, sender and fee error a message gets, each from the first clause it fails. */
  lemma CheckErrors(w: World, env: Env, m: Message)
    ensures var e, n := CheckMessage(w, env, m), Nonce(w, m.from);
      var nonceOk := m.skipNonceChecks || (n == m.nonce && n < env.maxUint64);
      var large := env.osaka && m.gasLimit > 16_777_216;
      var senderOk := nonceOk && (m.skipTransactionChecks || (!large && !CodeOf(w, m.from).Contract?));
      var feesSeen := senderOk && env.london && !(env.noBaseFee && m.feeCap == 0 && m.tipCap == 0);
      && (e == NonceTooHigh <==> !m.skipNonceChecks && n < m.nonce)
      && (e == NonceTooLow <==> !m.skipNonceChecks && m.nonce < n)
      && (e == NonceMax <==> !m.skipNonceChecks && m.nonce == n && env.maxUint64 <= n)
      && (e == GasLimitTooHigh <==> nonceOk && !m.skipTransactionChecks && large)
      && (e == SenderNoEOA <==> nonceOk && !m.skipTransactionChecks && !large && CodeOf(w, m.from).Contract?)
      && (e == FeeCapVeryHigh <==> feesSeen && w.word <= m.feeCap)
      && (e == TipVeryHigh <==> feesSeen && m.feeCap < w.word <= m.tipCap)
      && (e == TipAboveFeeCap <==> feesSeen && m.feeCap < m.tipCap < w.word)
      && (e == FeeCapTooLow <==> feesSeen && m.tipCap <= m.feeCap < env.baseFee && m.feeCap < w.word)
  {
  }

  /** Which blob and authorization error a message gets that has passed the clauses before. */
  lemma BlobErrors(w: World, env: Env, m: Message)
    requires CheckFees(w, env, m) == CheckSender(w, env, m) == CheckNonce(w, env, m) == NoError
    ensures var e := CheckMessage(w, env, m);
      var many := env.osaka && m.blobs.Some? && |m.blobs.value| > 6;
      var shape := m.blobs.Some? && m.to.Some? && m.blobs.value != [] && !many;
      var bad := m.blobs.Some? && exists i :: 0 <= i < |m.blobs.value| && !m.blobs.value[i];
      var low := env.cancun && !(env.noBaseFee && m.blobFeeCap == 0) && m.blobFeeCap < env.blobBaseFee;
      var blobsOk := m.blobs.None? || (shape && !bad && !low);
      && (e == BlobTxCreate <==> m.blobs.Some? && m.to.None?)
      && (e == MissingBlobHashes <==> m.blobs == Some([]) && m.to.Some?)
      && (e == TooManyBlobs <==> many && m.to.Some?)
      && (e == BadBlobVersion <==> shape && bad)
      && (e == BlobFeeCapTooLow <==> shape && !bad && low)
      && (e == SetCodeTxCreate <==> blobsOk && m.auths.Some? && m.to.None?)
      && (e == EmptyAuthList <==> blobsOk && m.auths == Some([]) && m.to.Some?)
  {
  }

  /** With fee checks on, a priced message that passes the checks is charged within its caps. */
  lemma ChecksBoundPrices(w: World, env: Env, m: Message)
    requires Priced(env, m) && !env.noBaseFee && CheckMessage(w, env, m) == NoError
    ensures WithinCaps(env, m)
  {
  }

  // ---------------------------------------------------------------- solvency

  /** What the sender must hold of a token. */
  ghost function Required(w: World, env: Env, m: Message, t: Token): int
  {
    (if t == m.gasToken && GasCost(w, t, ReservedCost(env, m)).Some? then GasCost(w, t, ReservedCost(env, m)).value
      else 0)
    + (if t == m.valueToken then m.value else 0)
  }

  ghost predicate Affordable(w: World, env: Env, m: Message)
  {
    && (m.value > 0 ==> TransferAllowed(w, m.valueToken))
    && GasCost(w, m.gasToken, ReservedCost(env, m)).Some? && GasCost(w, m.gasToken, UpfrontCost(env, m)).Some?
    && Required(w, env, m, m.gasToken) < w.word && Required(w, env, m, m.gasToken) <= Balance(w, m.from, m.gasToken)
    && Required(w, env, m, m.valueToken) < w.word
      && Required(w, env, m, m.valueToken) <= Balance(w, m.from, m.valueToken)
  }

  /** What a message can pay for, in numbers: the gas at its fee cap and 131072 gas for each blob at the blob fee cap,
      in the gas token at its rate, and the value on top in its own token. */
  lemma AffordableExact(w: World, env: Env, m: Message)
    ensures var blobs := if env.cancun && m.blobs.Some? then 131_072 * |m.blobs.value| else 0;
      var reserve, upfront := m.gasLimit * m.feeCap + blobs * m.blobFeeCap,
        m.gasLimit * m.gasPrice + blobs * env.blobBaseFee;
      var usable := m.gasToken == 0 || (m.gasToken in w.gasAllowed && Rate(w, m.gasToken) > 0);
      var cost := if m.gasToken == 0 then reserve else reserve * Rate(w, m.gasToken) / 1_000_000_000_000_000_000;
      var need := cost + if m.valueToken == m.gasToken then m.value else 0;
      Affordable(w, env, m) <==>
        && (m.value > 0 ==> m.valueToken == 0 || m.valueToken in w.transferAllowed)
        && (usable || (reserve == 0 && upfront == 0))
        && need < w.word && need <= Balance(w, m.from, m.gasToken)
        && (m.valueToken != m.gasToken ==> m.value < w.word && m.value <= Balance(w, m.from, m.valueToken))
  {
    assert ReservedCost(env, m) == 0 ==> Convert(ReservedCost(env, m), Rate(w, m.gasToken)) == 0;
  }

  function Charged(w: World, env: Env, m: Message): int
  {
    match GasCost(w, m.gasToken, UpfrontCost(env, m)) case Some(c) => c case None => 0
  }

  function Debited(w: World, env: Env, m: Message): World
  {
    SubBalance(w, m.from, m.gasToken, ToWord(Charged(w, env, m), w.word))
  }

  lemma CostMono(w: World, t: Token, a: nat, b: nat)
    requires a <= b && GasCost(w, t, a).Some? && GasCost(w, t, b).Some?
    ensures 0 <= GasCost(w, t, a).value <= GasCost(w, t, b).value
  {
    ConvertMono(a, b, Rate(w, t));
    ConvertMono(0, b, Rate(w, t));
  }

  lemma UpfrontWithinReserve(env: Env, m: Message)
    requires WithinCaps(env, m)
    ensures UpfrontCost(env, m) <= ReservedCost(env, m)
  {
    MulMono(m.gasLimit, m.gasPrice, m.feeCap);
    if env.cancun && BlobGas(m) > 0 {
      MulMono(BlobGas(m), env.blobBaseFee, m.blobFeeCap);
    }
  }

  /** The up-front debit is covered and does not wrap, and afterwards the sender still holds the full value. */
  lemma Solvency(w: World, env: Env, m: Message)
    requires Affordable(w, env, m) && WithinCaps(env, m) && Balance(w, m.from, m.gasToken) < w.word
    ensures 0 <= Charged(w, env, m) <= Balance(w, m.from, m.gasToken)
        && ToWord(Charged(w, env, m), w.word) == Charged(w, env, m)
    ensures Balance(Debited(w, env, m), m.from, m.gasToken) == Balance(w, m.from, m.gasToken) - Charged(w, env, m)
    ensures m.value < w.word && CanTransfer(Debited(w, env, m), m.from, m.value, m.valueToken)
  {
    UpfrontWithinReserve(env, m);
    CostMono(w, m.gasToken, UpfrontCost(env, m), ReservedCost(env, m));
    SmallWord(Charged(w, env, m), w.word);
    SmallWord(Balance(w, m.from, m.gasToken) - Charged(w, env, m), w.word);
    OtherBook(w, m.from, m.gasToken, Balance(w, m.from, m.gasToken) - Charged(w, env, m), m.valueToken);
  }

  lemma OtherBook(w: World, a: Addr, t: Token, amount: nat, u: Token)
    ensures Balance(SetBalance(w, a, t, amount), a, u) == if u == t then amount else Balance(w, a, u)
  {
  }

  // ---------------------------------------------------------------- nonces and authorizations

  type Spending = (Addr, nat)

  /** From `w` to `v` no nonce falls, and the listed (account, nonce) pairs are all different and each used up on the
      way. */
  ghost predicate Spends(w: World, v: World, log: seq<Spending>)
  {
    && (forall a: Addr :: Nonce(w, a) <= Nonce(v, a))
    && (forall i :: 0 <= i < |log| ==> Nonce(w, log[i].0) <= log[i].1 < Nonce(v, log[i].0))
    && (forall i, j :: 0 <= i < j < |log| ==> log[i] != log[j])
  }

  /** Steps that spend nonces compose: a nonce spent in one step cannot be spent again in a later one. */
  lemma SpendsCompose(u: World, v: World, w: World, log: seq<Spending>, log': seq<Spending>)
    requires Spends(u, v, log) && Spends(v, w, log')
    ensures Spends(u, w, log + log')
  {
    forall i, j | 0 <= i < j < |log + log'| ensures (log + log')[i] != (log + log')[j] {
      if i < |log| <= j {
        assert log[i].1 < Nonce(v, log[i].0) && Nonce(v, log'[j - |log|].0) <= log'[j - |log|].1;
      }
    }
  }

  predicate AuthValid(w: World, env: Env, auth: Auth)
  {
    && (auth.chainId == 0 || auth.chainId == env.chainId)
    && auth.nonce < env.maxUint64
    && auth.authority.Some? && auth.authority.value !in env.blacklist
    && IsEOA(w, auth.authority.value)
    && Nonce(w, auth.authority.value) == auth.nonce
  }

  /** The world after a valid authorization: its nonce is used up and the delegation installed, or cleared for the zero
      address. */
  function Authorized(w: World, auth: Auth): World
    requires auth.authority.Some?
  {
    var a := auth.authority.value;
    var w1 := if a in w.accounts then w.(refund := w.refund + CALL_NEW_ACCOUNT_GAS - TX_AUTH_TUPLE_GAS) else w;
    SetCode(SetNonce(w1, a, auth.nonce + 1), a,
      if auth.address == ZERO_ADDRESS then NoCode else Delegation(auth.address))
  }

  /** Invalid authorizations are skipped. */
  function ApplyAuths(w: World, env: Env, auths: seq<Auth>): World
    decreases |auths|
  {
    if auths == [] then w
    else
      var last := auths[|auths| - 1];
      var w1 := ApplyAuths(w, env, auths[..|auths| - 1]);
      if AuthValid(w1, env, last) then Authorized(w1, last) else w1
  }

  ghost function AuthsSpent(w: World, env: Env, auths: seq<Auth>): seq<Spending>
    decreases |auths|
  {
    if auths == [] then []
    else
      var last := auths[|auths| - 1];
      var init := auths[..|auths| - 1];
      AuthsSpent(w, env, init)
      + if AuthValid(ApplyAuths(w, env, init), env, last) then [(last.authority.value, last.nonce)] else []
  }

  /** Authorizations spend each (authority, nonce) at most once, take no nonce past the 64-bit limit and change the code
      of accounts without contract code only. */
  lemma {:induction false} AuthsSpend(w: World, env: Env, auths: seq<Auth>)
    ensures var v := ApplyAuths(w, env, auths);
      && Spends(w, v, AuthsSpent(w, env, auths))
      && (forall a: Addr :: CodeOf(v, a) != CodeOf(w, a) ==> IsEOA(w, a) && IsEOA(v, a))
      && ((forall a: Addr :: Nonce(w, a) <= env.maxUint64) ==> forall a: Addr :: Nonce(v, a) <= env.maxUint64)
    decreases |auths|
  {
    if auths != [] {
      var init, last := auths[..|auths| - 1], auths[|auths| - 1];
      AuthsSpend(w, env, init);
      var v := ApplyAuths(w, env, init);
      if AuthValid(v, env, last) {
        AuthorizedSpends(v, env, last);
        SpendsCompose(w, v, Authorized(v, last), AuthsSpent(w, env, init), [(last.authority.value, last.nonce)]);
      } else {
        assert AuthsSpent(w, env, auths) == AuthsSpent(w, env, init);
      }
    }
  }

  /** Authorizations touch neither balances nor prices. */
  lemma {:induction false} AuthsFrame(w: World, env: Env, auths: seq<Auth>)
    ensures var v := ApplyAuths(w, env, auths);
      v == w.(nonces := v.nonces, code := v.code, accounts := v.accounts, refund := v.refund)
    decreases |auths|
  {
    if auths != [] {
      AuthsFrame(w, env, auths[..|auths| - 1]);
    }
  }

  lemma AuthorizedSpends(w: World, env: Env, auth: Auth)
    requires AuthValid(w, env, auth)
    ensures Spends(w, Authorized(w, auth), [(auth.authority.value, auth.nonce)])
  {
  }

  // ---------------------------------------------------------------- before and after the call

  /** The world the call starts from: gas paid and, for a call, the sender's nonce used up and the authorizations
      applied. */
  function Prepared(w: World, env: Env, m: Message): World
  {
    var w1 := Debited(w, env, m);
    if m.to.None? then w1
    else ApplyAuths(SetNonce(w1, m.from, Nonce(w1, m.from) + 1), env, if m.auths.Some? then m.auths.value else [])
  }

  /** What preparing a nonce-checked call spends: the sender's nonce and those of the valid authorizations. */
  ghost function PreparedSpent(w: World, env: Env, m: Message): seq<Spending>
  {
    var w1 := Debited(w, env, m);
    [(m.from, m.nonce)]
    + AuthsSpent(SetNonce(w1, m.from, Nonce(w1, m.from) + 1), env, if m.auths.Some? then m.auths.value else [])
  }

  lemma DebitedFrame(w: World, env: Env, m: Message)
    ensures Debited(w, env, m).nonces == w.nonces && Debited(w, env, m).code == w.code
  {
  }

  lemma NonceStep(w: World, v: World, a: Addr)
    requires forall b: Addr :: Nonce(v, b) == if b == a then Nonce(w, a) + 1 else Nonce(w, b)
    ensures Spends(w, v, [(a, Nonce(w, a))])
  {
  }

  lemma SettledNonces(o: World, env: Env, m: Message, remaining: nat, used: nat)
    requires FeesPaid(Returned(o, m, remaining), env, m, used).Some?
    ensures FeesPaid(Returned(o, m, remaining), env, m, used).value.nonces == o.nonces
  {
  }

  lemma SpendFirst(w: World, p: World, v: World, a: Addr, log: seq<Spending>)
    requires forall b: Addr :: Nonce(p, b) == if b == a then Nonce(w, a) + 1 else Nonce(w, b)
    requires Spends(p, v, log)
    ensures Spends(w, v, [(a, Nonce(w, a))] + log)
  {
    NonceStep(w, p, a);
    SpendsCompose(w, p, v, [(a, Nonce(w, a))], log);
  }

  /** Preparing a nonce-checked call spends the sender's nonce and those of its valid authorizations, each once. */
  lemma PreparedSpends(w: World, env: Env, m: Message)
    requires m.to.Some? && !m.skipNonceChecks && CheckNonce(w, env, m) == NoError
    ensures Spends(w, Prepared(w, env, m), PreparedSpent(w, env, m))
  {
    var w1 := Debited(w, env, m);
    var w2 := SetNonce(w1, m.from, Nonce(w1, m.from) + 1);
    var auths := if m.auths.Some? then m.auths.value else [];
    DebitedFrame(w, env, m);
    AuthsSpend(w2, env, auths);
    assert Prepared(w, env, m) == ApplyAuths(w2, env, auths);
    assert forall b: Addr :: Nonce(w2, b) == if b == m.from then Nonce(w, m.from) + 1 else Nonce(w, b);
    SpendFirst(w, w2, ApplyAuths(w2, env, auths), m.from, AuthsSpent(w2, env, auths));
  }

  /** Preparing a nonce-checked message takes no nonce past the 64-bit limit and installs or clears delegations only on
      accounts without contract code. */
  lemma PreparedGuards(w: World, env: Env, m: Message)
    requires !m.skipNonceChecks && CheckNonce(w, env, m) == NoError
    ensures NoncesFit(w, env) ==> NoncesFit(Prepared(w, env, m), env)
    ensures GuardsCode(w, Prepared(w, env, m))
  {
    DebitedFrame(w, env, m);
    var w1 := Debited(w, env, m);
    SameGuards(w, w1, env);
    if m.to.Some? {
      var auths := if m.auths.Some? then m.auths.value else [];
      NextGuards(w1, env, m.from, auths);
      var p := ApplyAuths(SetNonce(w1, m.from, Nonce(w1, m.from) + 1), env, auths);
      assert Prepared(w, env, m) == p;
      assert GuardsCode(w, p);
    } else {
      assert Prepared(w, env, m) == w1;
    }
  }

  lemma SameGuards(w: World, v: World, env: Env)
    requires v.nonces == w.nonces && v.code == w.code
    ensures forall a: Addr :: Nonce(v, a) == Nonce(w, a)
    ensures forall a: Addr :: CodeOf(v, a) == CodeOf(w, a)
    ensures NoncesFit(w, env) ==> NoncesFit(v, env)
  {
    assert forall a: Addr :: Nonce(v, a) == Nonce(w, a);
  }

  /** The sender's nonce and the authorizations, on accounts whose nonces fit. */
  lemma NextGuards(w: World, env: Env, from: Addr, auths: seq<Auth>)
    requires Nonce(w, from) < env.maxUint64
    ensures var p := ApplyAuths(SetNonce(w, from, Nonce(w, from) + 1), env, auths);
      (NoncesFit(w, env) ==> NoncesFit(p, env)) && GuardsCode(w, p)
  {
    var w1 := SetNonce(w, from, Nonce(w, from) + 1);
    assert forall a: Addr :: CodeOf(w1, a) == CodeOf(w, a);
    assert forall a: Addr :: Nonce(w1, a) == if a == from then Nonce(w, from) + 1 else Nonce(w, a);
    AuthsSpend(w1, env, auths);
  }

  /** Pays an account a cost converted to a token; a cost that cannot be converted is not paid. */
  function Pay(w: World, a: Addr, t: Token, base: int): World
  {
    match GasCost(w, t, base) case Some(c) => AddBalance(w, a, t, ToWord(c, w.word)) case None => w
  }

  /** Unused gas is paid back at the price it was bought for. */
  function Returned(w: World, m: Message, remaining: nat): World
  {
    Pay(w, m.from, m.gasToken, remaining * m.gasPrice)
  }

  function FeeRecipient(env: Env, m: Message): Addr
  {
    if env.gilt && m.gasToken == DEFAULT_TOKEN then SYSTEM_ADDRESS else env.coinbase
  }

  /** The tip and, on the GILT chain, the blob fee go to the fee recipient; the message fails if either cannot be
      converted. */
  function FeesPaid(w: World, env: Env, m: Message, used: nat): Option<World>
  {
    if GasCost(w, m.gasToken, used * EffectiveTip(env, m)).None? then None
    else
      var w1 := Pay(w, FeeRecipient(env, m), m.gasToken, used * EffectiveTip(env, m));
      if !(env.gilt && env.cancun) then Some(w1)
      else if GasCost(w1, m.gasToken, BlobGas(m) * env.blobBaseFee).None? then None
      else Some(Pay(w1, FeeRecipient(env, m), m.gasToken, BlobGas(m) * env.blobBaseFee))
  }

  // ---------------------------------------------------------------- conservation

  /** The part of the up-front cost that nobody receives: the base fee and, off the GILT chain, the blob fee. */
  ghost function Burnt(env: Env, m: Message, used: nat): nat
  {
    used * (if env.london then env.baseFee else 0) + if env.gilt then 0 else BlobFee(env, m)
  }

  /** Converting four parts one by one loses at most three units against converting their sum. */
  lemma Dust(w: World, t: Token, a: int, b: int, c: int, d: int)
    ensures var parts := Cost(w, t, a) + Cost(w, t, b) + Cost(w, t, c) + Cost(w, t, d);
      parts <= Cost(w, t, a + b + c + d) <= parts + if t == DEFAULT_TOKEN then 0 else 3
  {
    ConvertSplit(a, b, Rate(w, t));
    ConvertSplit(a + b, c, Rate(w, t));
    ConvertSplit(a + b + c, d, Rate(w, t));
  }

  lemma UpfrontParts(env: Env, m: Message, used: nat, remaining: nat)
    requires used + remaining == m.gasLimit
    ensures UpfrontCost(env, m)
         == remaining * m.gasPrice + used * EffectiveTip(env, m) + Burnt(env, m, used) +
           if env.gilt then BlobFee(env, m) else 0
  {
    assert (used + remaining) * m.gasPrice == used * m.gasPrice + remaining * m.gasPrice;
    assert used * m.gasPrice == used * (m.gasPrice - env.baseFee) + used * env.baseFee;
  }

  /** Where a cost can be converted, so can any smaller one, to what `Cost` says. */
  lemma CostKnown(w: World, v: World, t: Token, base: nat, part: int)
    requires GasCost(w, t, base).Some? && 0 <= part <= base && SamePrices(w, v, t)
    ensures GasCost(v, t, part) == Some(Cost(w, t, part)) && 0 <= Cost(w, t, part)
  {
    ConvertMono(0, part, Rate(w, t));
  }

  lemma DebitedTotals(w: World, env: Env, m: Message, t: Token)
    requires Affordable(w, env, m) && WithinCaps(env, m) && Total(w, m.gasToken) < w.word
    ensures Total(Debited(w, env, m), t)
         == Total(w, t) - if t == m.gasToken then Cost(w, m.gasToken, UpfrontCost(env, m)) else 0
    ensures 0 <= Cost(w, m.gasToken, UpfrontCost(env, m)) <= Total(w, m.gasToken)
  {
    BalanceBelowTotal(w, m.from, m.gasToken);
    Solvency(w, env, m);
    CostKnown(w, w, m.gasToken, UpfrontCost(env, m), UpfrontCost(env, m));
    Debit(w, m.from, m.gasToken, Charged(w, env, m), t);
  }

  /** Nonces and authorizations leave the books and the prices alone. */
  lemma PreparedBooks(w: World, env: Env, m: Message)
    ensures Prepared(w, env, m).books == Debited(w, env, m).books && SamePrices(w, Prepared(w, env, m), m.gasToken)
  {
    var w1 := Debited(w, env, m);
    if m.to.Some? {
      AuthsFrame(SetNonce(w1, m.from, Nonce(w1, m.from) + 1), env, if m.auths.Some? then m.auths.value else []);
    }
  }

  /** Paying a converted cost to an account, when the total has room for it. */
  lemma PayTotals(w: World, a: Addr, t: Token, base: int)
    requires GasCost(w, t, base) == Some(Cost(w, t, base)) && 0 <= Cost(w, t, base)
        && Total(w, t) + Cost(w, t, base) < w.word
    ensures SamePrices(w, Pay(w, a, t, base), t)
    ensures forall u: Token :: Total(Pay(w, a, t, base), u) == Total(w, u) + if u == t then Cost(w, t, base) else 0
  {
    SmallWord(Cost(w, t, base), w.word);
    forall u: Token
      ensures Total(AddBalance(w, a, t, Cost(w, t, base)), u) == Total(w, u) + if u == t then Cost(w, t, base) else 0
    {
      Credit(w, a, t, Cost(w, t, base), u);
    }
  }

  /** How far the gas token's total falls: by exactly the burnt cost in the default token, and in a converted token by
      the converted burnt cost plus at most three units of rounding. */
  ghost predicate Falls(w: World, v: World, t: Token, burnt: nat)
  {
    && (forall u: Token :: u != t ==> Total(v, u) == Total(w, u))
    && 0 <= Cost(w, t, burnt)
    && Cost(w, t, burnt) <= Total(w, t) - Total(v, t) <= Cost(w, t, burnt) + if t == DEFAULT_TOKEN then 0 else 3
  }

  /** The parts of the up-front cost are non-negative and no larger than the whole. */
  lemma PartsFit(env: Env, m: Message, used: nat, remaining: nat)
    requires WithinCaps(env, m) && used + remaining == m.gasLimit
    ensures var a, b, c, d := remaining * m.gasPrice, used * EffectiveTip(env, m), Burnt(env, m, used),
        if env.gilt then BlobFee(env, m) else 0;
      0 <= a && 0 <= b && 0 <= c && 0 <= d && a + b + c + d == UpfrontCost(env, m)
  {
    UpfrontParts(env, m, used, remaining);
    MulMono(used, 0, EffectiveTip(env, m));
    MulMono(remaining, 0, m.gasPrice);
  }

  /** Settlement after a call: the payments always go through, nothing wraps, and the books fall by the burnt cost. */
  lemma SettlementTotals(w: World, o: World, env: Env, m: Message, used: nat, remaining: nat)
    requires GasCost(w, m.gasToken, UpfrontCost(env, m)).Some? && WithinCaps(env, m) && used + remaining == m.gasLimit
    requires SamePrices(w, o, m.gasToken) && Total(w, m.gasToken) < w.word
    requires forall t: Token ::
      Total(o, t) == Total(w, t) - if t == m.gasToken then Cost(w, m.gasToken, UpfrontCost(env, m)) else 0
    ensures FeesPaid(Returned(o, m, remaining), env, m, used).Some?
    ensures Falls(w, FeesPaid(Returned(o, m, remaining), env, m, used).value, m.gasToken, Burnt(env, m, used))
  {
    var t, all := m.gasToken, UpfrontCost(env, m);
    var a, b, c, d := remaining * m.gasPrice, used * EffectiveTip(env, m), Burnt(env, m, used),
      if env.gilt then BlobFee(env, m) else 0;
    PartsFit(env, m, used, remaining);
    Dust(w, t, a, b, c, d);
    CostKnown(w, w, t, all, c);
    ThreePayments(w, o, t, m.from, FeeRecipient(env, m), all, a, b, d);
    assert !env.gilt || !env.cancun ==> d == 0;
  }

  /** Three payments in a row that together fit the room left in the total. */
  lemma ThreePayments(w: World, o: World, t: Token, from: Addr, to: Addr, all: nat, a: int, b: int, d: int)
    requires GasCost(w, t, all).Some? && SamePrices(w, o, t)
    requires 0 <= a <= all && 0 <= b <= all && 0 <= d <= all
    requires Total(o, t) + Cost(w, t, a) + Cost(w, t, b) + Cost(w, t, d) < w.word
    ensures var w1 := Pay(o, from, t, a);
      var w2 := Pay(w1, to, t, b);
      && GasCost(w1, t, b).Some? && GasCost(w2, t, d).Some?
      && Cost(w, t, 0) == 0
      && (forall u: Token :: Total(w2, u) == Total(o, u) + if u == t then Cost(w, t, a) + Cost(w, t, b) else 0)
      && (forall u: Token :: Total(Pay(w2, to, t, d), u)
                          == Total(o, u) + if u == t then Cost(w, t, a) + Cost(w, t, b) + Cost(w, t, d) else 0)
  {
    CostKnown(w, o, t, all, a);
    CostKnown(w, o, t, all, b);
    CostKnown(w, o, t, all, d);
    PayTotals(o, from, t, a);
    var w1 := Pay(o, from, t, a);
    CostKnown(w, w1, t, all, b);
    PayTotals(w1, to, t, b);
    var w2 := Pay(w1, to, t, b);
    CostKnown(w, w2, t, all, d);
    PayTotals(w2, to, t, d);
  }

  /** For every affordable message whose call conserves, the gas token's total falls by what is burnt, and no other
      token's total changes. */
  lemma Conservation(w: World, env: Env, m: Message, evm: Evm, gas: nat, used: nat, remaining: nat)
    requires Affordable(w, env, m) && WithinCaps(env, m) && Total(w, m.gasToken) < w.word
    requires Conserves(Prepared(w, env, m), evm(Prepared(w, env, m), m, gas).world, m.gasToken)
    requires used + remaining == m.gasLimit
    ensures var o := evm(Prepared(w, env, m), m, gas).world;
      var v := FeesPaid(Returned(o, m, remaining), env, m, used);
      v.Some? && Falls(w, v.value, m.gasToken, Burnt(env, m, used))
  {
    PreparedBooks(w, env, m);
    forall t: Token {
      DebitedTotals(w, env, m, t);
    }
    var o := evm(Prepared(w, env, m), m, gas).world;
    SettlementTotals(w, o, env, m, used, remaining);
  }
}
