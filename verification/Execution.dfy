/**
 Executing messages and whole blocks of transactions: the imperative side of the state transition.
 */
module Execution {
  import opened Common
  import opened Ledger
  import opened GasRules
  import opened StateTransitions

  /** The gas a block has left.  Pushing it past the 64-bit limit panics, so callers must show that it cannot happen. */
  class GasPool {
    const max: Max64
    var gas: nat

    constructor (max: Max64, gas: nat)
      ensures this.max == max && this.gas == gas
    {
      this.max, this.gas := max, gas;
    }

    method AddGas(amount: nat)
      requires gas + amount <= max
      modifies this
      ensures gas == old(gas) + amount
    {
      gas := gas + amount;
    }

    method SubGas(amount: nat) returns (ok: bool)
      modifies this
      ensures ok == (amount <= old(gas)) && gas == if ok then old(gas) - amount else old(gas)
    {
      if gas < amount {
        return false;
      }
      gas := gas - amount;
      return true;
    }
  }

  class StateDB {
    var world: World

    constructor (world: World)
      ensures this.world == world
    {
      this.world := world;
    }
  }

  datatype ExecutionResult = ExecutionResult(usedGas: nat, maxUsedGas: nat, failed: bool)

  function Floor(env: Env, m: Message): nat
  {
    match FloorDataGas(env, m.data) case Some(f) => if env.prague then f else 0 case None => 0
  }

  /** The gas checks between the purchase and the call. */
  function CheckGas(env: Env, m: Message): TxError
  {
    if IntrinsicGas(env, m).None? then GasUintOverflow
    else if m.gasLimit < IntrinsicGas(env, m).value then IntrinsicGasTooLow
    else if env.prague && FloorDataGas(env, m.data).None? then GasUintOverflow
    else if m.gasLimit < Floor(env, m) then FloorDataGasTooLow
    else NoError
  }

  predicate Barred(env: Env, m: Message)
  {
    env.nano && (m.from in env.blacklist || (m.to.Some? && m.to.value in env.blacklist))
  }

  ghost function CallOutcome(w: World, env: Env, m: Message, evm: Evm): Outcome
    requires CheckGas(env, m) == NoError
  {
    evm(Prepared(w, env, m), m, m.gasLimit - IntrinsicGas(env, m).value)
  }

  ghost function UsageOf(w: World, env: Env, m: Message, evm: Evm): Usage
    requires GasBounded(evm) && CheckGas(env, m) == NoError
  {
    var o := CallOutcome(w, env, m, evm);
    GasUsage(env, m.gasLimit, o.gasLeft, o.world.refund, Floor(env, m))
  }

  /** The sender can transfer the value, and a contract's code is not too long. */
  predicate Transferable(w: World, env: Env, m: Message)
  {
    && m.value < w.word && (m.value == 0 || CanTransfer(w, m.from, m.value, m.valueToken))
    && !(env.shanghai && m.to.None? && |m.data| > MAX_INIT_CODE_SIZE)
  }

  /** Everything that must hold for a message to get as far as its call. */
  ghost predicate Admitted(w: World, pool: nat, env: Env, m: Message)
  {
    && CheckMessage(w, env, m) == NoError && Affordable(w, env, m) && m.gasLimit <= pool
    && !Barred(env, m) && CheckGas(env, m) == NoError && Transferable(Debited(w, env, m), env, m)
  }

  /** Why gas cannot be bought: the first of these that fails. */
  ghost function PurchaseError(w: World, pool: nat, env: Env, m: Message): TxError
  {
    if m.value > 0 && !TransferAllowed(w, m.valueToken) then ValueTokenDisabled
    else if GasCost(w, m.gasToken, ReservedCost(env, m)).None? || GasCost(w, m.gasToken, UpfrontCost(env, m)).None?
      then GasTokenUnusable
    else if !Affordable(w, env, m) then InsufficientFunds
    else if pool < m.gasLimit then GasLimitReached
    else NoError
  }

  /** Why a message does not get as far as its call: the first check it fails. */
  ghost function Refusal(w: World, pool: nat, env: Env, m: Message): TxError
  {
    if CheckMessage(w, env, m) != NoError then CheckMessage(w, env, m)
    else if PurchaseError(w, pool, env, m) != NoError then PurchaseError(w, pool, env, m)
    else if Barred(env, m) then Blacklisted
    else if CheckGas(env, m) != NoError then CheckGas(env, m)
    else if Transferable(Debited(w, env, m), env, m) then NoError
    else if m.value < w.word && (m.value == 0 || CanTransfer(Debited(w, env, m), m.from, m.value, m.valueToken))
      then InitCodeTooLarge
    else InsufficientFundsForTransfer
  }

  /** The world after settlement; none if a fee cannot be converted any more. */
  ghost function Settled(w: World, env: Env, m: Message, evm: Evm): Option<World>
    requires GasBounded(evm) && CheckGas(env, m) == NoError
  {
    var u := UsageOf(w, env, m, evm);
    FeesPaid(Returned(CallOutcome(w, env, m, evm).world, m, u.remaining), env, m, u.used)
  }

  /** The message's own call conserves. */
  ghost predicate CallConserves(w: World, env: Env, m: Message, evm: Evm)
  {
    CheckGas(env, m) == NoError ==> Conserves(Prepared(w, env, m), CallOutcome(w, env, m, evm).world, m.gasToken)
  }

  /** The message's own call lowers no nonce. */
  ghost predicate CallKeepsNonces(w: World, env: Env, m: Message, evm: Evm)
  {
    CheckGas(env, m) == NoError ==> KeepsNonces(Prepared(w, env, m), CallOutcome(w, env, m, evm).world)
  }

  /** The message's own call takes no nonce past the limit. */
  ghost predicate CallKeepsLimit(w: World, env: Env, m: Message, evm: Evm)
  {
    CheckGas(env, m) == NoError && NoncesFit(Prepared(w, env, m), env) ==>
      NoncesFit(CallOutcome(w, env, m, evm).world, env)
  }

  /** What accepting a message in world `w` with a pool of `pool` gas means: every check passed, and the new world and
      the result are the ones the phases of the transition determine. */
  ghost predicate Accepted(w: World, pool: nat, env: Env, m: Message, evm: Evm, v: World, res: ExecutionResult)
    requires GasBounded(evm)
  {
    && Admitted(w, pool, env, m)
    && res == ExecutionResult(UsageOf(w, env, m, evm).used, UsageOf(w, env, m, evm).maxUsed,
      CallOutcome(w, env, m, evm).failed)
    && Settled(w, env, m, evm) == Some(v)
  }

  class StateTransition {
    const gp: GasPool
    const db: StateDB
    const env: Env
    const msg: Message
    var gasRemaining: nat
    var initialGas: nat

    constructor (gp: GasPool, db: StateDB, env: Env, msg: Message)
      ensures this.gp == gp && this.db == db && this.env == env && this.msg == msg
    {
      this.gp, this.db, this.env, this.msg := gp, db, env, msg;
      gasRemaining, initialGas := 0, 0;
    }

    /** Buys the whole gas limit from the pool.  It succeeds exactly when the sender can afford it and the pool has
        it. */
    method BuyGas() returns (err: TxError)
      modifies this, gp, db
      ensures err == NoError <==> Affordable(old(db.world), env, msg) && msg.gasLimit <= old(gp.gas)
      ensures err == PurchaseError(old(db.world), old(gp.gas), env, msg)
      ensures err == NoError ==> db.world == Debited(old(db.world), env, msg) && gp.gas == old(gp.gas) - msg.gasLimit
                                 && gasRemaining == initialGas == msg.gasLimit
      ensures err != NoError ==> db.world == old(db.world) && gp.gas == old(gp.gas)
      ensures err != InsufficientFundsForTransfer
    {
      var w := db.world;
      var baseGasCost := UpfrontCost(env, msg);
      var balanceCheck := ReservedCost(env, msg);
      if msg.value > 0 && !TransferAllowed(w, msg.valueToken) {
        return ValueTokenDisabled;
      }
      var check, cost := GasCost(w, msg.gasToken, balanceCheck), GasCost(w, msg.gasToken, baseGasCost);
      if check.None? || cost.None? {
        return GasTokenUnusable;
      }
      var required: map<Token, int> := map[msg.gasToken := check.value];
      if msg.value > 0 {
        required := required[msg.valueToken := (if msg.valueToken in required then required[msg.valueToken]
          else 0) + msg.value];
      }
      if required[msg.gasToken] >= w.word || Balance(w, msg.from, msg.gasToken) < required[msg.gasToken] {
        return InsufficientFunds;
      }
      if msg.valueToken in required
         && (required[msg.valueToken] >= w.word || Balance(w, msg.from, msg.valueToken) < required[msg.valueToken]) {
        return InsufficientFunds;
      }
      var ok := gp.SubGas(msg.gasLimit);
      if !ok {
        return GasLimitReached;
      }
      gasRemaining, initialGas := msg.gasLimit, msg.gasLimit;
      db.world := SubBalance(w, msg.from, msg.gasToken, ToWord(cost.value, w.word));
      return NoError;
    }

    method PreCheck() returns (err: TxError)
      modifies this, gp, db
      ensures err == NoError <==>
        CheckMessage(old(db.world), env, msg) == NoError && Affordable(old(db.world), env, msg)
          && msg.gasLimit <= old(gp.gas)
      ensures var w := old(db.world);
        err == if CheckMessage(w, env, msg) != NoError then CheckMessage(w, env, msg)
               else PurchaseError(w, old(gp.gas), env, msg)
      ensures err == NoError ==> db.world == Debited(old(db.world), env, msg) && gp.gas == old(gp.gas) - msg.gasLimit
                                 && gasRemaining == initialGas == msg.gasLimit
      ensures err != NoError ==> db.world == old(db.world) && gp.gas == old(gp.gas)
      ensures err != InsufficientFundsForTransfer
    {
      err := CheckMessage(db.world, env, msg);
      if err != NoError {
        return;
      }
      err := BuyGas();
    }

    /** Applies one authorization; an invalid one changes nothing. */
    method ApplyAuthorization(auth: Auth) returns (ok: bool)
      modifies db
      ensures ok == AuthValid(old(db.world), env, auth)
      ensures db.world == if ok then Authorized(old(db.world), auth) else old(db.world)
    {
      if !AuthValid(db.world, env, auth) {
        return false;
      }
      var authority := auth.authority.value;
      if authority in db.world.accounts {
        db.world := db.world.(refund := db.world.refund + CALL_NEW_ACCOUNT_GAS - TX_AUTH_TUPLE_GAS);
      }
      db.world := SetNonce(db.world, authority, auth.nonce + 1);
      if auth.address == ZERO_ADDRESS {
        db.world := SetCode(db.world, authority, NoCode);
        return true;
      }
      db.world := SetCode(db.world, authority, Delegation(auth.address));
      return true;
    }

    /** Uses up the sender's nonce and applies the authorizations, for a call. */
    method PrepareCall(ghost w0: World)
      requires db.world == Debited(w0, env, msg)
      modifies db
      ensures db.world == Prepared(w0, env, msg)
    {
      if msg.to.None? {
        return;
      }
      db.world := SetNonce(db.world, msg.from, Nonce(db.world, msg.from) + 1);
      if msg.auths.Some? {
        ghost var w1 := db.world;
        var i, auths := 0, msg.auths.value;
        while i < |auths|
          invariant 0 <= i <= |auths| && db.world == ApplyAuths(w1, env, auths[..i])
        {
          assert auths[..i + 1][..i] == auths[..i];
          var ok := ApplyAuthorization(auths[i]);
          i := i + 1;
        }
        assert auths[..i] == auths;
      }
    }

    /** Pays unused gas back to the sender and to the pool. */
    method ReturnGas()
      requires gp.gas + gasRemaining <= gp.max
      modifies gp, db
      ensures db.world == Returned(old(db.world), msg, gasRemaining) && gp.gas == old(gp.gas) + gasRemaining
    {
      var remainingCost := GasCost(db.world, msg.gasToken, gasRemaining * msg.gasPrice);
      if remainingCost.Some? {
        db.world := AddBalance(db.world, msg.from, msg.gasToken, ToWord(remainingCost.value, db.world.word));
      }
      gp.AddGas(gasRemaining);
    }

    /** Pays the tip and the blob fee. */
    method PayFees() returns (err: TxError)
      requires gasRemaining <= initialGas
      modifies db
      ensures var paid := FeesPaid(old(db.world), env, msg, initialGas - gasRemaining);
        if paid.Some? then err == NoError && db.world == paid.value else err == GasTokenUnusable
    {
      var fee := GasCost(db.world, msg.gasToken, (initialGas - gasRemaining) * EffectiveTip(env, msg));
      if fee.None? {
        return GasTokenUnusable;
      }
      var recipient := FeeRecipient(env, msg);
      db.world := AddBalance(db.world, recipient, msg.gasToken, ToWord(fee.value, db.world.word));
      if env.gilt && env.cancun {
        var blobFee := GasCost(db.world, msg.gasToken, BlobGas(msg) * env.blobBaseFee);
        if blobFee.None? {
          return GasTokenUnusable;
        }
        db.world := AddBalance(db.world, recipient, msg.gasToken, ToWord(blobFee.value, db.world.word));
      }
      return NoError;
    }

    /** Everything before the call: checks, gas purchase, intrinsic gas, value and code size.  A message priced within
        its caps never fails for want of the value it transfers. */
    method Admit() returns (err: TxError)
      modifies this, gp, db
      ensures err == NoError <==> Admitted(old(db.world), old(gp.gas), env, msg)
      ensures err == Refusal(old(db.world), old(gp.gas), env, msg)
      ensures err == NoError ==>
        && db.world == Debited(old(db.world), env, msg) && gp.gas == old(gp.gas) - msg.gasLimit
        && initialGas == msg.gasLimit && gasRemaining == msg.gasLimit - IntrinsicGas(env, msg).value
      ensures WithinCaps(env, msg) && Balance(old(db.world), msg.from, msg.gasToken) < old(db.world).word
              ==> err != InsufficientFundsForTransfer
      ensures gp.gas <= old(gp.gas)
    {
      ghost var w := db.world;
      err := PreCheck();
      if err != NoError {
        return;
      }
      if Barred(env, msg) {
        return Blacklisted;
      }
      err := CheckGas(env, msg);
      if err != NoError {
        return;
      }
      gasRemaining := gasRemaining - IntrinsicGas(env, msg).value;
      if WithinCaps(env, msg) && Balance(w, msg.from, msg.gasToken) < w.word {
        Solvency(w, env, msg);
      }
      if msg.value >= db.world.word {
        return InsufficientFundsForTransfer;
      }
      if msg.value != 0 && !CanTransfer(db.world, msg.from, msg.value, msg.valueToken) {
        return InsufficientFundsForTransfer;
      }
      if env.shanghai && msg.to.None? && |msg.data| > MAX_INIT_CODE_SIZE {
        return InitCodeTooLarge;
      }
    }

    /** Takes the refund off and applies the data floor. */
    method ApplyRefund() returns (peakGasUsed: nat)
      requires CheckGas(env, msg) == NoError && initialGas == msg.gasLimit && gasRemaining <= initialGas
      modifies `gasRemaining
      ensures var u := GasUsage(env, msg.gasLimit, old(gasRemaining), db.world.refund, Floor(env, msg));
        gasRemaining == u.remaining && peakGasUsed == u.maxUsed
    {
      peakGasUsed := initialGas - gasRemaining;
      gasRemaining := gasRemaining + CalcRefund(env, peakGasUsed, db.world.refund);
      if env.prague {
        var floorDataGas := Floor(env, msg);
        if initialGas - gasRemaining < floorDataGas {
          gasRemaining := initialGas - floorDataGas;
        }
        if peakGasUsed < floorDataGas {
          peakGasUsed := floorDataGas;
        }
      }
    }

    /** Everything after the call: refund, data floor, returned gas and fees. */
    method Settle(failed: bool) returns (err: TxError, res: ExecutionResult)
      requires CheckGas(env, msg) == NoError && initialGas == msg.gasLimit && gasRemaining <= initialGas
      requires gp.gas + msg.gasLimit <= gp.max
      modifies this, gp, db
      ensures var u := GasUsage(env, msg.gasLimit, old(gasRemaining), old(db.world).refund, Floor(env, msg));
        var paid := FeesPaid(Returned(old(db.world), msg, u.remaining), env, msg, u.used);
        && res == ExecutionResult(u.used, u.maxUsed, failed) && gp.gas == old(gp.gas) + u.remaining
        && if paid.Some? then err == NoError && db.world == paid.value else err == GasTokenUnusable
    {
      ghost var w := db.world;
      ghost var u := GasUsage(env, msg.gasLimit, gasRemaining, w.refund, Floor(env, msg));
      var peakGasUsed := ApplyRefund();
      res := ExecutionResult(initialGas - gasRemaining, peakGasUsed, failed);
      assert res.usedGas == u.used && gasRemaining == u.remaining;
      ReturnGas();
      assert db.world == Returned(w, msg, u.remaining);
      err := PayFees();
    }

    /** Runs a message.  It goes through exactly when it is admitted and its fees can still be converted after the call,
        and then the pool has lost exactly the gas used. */
    method Execute(evm: Evm) returns (err: TxError, res: ExecutionResult)
      requires GasBounded(evm) && gp.gas <= gp.max
      modifies this, gp, db
      ensures err == NoError <==>
        Admitted(old(db.world), old(gp.gas), env, msg) && Settled(old(db.world), env, msg, evm).Some?
      ensures err == NoError ==> Accepted(old(db.world), old(gp.gas), env, msg, evm, db.world, res)
      ensures !Admitted(old(db.world), old(gp.gas), env, msg) ==>
        err == Refusal(old(db.world), old(gp.gas), env, msg)
      ensures err == NoError ==> gp.gas == old(gp.gas) - res.usedGas
      ensures WithinCaps(env, msg) && Balance(old(db.world), msg.from, msg.gasToken) < old(db.world).word
              ==> err != InsufficientFundsForTransfer
      ensures gp.gas <= gp.max
    {
      ghost var w := db.world;
      res := ExecutionResult(0, 0, false);
      err := Admit();
      if err != NoError {
        return;
      }
      PrepareCall(w);
      var outcome := evm(db.world, msg, gasRemaining);
      assert outcome == CallOutcome(w, env, msg, evm);
      db.world, gasRemaining := outcome.world, outcome.gasLeft;
      ghost var settled := Settled(w, env, msg, evm);
      err, res := Settle(outcome.failed);
      assert if settled.Some? then err == NoError && db.world == settled.value else err == GasTokenUnusable;
    }
  }

  /** The clauses before the call, in the message's own terms. */
  lemma AdmittedExact(w: World, pool: nat, env: Env, m: Message)
    ensures var intrinsic, floor := IntrinsicGas(env, m), 21_000 + 40 * (|m.data| - Zeros(m.data)) + 10 * Zeros(m.data);
      var held := Balance(Debited(w, env, m), m.from, m.valueToken);
      Admitted(w, pool, env, m) <==>
        && CheckMessage(w, env, m) == NoError && Affordable(w, env, m) && m.gasLimit <= pool
        && (env.nano ==> m.from !in env.blacklist && (m.to.Some? ==> m.to.value !in env.blacklist))
        && intrinsic.Some? && intrinsic.value <= m.gasLimit
        && (env.prague ==> floor <= m.gasLimit && floor <= env.maxUint64)
        && m.value < w.word && (m.value == 0 || m.value <= held)
        && (env.shanghai && m.to.None? ==> |m.data| <= 49_152)
  {
  }

  /** The errors of the gas checks, in numbers: the intrinsic gas is tried before the data floor, which counts from
      Prague on. */
  lemma GasErrors(env: Env, m: Message)
    ensures var intrinsic, floor := IntrinsicGas(env, m), 21_000 + 40 * (|m.data| - Zeros(m.data)) + 10 * Zeros(m.data);
      var low := intrinsic.Some? && m.gasLimit < intrinsic.value;
      && (CheckGas(env, m) == IntrinsicGasTooLow <==> low)
      && (CheckGas(env, m) == GasUintOverflow <==> intrinsic.None? || (!low && env.prague && env.maxUint64 < floor))
      && (CheckGas(env, m) == FloorDataGasTooLow <==>
            intrinsic.Some? && !low && env.prague && m.gasLimit < floor <= env.maxUint64)
  {
  }

  // ---------------------------------------------------------------- what acceptance implies

  /** The gas paid for lies between the floor, or the peak less its capped refund, and the recorded maximum. */
  lemma AcceptedBounds(w: World, pool: nat, env: Env, m: Message, evm: Evm, v: World, res: ExecutionResult)
    requires GasBounded(evm) && Accepted(w, pool, env, m, evm, v, res)
    ensures var peak := m.gasLimit - CallOutcome(w, env, m, evm).gasLeft;
      && res.usedGas <= res.maxUsedGas <= m.gasLimit <= pool
      && (env.prague ==> Floor(env, m) <= res.usedGas)
      && (env.london ==> peak - peak / 5 <= res.usedGas)
      && peak <= res.maxUsedGas
  {
  }

  /** Accepting a priced message burns its base fee and conserves everything else. */
  lemma AcceptedFalls(w: World, pool: nat, env: Env, m: Message, evm: Evm, v: World, res: ExecutionResult)
    requires GasBounded(evm) && CallConserves(w, env, m, evm) && Accepted(w, pool, env, m, evm, v, res)
    requires Priced(env, m) && !env.noBaseFee && Total(w, m.gasToken) < w.word
    ensures Falls(w, v, m.gasToken, Burnt(env, m, res.usedGas))
  {
    ChecksBoundPrices(w, env, m);
    var u := UsageOf(w, env, m, evm);
    SettledFalls(w, env, m, evm, m.gasLimit - IntrinsicGas(env, m).value, u.used, u.remaining, v);
  }

  lemma SettledFalls(w: World, env: Env, m: Message, evm: Evm, gas: nat, used: nat, remaining: nat, v: World)
    requires Affordable(w, env, m) && WithinCaps(env, m) && Total(w, m.gasToken) < w.word
    requires Conserves(Prepared(w, env, m), evm(Prepared(w, env, m), m, gas).world, m.gasToken)
    requires used + remaining == m.gasLimit
    requires FeesPaid(Returned(evm(Prepared(w, env, m), m, gas).world, m, remaining), env, m, used) == Some(v)
    ensures Falls(w, v, m.gasToken, Burnt(env, m, used))
  {
    Conservation(w, env, m, evm, gas, used, remaining);
  }

  /** A priced message that gets as far as a conserving call never fails afterwards: its fees can still be paid. */
  lemma AdmittedSettles(w: World, pool: nat, env: Env, m: Message, evm: Evm)
    requires GasBounded(evm) && CallConserves(w, env, m, evm) && Admitted(w, pool, env, m)
    requires Priced(env, m) && !env.noBaseFee && Total(w, m.gasToken) < w.word
    ensures Settled(w, env, m, evm).Some?
  {
    ChecksBoundPrices(w, env, m);
    FeesConvert(w, env, m, evm);
  }

  lemma FeesConvert(w: World, env: Env, m: Message, evm: Evm)
    requires GasBounded(evm) && CheckGas(env, m) == NoError && CallConserves(w, env, m, evm)
    requires Affordable(w, env, m) && WithinCaps(env, m) && Total(w, m.gasToken) < w.word
    ensures Settled(w, env, m, evm).Some?
  {
    var u := UsageOf(w, env, m, evm);
    Conservation(w, env, m, evm, m.gasLimit - IntrinsicGas(env, m).value, u.used, u.remaining);
  }

  /** On the GILT chain after London exactly the base fee of the gas used is burnt, in the default token to the unit and
      in any other token up to three units of rounding dust. */
  lemma GiltBurns(w: World, pool: nat, env: Env, m: Message, evm: Evm, v: World, res: ExecutionResult)
    requires GasBounded(evm) && CallConserves(w, env, m, evm) && Accepted(w, pool, env, m, evm, v, res)
    requires Priced(env, m) && !env.noBaseFee && Total(w, m.gasToken) < w.word && env.gilt && env.london
    ensures forall t: Token :: t != m.gasToken ==> Total(v, t) == Total(w, t)
    ensures var fall, fee := Total(w, m.gasToken) - Total(v, m.gasToken), res.usedGas * env.baseFee;
      if m.gasToken == DEFAULT_TOKEN then fall == fee
      else Convert(fee, Rate(w, m.gasToken)) <= fall <= Convert(fee, Rate(w, m.gasToken)) + 3
  {
    AcceptedFalls(w, pool, env, m, evm, v, res);
  }

  lemma LaterNonces(w: World, p: World, o: World, v: World, log: seq<Spending>)
    requires Spends(w, p, log) && KeepsNonces(p, o) && v.nonces == o.nonces
    ensures Spends(w, v, log)
  {
    assert forall a: Addr :: Nonce(v, a) == Nonce(o, a);
  }

  /** Accepting a nonce-checked message whose call keeps nonces within 64 bits keeps them there, and its preparation
      sets or clears delegations on accounts without contract code only. */
  lemma AcceptedGuards(w: World, pool: nat, env: Env, m: Message, evm: Evm, v: World, res: ExecutionResult)
    requires GasBounded(evm) && CallKeepsLimit(w, env, m, evm) && Accepted(w, pool, env, m, evm, v, res)
    requires !m.skipNonceChecks
    ensures NoncesFit(w, env) ==> NoncesFit(v, env)
    ensures GuardsCode(w, Prepared(w, env, m))
  {
    PreparedGuards(w, env, m);
    var o, u := CallOutcome(w, env, m, evm).world, UsageOf(w, env, m, evm);
    SettledNonces(o, env, m, u.remaining, u.used);
    assert forall a: Addr :: Nonce(v, a) == Nonce(o, a);
  }

  /** Accepting a nonce-checked call spends its sender's nonce and its authorizations' nonces, each for the first and
      only time. */
  lemma AcceptedSpends(w: World, pool: nat, env: Env, m: Message, evm: Evm, v: World, res: ExecutionResult)
    requires GasBounded(evm) && CallKeepsNonces(w, env, m, evm) && Accepted(w, pool, env, m, evm, v, res)
    requires m.to.Some? && !m.skipNonceChecks
    ensures Spends(w, v, PreparedSpent(w, env, m))
  {
    PreparedSpends(w, env, m);
    var p, o, u := Prepared(w, env, m), CallOutcome(w, env, m, evm).world, UsageOf(w, env, m, evm);
    SettledNonces(o, env, m, u.remaining, u.used);
    LaterNonces(w, p, o, v, PreparedSpent(w, env, m));
  }
}
