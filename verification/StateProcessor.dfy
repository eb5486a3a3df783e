/**
 A block of transactions: the transaction loop of block processing and what it keeps over the whole block.

 System transactions are only set aside; the consensus engine's finalisation, system calls and log processing are not
 modelled.
 */
module StateProcessor {
  import opened Common
  import opened Ledger
  import opened GasRules
  import opened StateTransitions
  import opened Execution

  datatype Kind = Ordinary | StateSync | System

  datatype BlockTx = BlockTx(tx: Tx, kind: Kind)

  datatype Receipt = Receipt(cumulativeGasUsed: nat, gasUsed: nat, failed: bool)

  datatype ProcessError = Processed | OrdinaryAfterSystem | Rejected(reason: TxError)

  /** One executed message: the worlds before it, right after it and after its finalisation, and the result. */
  datatype Step = Step(before: World, msg: Message, after: World, next: World, res: ExecutionResult)

  ghost function Last(steps: seq<Step>): Step
    requires steps != []
  {
    steps[|steps| - 1]
  }

  ghost function Init(steps: seq<Step>): seq<Step>
    requires steps != []
  {
    steps[..|steps| - 1]
  }

  ghost function SumUsed(steps: seq<Step>): nat
  {
    if steps == [] then 0 else SumUsed(Init(steps)) + Last(steps).res.usedGas
  }

  /** The world after some steps; each ends with its finalisation. */
  ghost function EndWorld(w: World, steps: seq<Step>): World
  {
    if steps == [] then w else Last(steps).next
  }

  function BaseFee(env: Env): Option<nat>
  {
    if env.london then Some(env.baseFee) else None
  }

  /** The messages of the ordinary transactions, in order. */
  ghost function Messages(env: Env, txs: seq<BlockTx>): seq<Message>
  {
    if txs == [] then []
    else
      var last := txs[|txs| - 1];
      Messages(env, txs[..|txs| - 1]) + if last.kind == Ordinary then [TransactionToMessage(last.tx, BaseFee(env))]
        else []
  }

  /** What may follow: which steps the gas left in the pool admits. */
  type Rule = (Step, nat) -> bool

  /** A step is taken when its message is accepted and leaves the step's worlds and result. */
  ghost function Taken(env: Env, evm: Evm): Rule
    requires GasBounded(evm)
  {
    (s: Step, pool: nat) => Accepted(s.before, pool, env, s.msg, evm, s.after, s.res) && s.next == Finalised(s.after)
  }

  /** The rule admits accepted messages and no others. */
  ghost predicate Admits(rule: Rule, env: Env, evm: Evm)
    requires GasBounded(evm)
  {
    forall w, pool, m, v, n, res {:trigger Accepted(w, pool, env, m, evm, v, res), Step(w, m, v, n, res)} ::
      Accepted(w, pool, env, m, evm, v, res) && n == Finalised(v) <==> rule(Step(w, m, v, n, res), pool)
  }

  /** No step with this message is admitted. */
  ghost predicate Refused(rule: Rule, w: World, pool: nat, m: Message)
  {
    forall v, n, res :: !rule(Step(w, m, v, n, res), pool)
  }

  /** Why block processing stopped at transaction `at`, after the steps before it. */
  ghost predicate Stopped(err: ProcessError, env: Env, txs: seq<BlockTx>, at: nat, rule: Rule, w: World,
      steps: seq<Step>, pool: nat)
    requires err != Processed
  {
    && at < |txs| && txs[at].kind == Ordinary
    && Trace(w, steps, pool, rule) && MessagesOf(steps) == Messages(env, txs[..at]) && SumUsed(steps) <= pool
    && match err
       case OrdinaryAfterSystem => env.cancun && exists j :: 0 <= j < at && txs[j].kind != Ordinary
       case Rejected(_) =>
         Refused(rule, EndWorld(w, steps), pool - SumUsed(steps), TransactionToMessage(txs[at].tx, BaseFee(env)))
  }

  /** A run of steps from world `w`, each admitted with what the earlier ones have left in the pool. */
  ghost predicate Trace(w: World, steps: seq<Step>, pool: nat, rule: Rule)
    decreases |steps|
  {
    steps == [] ||
    (&& Trace(w, Init(steps), pool, rule) && Last(steps).before == EndWorld(w, Init(steps))
     && SumUsed(Init(steps)) <= pool && rule(Last(steps), pool - SumUsed(Init(steps))))
  }

  ghost function MessagesOf(steps: seq<Step>): seq<Message>
  {
    if steps == [] then [] else MessagesOf(Init(steps)) + [Last(steps).msg]
  }

  /** The receipts carry the gas used so far and by each transaction. */
  ghost function Receipts(steps: seq<Step>): seq<Receipt>
  {
    if steps == [] then []
    else Receipts(Init(steps)) + [Receipt(SumUsed(steps), Last(steps).res.usedGas, Last(steps).res.failed)]
  }

  /** A world, the gas used and the receipts are those a trace leaves. */
  ghost predicate Recorded(w: World, steps: seq<Step>, pool: nat, rule: Rule, world: World, usedGas: nat,
      receipts: seq<Receipt>)
  {
    Trace(w, steps, pool, rule) && world == EndWorld(w, steps) && usedGas == SumUsed(steps)
      && receipts == Receipts(steps)
  }

  lemma RecordStep(w: World, steps: seq<Step>, pool: nat, rule: Rule, world: World, usedGas: nat,
      receipts: seq<Receipt>, s: Step)
    requires Recorded(w, steps, pool, rule, world, usedGas, receipts) && s.before == world
    requires usedGas <= pool && rule(s, pool - usedGas)
    ensures Recorded(w, steps + [s], pool, rule, s.next, usedGas + s.res.usedGas,
                     receipts + [Receipt(usedGas + s.res.usedGas, s.res.usedGas, s.res.failed)])
    ensures MessagesOf(steps + [s]) == MessagesOf(steps) + [s.msg]
  {
    assert Init(steps + [s]) == steps && Last(steps + [s]) == s;
  }

  lemma NextMessage(env: Env, txs: seq<BlockTx>, i: nat)
    requires i < |txs|
    ensures Messages(env, txs[..i + 1])
         == Messages(env, txs[..i]) + if txs[i].kind == Ordinary then [TransactionToMessage(txs[i].tx, BaseFee(env))]
           else []
  {
    assert txs[..i + 1][..i] == txs[..i];
  }

  /** Processes the ordinary transactions of a block in order, each against the gas the earlier ones have left. */
  method Process(env: Env, txs: seq<BlockTx>, gp: GasPool, db: StateDB, evm: Evm)
    returns (err: ProcessError, receipts: seq<Receipt>, usedGas: nat, at: nat, ghost steps: seq<Step>)
    requires GasBounded(evm) && gp.gas <= gp.max
    modifies gp, db
    ensures err == Processed ==>
      && Recorded(old(db.world), steps, old(gp.gas), Taken(env, evm), db.world, usedGas, receipts)
      && MessagesOf(steps) == Messages(env, txs) && gp.gas + usedGas == old(gp.gas)
    ensures err != Processed ==> Stopped(err, env, txs, at, Taken(env, evm), old(db.world), steps, old(gp.gas))
  {
    err, receipts, usedGas, at, steps := ProcessAll(env, txs, gp, db, evm, Taken(env, evm));
  }

  /** The steps are those of the first `i` transactions, and the others among them have been counted. */
  ghost predicate Reached(env: Env, txs: seq<BlockTx>, i: nat, steps: seq<Step>, systemTxs: nat)
    requires i <= |txs|
  {
    && MessagesOf(steps) == Messages(env, txs[..i])
    && (systemTxs > 0 <==> exists j :: 0 <= j < i && txs[j].kind != Ordinary)
  }

  lemma ReachNext(env: Env, txs: seq<BlockTx>, i: nat, steps: seq<Step>, systemTxs: nat)
    requires i < |txs| && Reached(env, txs, i, steps, systemTxs)
    ensures txs[i].kind != Ordinary ==> Reached(env, txs, i + 1, steps, systemTxs + 1)
    ensures txs[i].kind == Ordinary ==> forall more ::
      MessagesOf(more) == MessagesOf(steps) + [TransactionToMessage(txs[i].tx, BaseFee(env))] ==>
        Reached(env, txs, i + 1, more, systemTxs)
  {
    NextMessage(env, txs, i);
  }

  lemma StopRefused(env: Env, txs: seq<BlockTx>, at: nat, rule: Rule, w: World, steps: seq<Step>, pool: nat,
                    world: World, usedGas: nat, receipts: seq<Receipt>, systemTxs: nat, err: TxError)
    requires at < |txs| && txs[at].kind == Ordinary && Reached(env, txs, at, steps, systemTxs) && usedGas <= pool
    requires Recorded(w, steps, pool, rule, world, usedGas, receipts)
    requires Refused(rule, world, pool - usedGas, TransactionToMessage(txs[at].tx, BaseFee(env)))
    ensures Stopped(Rejected(err), env, txs, at, rule, w, steps, pool)
  {
  }

  lemma StopMisplaced(env: Env, txs: seq<BlockTx>, at: nat, rule: Rule, w: World, steps: seq<Step>, pool: nat,
                      world: World, usedGas: nat, receipts: seq<Receipt>, systemTxs: nat)
    requires at < |txs| && txs[at].kind == Ordinary && Reached(env, txs, at, steps, systemTxs) && usedGas <= pool
    requires Recorded(w, steps, pool, rule, world, usedGas, receipts) && env.cancun && systemTxs > 0
    ensures Stopped(OrdinaryAfterSystem, env, txs, at, rule, w, steps, pool)
  {
  }

  method ProcessAll(env: Env, txs: seq<BlockTx>, gp: GasPool, db: StateDB, evm: Evm, ghost rule: Rule)
    returns (err: ProcessError, receipts: seq<Receipt>, usedGas: nat, at: nat, ghost steps: seq<Step>)
    requires GasBounded(evm) && Admits(rule, env, evm) && gp.gas <= gp.max
    modifies gp, db
    ensures err == Processed ==>
      && Recorded(old(db.world), steps, old(gp.gas), rule, db.world, usedGas, receipts)
      && MessagesOf(steps) == Messages(env, txs) && gp.gas + usedGas == old(gp.gas)
    ensures err != Processed ==> Stopped(err, env, txs, at, rule, old(db.world), steps, old(gp.gas))
  {
    receipts, usedGas, steps := [], 0, [];
    ghost var w, pool := db.world, gp.gas;
    var systemTxs := 0;
    var i := 0;
    while i < |txs|
      invariant 0 <= i <= |txs| && gp.gas <= gp.max && gp.gas + usedGas == pool
      invariant Recorded(w, steps, pool, rule, db.world, usedGas, receipts) && Reached(env, txs, i, steps, systemTxs)
    {
      ReachNext(env, txs, i, steps, systemTxs);
      if txs[i].kind != Ordinary {
        systemTxs := systemTxs + 1;
        i := i + 1;
        continue;
      }
      if env.cancun && systemTxs > 0 {
        StopMisplaced(env, txs, i, rule, w, steps, pool, db.world, usedGas, receipts, systemTxs);
        return OrdinaryAfterSystem, receipts, usedGas, i, steps;
      }
      var msg := TransactionToMessage(txs[i].tx, BaseFee(env));
      var failure, used, receipt;
      ghost var more, before := [], db.world;
      failure, used, receipt, more := ProcessOne(env, msg, gp, db, evm, rule, w, pool, steps, usedGas, receipts);
      if failure != NoError {
        StopRefused(env, txs, i, rule, w, steps, pool, before, usedGas, receipts, systemTxs, failure);
        return Rejected(failure), receipts, usedGas, i, steps;
      }
      usedGas, receipts, steps := used, receipts + [receipt], more;
      i := i + 1;
    }
    assert txs[..i] == txs;
    err, at := Processed, i;
  }

  /** Executes one message and draws up its receipt. */
  method ProcessOne(env: Env, msg: Message, gp: GasPool, db: StateDB, evm: Evm, ghost rule: Rule, ghost w: World,
                    ghost pool: nat, ghost steps: seq<Step>, usedGas: nat, ghost receipts: seq<Receipt>)
    returns (err: TxError, used: nat, receipt: Receipt, ghost more: seq<Step>)
    requires GasBounded(evm) && Admits(rule, env, evm) && gp.gas <= gp.max
    requires Recorded(w, steps, pool, rule, db.world, usedGas, receipts) && gp.gas + usedGas == pool
    modifies gp, db
    ensures gp.gas <= gp.max
    ensures err == NoError ==>
      && Recorded(w, more, pool, rule, db.world, used, receipts + [receipt]) && gp.gas + used == pool
      && MessagesOf(more) == MessagesOf(steps) + [msg]
    ensures err != NoError ==> Refused(rule, old(db.world), pool - usedGas, msg)
  {
    ghost var before := db.world;
    var result;
    ghost var after;
    err, result, after := ApplyTransaction(env, msg, gp, db, evm, rule);
    used, receipt := usedGas + result.usedGas, Receipt(usedGas + result.usedGas, result.usedGas, result.failed);
    more := steps + [Step(before, msg, after, db.world, result)];
    if err == NoError {
      RecordStep(w, steps, pool, rule, before, usedGas, receipts, Step(before, msg, after, db.world, result));
    }
  }

  /** Executes one message and finalises the world it leaves. */
  method ApplyTransaction(env: Env, msg: Message, gp: GasPool, db: StateDB, evm: Evm, ghost rule: Rule)
    returns (err: TxError, res: ExecutionResult, ghost after: World)
    requires GasBounded(evm) && Admits(rule, env, evm) && gp.gas <= gp.max
    modifies gp, db
    ensures gp.gas <= gp.max
    ensures err == NoError ==> gp.gas + res.usedGas == old(gp.gas) && db.world == Finalised(after)
    ensures err == NoError ==> rule(Step(old(db.world), msg, after, db.world, res), old(gp.gas))
    ensures err != NoError ==> Refused(rule, old(db.world), old(gp.gas), msg)
  {
    var st := new StateTransition(gp, db, env, msg);
    err, res := st.Execute(evm);
    after := db.world;
    if err == NoError {
      db.world := Finalised(db.world);
    } else {
      forall v, n, r ensures !rule(Step(old(db.world), msg, v, n, r), old(gp.gas)) {
        assert !Accepted(old(db.world), old(gp.gas), env, msg, evm, v, r);
      }
    }
  }

  // ---------------------------------------------------------------- over the whole block

  /** The messages block processing builds are priced by their caps and the block's base fee, and nonce-checked. */
  lemma {:induction false} MessagesArePriced(env: Env, txs: seq<BlockTx>, i: nat)
    requires i < |Messages(env, txs)|
    ensures Priced(env, Messages(env, txs)[i]) && !Messages(env, txs)[i].skipNonceChecks
    decreases |txs|
  {
    if i < |Messages(env, txs[..|txs| - 1])| {
      MessagesArePriced(env, txs[..|txs| - 1], i);
    } else {
      TxIsPriced(env, txs[|txs| - 1].tx);
    }
  }

  lemma {:induction false} MessageAt(steps: seq<Step>, i: nat)
    requires i < |steps|
    ensures |MessagesOf(steps)| == |steps| && MessagesOf(steps)[i] == steps[i].msg
    decreases |steps|
  {
    if i < |steps| - 1 {
      MessageAt(Init(steps), i);
    } else if |steps| > 1 {
      MessageAt(Init(steps), 0);
    }
  }

  /** What block processing executes is priced and nonce-checked. */
  lemma ProcessedArePriced(env: Env, txs: seq<BlockTx>, steps: seq<Step>)
    requires MessagesOf(steps) == Messages(env, txs)
    ensures AllPriced(env, steps) && forall s :: s in steps ==> !s.msg.skipNonceChecks
  {
    forall i | 0 <= i < |steps| ensures Priced(env, steps[i].msg) && !steps[i].msg.skipNonceChecks {
      MessageAt(steps, i);
      MessagesArePriced(env, txs, i);
    }
  }

  /** Receipts carry each message's gas and the sum of all gas up to and including it. */
  lemma {:induction false} ReceiptAt(steps: seq<Step>, i: nat)
    requires i < |steps|
    ensures |Receipts(steps)| == |steps|
    ensures Receipts(steps)[i] == Receipt(SumUsed(steps[..i + 1]), steps[i].res.usedGas, steps[i].res.failed)
    decreases |steps|
  {
    if i < |steps| - 1 {
      ReceiptAt(Init(steps), i);
      assert Init(steps)[..i + 1] == steps[..i + 1];
    } else {
      assert steps[..i + 1] == steps;
      if |steps| > 1 {
        ReceiptAt(Init(steps), 0);
      }
    }
  }

  ghost predicate AllPriced(env: Env, steps: seq<Step>)
  {
    forall s :: s in steps ==> Priced(env, s.msg)
  }

  /** What a message burns of a token: its base fee, and off the GILT chain its blob fee, at the rate it paid gas
      for. */
  ghost function BurntBy(env: Env, s: Step, t: Token): int
  {
    if s.msg.gasToken == t then Cost(s.before, t, Burnt(env, s.msg, s.res.usedGas)) else 0
  }

  ghost function BurntSum(env: Env, steps: seq<Step>, t: Token): int
  {
    if steps == [] then 0 else BurntSum(env, Init(steps), t) + BurntBy(env, Last(steps), t)
  }

  /** How many messages paid gas in a converted token. */
  ghost function Payers(steps: seq<Step>, t: Token): nat
  {
    if steps == [] then 0
    else Payers(Init(steps), t) + if Last(steps).msg.gasToken == t && t != DEFAULT_TOKEN then 1 else 0
  }

  /** What finalisation destroys of a token over all the steps. */
  ghost function DestroyedSum(steps: seq<Step>, t: Token): nat
  {
    if steps == [] then 0 else DestroyedSum(Init(steps), t) + Destroyed(Last(steps).after, t)
  }

  /** No total rises. */
  ghost predicate Shrinks(w: World, v: World)
  {
    v.word == w.word && forall t: Token :: Total(v, t) <= Total(w, t)
  }

  /** A token's total falls by what is lost, and by at most three units of rounding dust for each of some messages. */
  ghost predicate FallsBy(w: World, v: World, t: Token, lost: int, messages: nat)
  {
    0 <= lost <= Total(w, t) - Total(v, t) <= lost + 3 * messages
  }

  /** Every total fits a word. */
  ghost predicate Fits(w: World)
  {
    forall t: Token :: Total(w, t) < w.word
  }

  lemma ShrinkStep(w: World, p: World, v: World, t: Token, a: int, b: int, m: nat, n: nat)
    requires Fits(w) && Shrinks(w, p) && FallsBy(w, p, t, a, m)
    requires Fits(p) ==> Shrinks(p, v) && FallsBy(p, v, t, b, n)
    ensures Shrinks(w, v) && FallsBy(w, v, t, a + b, m + n)
  {
  }

  lemma AcceptedWord(w: World, pool: nat, env: Env, m: Message, evm: Evm, v: World, res: ExecutionResult)
    requires GasBounded(evm) && CallConserves(w, env, m, evm) && Accepted(w, pool, env, m, evm, v, res)
    ensures v.word == w.word
  {
    PreparedBooks(w, env, m);
    var o := CallOutcome(w, env, m, evm).world;
    PayWord(o, env, m, UsageOf(w, env, m, evm).remaining, UsageOf(w, env, m, evm).used);
  }

  lemma PayWord(o: World, env: Env, m: Message, remaining: nat, used: nat)
    requires FeesPaid(Returned(o, m, remaining), env, m, used).Some?
    ensures FeesPaid(Returned(o, m, remaining), env, m, used).value.word == o.word
  {
  }

  /** A step loses what its message burns and what its finalisation destroys. */
  ghost predicate StepLoses(env: Env, s: Step, t: Token)
  {
    && Shrinks(s.before, s.next)
    && FallsBy(s.before, s.next, t, BurntBy(env, s, t) + Destroyed(s.after, t), Payers([s], t))
  }

  /** The fall of one message's totals, finalisation included. */
  lemma FinalisedFalls(s: Step, env: Env, t: Token)
    requires Falls(s.before, s.after, s.msg.gasToken, Burnt(env, s.msg, s.res.usedGas)) && s.after.word == s.before.word
    requires s.next == Finalised(s.after)
    ensures StepLoses(env, s, t)
  {
    forall u: Token ensures Total(Finalised(s.after), u) == Total(s.after, u) - Destroyed(s.after, u) {
      FinalisedTotal(s.after, u);
    }
    assert Payers([], t) == 0 && Init([s]) == [] && Last([s]) == s;
  }

  /** What one message does to the totals. */
  lemma StepFalls(s: Step, pool: nat, env: Env, evm: Evm, t: Token)
    requires GasBounded(evm) && CallConserves(s.before, env, s.msg, evm)
    requires Accepted(s.before, pool, env, s.msg, evm, s.after, s.res)
    requires s.next == Finalised(s.after) && Priced(env, s.msg) && !env.noBaseFee && Fits(s.before)
    ensures StepLoses(env, s, t)
  {
    AcceptedWord(s.before, pool, env, s.msg, evm, s.after, s.res);
    AcceptedFalls(s.before, pool, env, s.msg, evm, s.after, s.res);
    FinalisedFalls(s, env, t);
  }

  ghost predicate RuleShrinks(rule: Rule, env: Env, steps: seq<Step>, t: Token)
  {
    forall s: Step, pool: nat :: s in steps && rule(s, pool) && Fits(s.before) ==> StepLoses(env, s, t)
  }

  lemma {:induction false} TraceShrinks(w: World, steps: seq<Step>, pool: nat, rule: Rule, env: Env, t: Token)
    requires Trace(w, steps, pool, rule) && RuleShrinks(rule, env, steps, t) && Fits(w)
    ensures Shrinks(w, EndWorld(w, steps))
    ensures FallsBy(w, EndWorld(w, steps), t, BurntSum(env, steps, t) + DestroyedSum(steps, t), Payers(steps, t))
    decreases |steps|
  {
    if steps != [] {
      var s := Last(steps);
      TraceShrinks(w, Init(steps), pool, rule, env, t);
      assert s in steps && Payers([], t) == 0 && Init([s]) == [] && Last([s]) == s;
      ShrinkStep(w, s.before, EndWorld(w, steps), t, BurntSum(env, Init(steps), t) + DestroyedSum(Init(steps), t),
                 BurntBy(env, s, t) + Destroyed(s.after, t), Payers(Init(steps), t), Payers([s], t));
    }
  }

  /** Through a whole block no token's total ever rises; the default token's falls by exactly what its payers burnt and
      what finalisation destroyed, and any other token's by that and at most three units for each of its payers. */
  lemma BlockConserves(w: World, steps: seq<Step>, pool: nat, env: Env, evm: Evm, t: Token)
    requires GasBounded(evm) && Trace(w, steps, pool, Taken(env, evm))
    requires forall s :: s in steps ==> CallConserves(s.before, env, s.msg, evm)
    requires !env.noBaseFee && AllPriced(env, steps) && Fits(w)
    ensures Shrinks(w, EndWorld(w, steps))
    ensures FallsBy(w, EndWorld(w, steps), t, BurntSum(env, steps, t) + DestroyedSum(steps, t), Payers(steps, t))
  {
    var rule := Taken(env, evm);
    forall s: Step, p: nat | s in steps && rule(s, p) && Fits(s.before) ensures StepLoses(env, s, t) {
      StepFalls(s, p, env, evm, t);
    }
    TraceShrinks(w, steps, pool, rule, env, t);
  }

  lemma {:induction false} DefaultHasNoDust(steps: seq<Step>)
    ensures Payers(steps, DEFAULT_TOKEN) == 0
    decreases |steps|
  {
    if steps != [] {
      DefaultHasNoDust(Init(steps));
    }
  }

  /** Every (account, nonce) pair the messages spend, as senders or as authorities. */
  ghost function SpentBy(env: Env, steps: seq<Step>): seq<Spending>
  {
    if steps == [] then [] else SpentBy(env, Init(steps)) + PreparedSpent(Last(steps).before, env, Last(steps).msg)
  }

  /** Every account that self-destructs in some step. */
  ghost function DoomedIn(steps: seq<Step>): set<Addr>
  {
    if steps == [] then {} else DoomedIn(Init(steps)) + Last(steps).after.doomed
  }

  /** From `w` to `v` no nonce falls but those of the `gone` accounts, and the listed (account, nonce) pairs of the
      others are all different and each used up on the way. */
  ghost predicate SpendsBut(w: World, v: World, log: seq<Spending>, gone: set<Addr>)
  {
    && (forall a: Addr :: a !in gone ==> Nonce(w, a) <= Nonce(v, a))
    && (forall i :: 0 <= i < |log| && log[i].0 !in gone ==> Nonce(w, log[i].0) <= log[i].1 < Nonce(v, log[i].0))
    && (forall i, j :: 0 <= i < j < |log| && log[i].0 !in gone ==> log[i] != log[j])
  }

  lemma SpendsButCompose(u: World, v: World, w: World, log: seq<Spending>, log': seq<Spending>, x: set<Addr>,
                         y: set<Addr>)
    requires SpendsBut(u, v, log, x) && SpendsBut(v, w, log', y)
    ensures SpendsBut(u, w, log + log', x + y)
  {
    var all := log + log';
    forall i, j | 0 <= i < j < |all| && all[i].0 !in x + y ensures all[i] != all[j] {
      if i < |log| <= j {
        assert log[i].1 < Nonce(v, log[i].0);
        assert log'[j - |log|].0 !in y ==> Nonce(v, log'[j - |log|].0) <= log'[j - |log|].1;
      }
    }
  }

  /** A step's nonces, finalisation included. */
  lemma FinalisedSpends(w: World, v: World, log: seq<Spending>)
    requires Spends(w, v, log)
    ensures SpendsBut(w, Finalised(v), log, v.doomed)
  {
    forall a: Addr ensures Nonce(Finalised(v), a) == if a in v.doomed then 0 else Nonce(v, a) {
      FinalisedNonce(v, a);
    }
  }

  /** Through a whole block of call transactions nonces fall only on accounts that self-destruct, and no (sender, nonce)
      or (authority, nonce) of any other account is spent twice, in whatever combination. */
  lemma {:induction false} BlockSpends(w: World, steps: seq<Step>, pool: nat, env: Env, evm: Evm)
    requires GasBounded(evm) && Trace(w, steps, pool, Taken(env, evm))
    requires forall s :: s in steps ==> CallKeepsNonces(s.before, env, s.msg, evm)
    requires forall s :: s in steps ==> s.msg.to.Some? && !s.msg.skipNonceChecks
    ensures SpendsBut(w, EndWorld(w, steps), SpentBy(env, steps), DoomedIn(steps))
    decreases |steps|
  {
    if steps != [] {
      var s := Last(steps);
      BlockSpends(w, Init(steps), pool, env, evm);
      assert s in steps;
      AcceptedSpends(s.before, pool - SumUsed(Init(steps)), env, s.msg, evm, s.after, s.res);
      var log := PreparedSpent(s.before, env, s.msg);
      FinalisedSpends(s.before, s.after, log);
      SpendsButCompose(w, s.before, EndWorld(w, steps), SpentBy(env, Init(steps)), log, DoomedIn(Init(steps)),
                       s.after.doomed);
    }
  }

  lemma FinalisedLimit(w: World, env: Env)
    requires NoncesFit(w, env)
    ensures NoncesFit(Finalised(w), env)
  {
    forall a: Addr ensures Nonce(Finalised(w), a) <= env.maxUint64 {
      FinalisedNonce(w, a);
    }
  }

  ghost predicate RuleKeepsLimit(rule: Rule, env: Env, steps: seq<Step>)
  {
    forall s: Step, pool: nat :: s in steps && rule(s, pool) && NoncesFit(s.before, env) ==> NoncesFit(s.next, env)
  }

  lemma {:induction false} TraceKeepsLimit(w: World, steps: seq<Step>, pool: nat, rule: Rule, env: Env)
    requires Trace(w, steps, pool, rule) && RuleKeepsLimit(rule, env, steps) && NoncesFit(w, env)
    ensures NoncesFit(EndWorld(w, steps), env)
    decreases |steps|
  {
    if steps != [] {
      TraceKeepsLimit(w, Init(steps), pool, rule, env);
      assert Last(steps) in steps;
    }
  }

  lemma {:induction false} TakenInTrace(w: World, steps: seq<Step>, pool: nat, rule: Rule, s: Step) returns (p: nat)
    requires Trace(w, steps, pool, rule) && s in steps
    ensures rule(s, p)
    decreases |steps|
  {
    if s == Last(steps) {
      p := pool - SumUsed(Init(steps));
    } else {
      assert steps == Init(steps) + [Last(steps)];
      p := TakenInTrace(w, Init(steps), pool, rule, s);
    }
  }

  /** Through a whole block of nonce-checked messages whose calls keep nonces within 64 bits, no nonce ever leaves
      them. */
  lemma BlockKeepsLimit(w: World, steps: seq<Step>, pool: nat, env: Env, evm: Evm)
    requires GasBounded(evm) && Trace(w, steps, pool, Taken(env, evm)) && NoncesFit(w, env)
    requires forall s :: s in steps ==> CallKeepsLimit(s.before, env, s.msg, evm) && !s.msg.skipNonceChecks
    ensures NoncesFit(EndWorld(w, steps), env)
  {
    var rule := Taken(env, evm);
    forall s: Step, p: nat | s in steps && rule(s, p) && NoncesFit(s.before, env)
      ensures NoncesFit(s.next, env)
    {
      AcceptedGuards(s.before, p, env, s.msg, evm, s.after, s.res);
      FinalisedLimit(s.after, env);
    }
    TraceKeepsLimit(w, steps, pool, rule, env);
  }

  /** In every block, every message's preparation sets or clears delegations on accounts without contract code only. */
  lemma BlockGuards(w: World, steps: seq<Step>, pool: nat, env: Env, evm: Evm, s: Step)
    requires GasBounded(evm) && Trace(w, steps, pool, Taken(env, evm)) && s in steps && !s.msg.skipNonceChecks
    ensures GuardsCode(s.before, Prepared(s.before, env, s.msg))
  {
    var p := TakenInTrace(w, steps, pool, Taken(env, evm), s);
    PreparedGuards(s.before, env, s.msg);
  }

  /** The pool and the gas used always add up to the block's gas limit. */
  lemma {:induction false} BlockGas(w: World, steps: seq<Step>, pool: nat, env: Env, evm: Evm)
    requires GasBounded(evm) && Trace(w, steps, pool, Taken(env, evm))
    ensures SumUsed(steps) <= pool
    decreases |steps|
  {
    if steps != [] {
      var s := Last(steps);
      AcceptedBounds(s.before, pool - SumUsed(Init(steps)), env, s.msg, evm, s.after, s.res);
    }
  }
}
