/**
 Messages, chain rules and the gas arithmetic of a transaction.

 The largest 64-bit number is a field of `Env`; the node's value is two to the 64 less one, and nothing depends on it.
 */
module GasRules {
  import opened Common
  import opened Ledger

  const TX_GAS: nat := 21_000
  const TX_GAS_CONTRACT_CREATION: nat := 53_000
  const TX_DATA_ZERO_GAS: nat := 4
  const TX_DATA_NON_ZERO_GAS_FRONTIER: nat := 68
  const TX_DATA_NON_ZERO_GAS_EIP2028: nat := 16
  const INIT_CODE_WORD_GAS: nat := 2
  const TX_ACCESS_LIST_ADDRESS_GAS: nat := 2_400
  const TX_ACCESS_LIST_STORAGE_KEY_GAS: nat := 1_900
  const CALL_NEW_ACCOUNT_GAS: nat := 25_000
  const TX_AUTH_TUPLE_GAS: nat := 12_500
  const TX_TOKEN_PER_NON_ZERO_BYTE: nat := 4
  const TX_COST_FLOOR_PER_TOKEN: nat := 10
  const REFUND_QUOTIENT: nat := 2
  const REFUND_QUOTIENT_EIP3529: nat := 5
  const BLOB_GAS_PER_BLOB: nat := 131_072
  const BLOB_TX_MAX_BLOBS: nat := 6
  const MAX_TX_GAS: nat := 16_777_216
  const MAX_INIT_CODE_SIZE: nat := 49_152
  const SYSTEM_ADDRESS: Addr := -2   // stands for 0xff...fe
  const ZERO_ADDRESS: Addr := 0

  type Max64 = n: nat | n >= 1_000_000 witness 1_000_000

  datatype Env = Env(homestead: bool, istanbul: bool, london: bool, shanghai: bool, cancun: bool, prague: bool,
                     osaka: bool, nano: bool, gilt: bool, noBaseFee: bool, baseFee: nat, blobBaseFee: nat,
                     coinbase: Addr, chainId: nat, blacklist: set<Addr>, maxUint64: Max64)

  datatype AccessList = AccessList(addresses: nat, storageKeys: nat)

  /** An EIP-7702 authorization; `authority` is the recovered signer, if the signature is good. */
  datatype Auth = Auth(chainId: nat, address: Addr, nonce: nat, authority: Option<Addr>)

  /** `blobs` lists for each blob hash whether its version is valid. */
  datatype Message = Message(to: Option<Addr>, from: Addr, nonce: nat, value: nat, gasLimit: nat, gasPrice: nat,
                             feeCap: nat, tipCap: nat, gasToken: Token, valueToken: Token, data: seq<nat>,
                             accessList: Option<AccessList>, blobFeeCap: nat, blobs: Option<seq<bool>>,
                             auths: Option<seq<Auth>>, skipNonceChecks: bool, skipTransactionChecks: bool)

  /** A signed transaction with its recovered sender.  Its plain gas price is its fee cap, for every transaction
      type. */
  datatype Tx = Tx(to: Option<Addr>, from: Addr, nonce: nat, value: nat, gas: nat, feeCap: nat, tipCap: nat,
                   gasToken: Token, valueToken: Token, data: seq<nat>, accessList: Option<AccessList>, blobFeeCap: nat,
                   blobs: Option<seq<bool>>, auths: Option<seq<Auth>>, impersonated: bool)

  function TransactionToMessage(tx: Tx, baseFee: Option<nat>): (m: Message)
    ensures m.gasPrice <= tx.feeCap && (baseFee.Some? ==> m.gasPrice <= tx.tipCap + baseFee.value)
    ensures m.gasPrice == tx.feeCap || (baseFee.Some? && m.gasPrice == tx.tipCap + baseFee.value)
    ensures m.to == tx.to && m.from == tx.from && m.nonce == tx.nonce && m.value == tx.value && m.gasLimit == tx.gas
    ensures m.feeCap == tx.feeCap && m.tipCap == tx.tipCap && m.gasToken == tx.gasToken
    ensures m.valueToken == tx.valueToken && m.data == tx.data && m.accessList == tx.accessList
    ensures m.blobFeeCap == tx.blobFeeCap && m.blobs == tx.blobs && m.auths == tx.auths
    ensures !m.skipNonceChecks && m.skipTransactionChecks == tx.impersonated
  {
    var price := if baseFee.None? then tx.feeCap
                 else if tx.tipCap + baseFee.value > tx.feeCap then tx.feeCap else tx.tipCap + baseFee.value;
    Message(tx.to, tx.from, tx.nonce, tx.value, tx.gas, price, tx.feeCap, tx.tipCap, tx.gasToken, tx.valueToken,
            tx.data, tx.accessList, tx.blobFeeCap, tx.blobs, tx.auths, false, tx.impersonated)
  }

  // ---------------------------------------------------------------- intrinsic and floor gas

  function Zeros(data: seq<nat>): (z: nat)
    ensures z <= |data|
  {
    if data == [] then 0 else Zeros(data[1..]) + if data[0] == 0 then 1 else 0
  }

  /** That is how often the zero byte occurs. */
  lemma {:induction false} ZerosCount(data: seq<nat>)
    ensures Zeros(data) == multiset(data)[0]
  {
    if data != [] {
      ZerosCount(data[1..]);
      assert data == [data[0]] + data[1..];
    }
  }

  function ToWordSize(size: nat, maxUint64: Max64): nat
  {
    if size + 31 > maxUint64 then maxUint64 / 32 + 1 else (size + 31) / 32
  }

  /** `count` units at `price` on top of `gas`, refused exactly when that passes the 64-bit limit. */
  function Charge(gas: nat, count: nat, price: nat, maxUint64: Max64): (r: Option<nat>)
    requires price > 0 && gas <= maxUint64
    ensures r == if gas + count * price <= maxUint64 then Some(gas + count * price) else None
  {
    if (maxUint64 - gas) / price < count then
      QuotientBelow(maxUint64 - gas, count, price);
      None
    else
      QuotientAbove(maxUint64 - gas, count, price);
      Some(gas + count * price)
  }

  lemma QuotientBelow(room: nat, count: nat, price: nat)
    requires price > 0 && room / price < count
    ensures room < count * price
  {
    MulMono(price, room / price + 1, count);
  }

  lemma QuotientAbove(room: nat, count: nat, price: nat)
    requires price > 0 && count <= room / price
    ensures count * price <= room
  {
    MulMono(price, count, room / price);
  }

  /** The gas a transaction costs before it runs.  The data part is checked for overflow; the access list and the
      authorizations are added modulo the word, unchecked. */
  function IntrinsicGas(env: Env, m: Message): Option<nat>
  {
    var create := m.to.None?;
    var start := if create && env.homestead then TX_GAS_CONTRACT_CREATION else TX_GAS;
    match DataGas(env, m.data, create, start)
    case None => None
    case Some(gas) =>
      var lists := if m.accessList.Some? then m.accessList.value.addresses * TX_ACCESS_LIST_ADDRESS_GAS
                                              + m.accessList.value.storageKeys * TX_ACCESS_LIST_STORAGE_KEY_GAS else 0;
      var auths := if m.auths.Some? then |m.auths.value| * CALL_NEW_ACCOUNT_GAS else 0;
      Some((gas + lists + auths) % (env.maxUint64 + 1))
  }

  function DataGas(env: Env, data: seq<nat>, create: bool, start: nat): Option<nat>
    requires start <= env.maxUint64
  {
    if data == [] then Some(start)
    else
      var z := Zeros(data);
      var nonZeroGas := if env.istanbul then TX_DATA_NON_ZERO_GAS_EIP2028 else TX_DATA_NON_ZERO_GAS_FRONTIER;
      match Charge(start, |data| - z, nonZeroGas, env.maxUint64)
      case None => None
      case Some(g1) =>
        match Charge(g1, z, TX_DATA_ZERO_GAS, env.maxUint64)
        case None => None
        case Some(g2) =>
          if create && env.shanghai then Charge(g2, ToWordSize(|data|, env.maxUint64), INIT_CODE_WORD_GAS,
            env.maxUint64)
          else Some(g2)
  }

  /** The floor of EIP-7623: forty gas for a non-zero byte and ten for a zero byte, refused exactly when it does not
      fit. */
  function FloorDataGas(env: Env, data: seq<nat>): (r: Option<nat>)
    ensures var floor := 21_000 + 40 * (|data| - Zeros(data)) + 10 * Zeros(data);
      r == if floor <= env.maxUint64 then Some(floor) else None
  {
    var tokens := (|data| - Zeros(data)) * TX_TOKEN_PER_NON_ZERO_BYTE + Zeros(data);
    Charge(TX_GAS, tokens, TX_COST_FLOOR_PER_TOKEN, env.maxUint64)
  }

  /** What the data costs, in gas. */
  ghost function DataCost(env: Env, data: seq<nat>, create: bool): nat
  {
    (if env.istanbul then 16 else 68) * (|data| - Zeros(data)) + 4 * Zeros(data)
    + (if create && env.shanghai && data != [] then 2 * ((|data| + 31) / 32) else 0)
  }

  /** The stepwise overflow checks refuse the data gas exactly when the whole sum does not fit 64 bits. */
  lemma DataGasExact(env: Env, data: seq<nat>, create: bool, start: nat)
    requires start <= env.maxUint64
    ensures var gas := start + DataCost(env, data, create);
      DataGas(env, data, create, start) == if gas <= env.maxUint64 then Some(gas) else None
  {
    var z := Zeros(data);
    var price := if env.istanbul then TX_DATA_NON_ZERO_GAS_EIP2028 else TX_DATA_NON_ZERO_GAS_FRONTIER;
    MulMono(price, 0, |data| - z);
    var g1 := start + (|data| - z) * price;
    var g2 := g1 + z * TX_DATA_ZERO_GAS;
    if data != [] && g1 <= env.maxUint64 && g2 <= env.maxUint64 {
      assert Charge(start, |data| - z, price, env.maxUint64) == Some(g1);
      assert Charge(g1, z, TX_DATA_ZERO_GAS, env.maxUint64) == Some(g2);
      assert |data| + 31 <= env.maxUint64;
    }
  }

  /** Intrinsic gas in numbers: the start, the data, 2400 for a listed address, 1900 for a listed storage key and 25000
      for an authorization; refused exactly when start and data do not fit 64 bits, and wrapping in the rest. */
  lemma IntrinsicExact(env: Env, m: Message)
    ensures var base := (if m.to.None? && env.homestead then 53_000 else 21_000) + DataCost(env, m.data, m.to.None?);
      var lists := match m.accessList case Some(l) => 2_400 * l.addresses + 1_900 * l.storageKeys case None => 0;
      var auths := if m.auths.Some? then 25_000 * |m.auths.value| else 0;
      IntrinsicGas(env, m)
      == if base <= env.maxUint64 then Some((base + lists + auths) % (env.maxUint64 + 1)) else None
  {
    DataGasExact(env, m.data, m.to.None?, if m.to.None? && env.homestead then 53_000 else 21_000);
  }

  // ---------------------------------------------------------------- gas use

  datatype Usage = Usage(used: nat, maxUsed: nat, remaining: nat)

  /** The refund: the largest one within the counter and within a half of the gas used, or a fifth after London. */
  function CalcRefund(env: Env, gasUsed: nat, counter: nat): (r: nat)
    ensures r <= counter && (if env.london then 5 else 2) * r <= gasUsed
    ensures r == counter || (if env.london then 5 else 2) * (r + 1) > gasUsed
  {
    var cap := gasUsed / (if env.london then REFUND_QUOTIENT_EIP3529 else REFUND_QUOTIENT);
    if cap > counter then counter else cap
  }

  /** What a transaction pays for after its call has left `gasLeft` of `limit`: the refund comes off, then the data
      floor applies. */
  function GasUsage(env: Env, limit: nat, gasLeft: nat, counter: nat, floor: nat): (u: Usage)
    requires gasLeft <= limit && floor <= limit
    ensures u.used + u.remaining == limit && u.used <= u.maxUsed <= limit
    ensures env.prague ==> floor <= u.used
    ensures env.london ==> (limit - gasLeft) - (limit - gasLeft) / 5 <= u.used
    ensures (limit - gasLeft) - (limit - gasLeft) / 2 <= u.used
    ensures u.used <= limit - gasLeft || (env.prague && u.used == floor)
  {
    var peak := limit - gasLeft;
    var remaining := gasLeft + CalcRefund(env, peak, counter);
    var left := if env.prague && limit - remaining < floor then limit - floor else remaining;
    Usage(limit - left, if env.prague && peak < floor then floor else peak, left)
  }

  /** Gas use in numbers: the peak less the smaller of the counter and a half of the peak, or a fifth after London, and
      after Prague no less than the floor. */
  lemma GasUsageExact(env: Env, limit: nat, gasLeft: nat, counter: nat, floor: nat)
    requires gasLeft <= limit && floor <= limit
    ensures var u, peak := GasUsage(env, limit, gasLeft, counter, floor), limit - gasLeft;
      var cap := peak / if env.london then 5 else 2;
      var refund := if counter <= cap then counter else cap;
      && u.used == (if env.prague && peak - refund < floor then floor else peak - refund)
      && u.maxUsed == (if env.prague && peak < floor then floor else peak) && u.remaining == limit - u.used
  {
  }
}
