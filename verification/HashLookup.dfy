/**
 Block hashes by number, as the BLOCKHASH opcode sees them: a caching closure against the plain parent walk.
 */
module HashLookups {
  import opened Common
  import opened Chain

  /** Follows parent links from the block `hash` numbered `number` down to number `n`; fails at a missing header. */
  ghost function Walk(s: Store, hash: Hash, number: nat, n: nat): Option<Hash>
    requires n <= number
    decreases number
  {
    if number == n then Some(hash)
    else
      match GetHeader(s, hash, number)
      case None => None
      case Some(header) => Walk(s, header.parent, number - 1, n)
  }

  /** The answer of the uncached walk from a block that need not be stored itself; numbers from its own upwards have
      none. */
  ghost function HashAt(s: Store, ref: Header, n: nat): Hash
  {
    if ref.number <= n then ZERO
    else match Walk(s, ref.parent, ref.number - 1, n) case Some(h) => h case None => ZERO
  }

  /** One more link of a walk. */
  lemma {:induction false} WalkStep(s: Store, hash: Hash, number: nat, n: nat)
    requires 0 < n <= number && Walk(s, hash, number, n).Some?
    ensures Walk(s, hash, number, n - 1)
         == match GetHeader(s, Walk(s, hash, number, n).value, n) case None => None case Some(b) => Some(b.parent)
    decreases number
  {
    if n < number {
      WalkStep(s, GetHeader(s, hash, number).value.parent, number - 1, n);
    }
  }

  /** A walk that fails stays failed further down. */
  lemma {:induction false} WalkFails(s: Store, hash: Hash, number: nat, k: nat, n: nat)
    requires n <= k <= number && Walk(s, hash, number, k).None?
    ensures Walk(s, hash, number, n).None?
    decreases number
  {
    if GetHeader(s, hash, number).Some? {
      WalkFails(s, GetHeader(s, hash, number).value.parent, number - 1, k, n);
    }
  }

  /** For a stored block on a closed store the answer is its ancestor with that number. */
  lemma {:induction false} HashAtIsAncestor(s: Store, ref: Header, n: nat)
    requires Closed(s) && Has(s, ref) && n < ref.number
    ensures HashAt(s, ref, n) == Anc(s, ref.hash, n)
    decreases ref.number
  {
    assert ref.parent == Up(s, ref.hash);
    if n < ref.number - 1 {
      HashAtIsAncestor(s, s[ref.parent], n);
    }
  }

  /** The closure: a reference block, the chain it reads and the hashes found so far. */
  class HashFn {
    const ref: Header
    const chain: Store
    var cache: seq<Hash>   // hashes of the parent, the grandparent, and so on

    constructor (ref: Header, chain: Store)
      ensures Valid() && this.ref == ref && this.chain == chain && cache == []
    {
      this.ref, this.chain, cache := ref, chain, [];
    }

    ghost predicate Valid()
      reads this
    {
      && |cache| <= ref.number
      && forall i :: 0 <= i < |cache| ==> Walk(chain, ref.parent, ref.number - 1, ref.number - 1 - i) == Some(cache[i])
    }

    method Get(n: nat) returns (hash: Hash)
      requires Valid()
      modifies this
      ensures Valid() && hash == HashAt(chain, ref, n)
      ensures old(cache) <= cache
    {
      if ref.number <= n {
        return ZERO;
      }
      if |cache| == 0 {
        cache := [ref.parent];
      }
      var idx := ref.number - n - 1;
      if idx < |cache| {
        return cache[idx];
      }
      var lastKnownHash := cache[|cache| - 1];
      var lastKnownNumber := ref.number - |cache|;
      while true
        invariant Valid() && |cache| > 0 && old(cache) <= cache
        invariant lastKnownHash == cache[|cache| - 1] && lastKnownNumber == ref.number - |cache| && n < lastKnownNumber
        decreases lastKnownNumber
      {
        WalkStep(chain, ref.parent, ref.number - 1, lastKnownNumber);
        match GetHeader(chain, lastKnownHash, lastKnownNumber) {
          case None =>
            WalkFails(chain, ref.parent, ref.number - 1, lastKnownNumber - 1, n);
            break;
          case Some(header) =>
            cache := cache + [header.parent];
            lastKnownHash := header.parent;
            lastKnownNumber := header.number - 1;
        }
        if n == lastKnownNumber {
          return lastKnownHash;
        }
      }
      return ZERO;
    }
  }

  /** Any sequence of calls on one closure answers like the uncached walk, call by call. */
  method GetAll(ref: Header, chain: Store, ns: seq<nat>) returns (hashes: seq<Hash>)
    ensures |hashes| == |ns| && forall i :: 0 <= i < |ns| ==> hashes[i] == HashAt(chain, ref, ns[i])
  {
    var f := new HashFn(ref, chain);
    hashes := [];
    while |hashes| < |ns|
      invariant f.Valid() && fresh(f) && f.ref == ref && f.chain == chain
      invariant |hashes| <= |ns| && forall i :: 0 <= i < |hashes| ==> hashes[i] == HashAt(chain, ref, ns[i])
    {
      var h := f.Get(ns[|hashes|]);
      hashes := hashes + [h];
    }
  }
}
