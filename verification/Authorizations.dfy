/**
 What a list of authorizations leaves, in the authorizations' own terms.
 */
module Authorizations {
  import opened Common
  import opened Ledger
  import opened GasRules
  import opened StateTransitions

  /** The authorization at position `i` takes effect: it is for this chain or any, its signer is known and not barred,
      has no contract code, and its nonce is the signer's at that point and below the 64-bit limit. */
  ghost predicate ValidAt(w: World, env: Env, auths: seq<Auth>, i: nat)
    requires i < |auths|
  {
    var p, auth := ApplyAuths(w, env, auths[..i]), auths[i];
    && (auth.chainId == 0 || auth.chainId == env.chainId)
    && auth.authority.Some? && auth.authority.value !in env.blacklist
    && !CodeOf(p, auth.authority.value).Contract?
    && Nonce(p, auth.authority.value) == auth.nonce < env.maxUint64
  }

  ghost predicate Names(w: World, env: Env, auths: seq<Auth>, i: nat, a: Addr)
    requires i < |auths|
  {
    ValidAt(w, env, auths, i) && auths[i].authority == Some(a)
  }

  /** The position of the last authorization of `a` to take effect, and -1 when there is none. */
  ghost function LastNaming(w: World, env: Env, auths: seq<Auth>, a: Addr): (i: int)
    ensures -1 <= i < |auths|
    decreases |auths|
  {
    if auths == [] then -1
    else if Names(w, env, auths, |auths| - 1, a) then |auths| - 1
    else LastNaming(w, env, auths[..|auths| - 1], a)
  }

  lemma ValidEarlier(w: World, env: Env, auths: seq<Auth>, i: nat)
    requires i < |auths| - 1
    ensures ValidAt(w, env, auths[..|auths| - 1], i) == ValidAt(w, env, auths, i)
  {
    assert auths[..|auths| - 1][..i] == auths[..i];
  }

  /** One authorization. */
  lemma OneLeaves(w: World, env: Env, auths: seq<Auth>, a: Addr)
    requires auths != []
    ensures var n := |auths| - 1;
      var v, p, auth := ApplyAuths(w, env, auths), ApplyAuths(w, env, auths[..n]), auths[n];
      if Names(w, env, auths, n, a) then
        && CodeOf(v, a) == (if auth.address == 0 then NoCode else Delegation(auth.address))
        && Nonce(v, a) == auth.nonce + 1 && a in v.accounts
      else CodeOf(v, a) == CodeOf(p, a) && Nonce(v, a) == Nonce(p, a) && (a in v.accounts <==> a in p.accounts)
  {
  }

  lemma {:induction false} LastNamingIsLast(w: World, env: Env, auths: seq<Auth>, a: Addr)
    ensures var i := LastNaming(w, env, auths, a);
      && (i >= 0 ==> Names(w, env, auths, i, a))
      && forall j :: 0 <= j < |auths| && j > i ==> !Names(w, env, auths, j, a)
    decreases |auths|
  {
    if auths != [] && !Names(w, env, auths, |auths| - 1, a) {
      var init := auths[..|auths| - 1];
      LastNamingIsLast(w, env, init, a);
      forall j | 0 <= j < |init| ensures Names(w, env, init, j, a) == Names(w, env, auths, j, a) {
        ValidEarlier(w, env, auths, j);
      }
    }
  }

  /** An account's code is the delegation the last of its authorizations to take effect names, none if that names the
      zero address, and what it was if none takes effect; its nonce is one above that authorization's, and it exists. */
  lemma {:induction false} AuthsLeave(w: World, env: Env, auths: seq<Auth>, a: Addr)
    ensures var v, i := ApplyAuths(w, env, auths), LastNaming(w, env, auths, a);
      if i < 0 then CodeOf(v, a) == CodeOf(w, a) && Nonce(v, a) == Nonce(w, a) && (a in v.accounts <==> a in w.accounts)
      else
        && CodeOf(v, a) == (if auths[i].address == 0 then NoCode else Delegation(auths[i].address))
        && Nonce(v, a) == auths[i].nonce + 1 && a in v.accounts
    decreases |auths|
  {
    if auths != [] {
      AuthsLeave(w, env, auths[..|auths| - 1], a);
      OneLeaves(w, env, auths, a);
    }
  }

  /** The number of authorizations that take effect on an account that exists by then. */
  ghost function Existing(w: World, env: Env, auths: seq<Auth>): nat
    decreases |auths|
  {
    if auths == [] then 0
    else
      var n := |auths| - 1;
      Existing(w, env, auths[..n])
      + if ValidAt(w, env, auths, n) && auths[n].authority.value in ApplyAuths(w, env, auths[..n]).accounts then 1
        else 0
  }

  /** Each of those adds 12500 to the refund counter, and the others nothing. */
  lemma {:induction false} AuthsRefund(w: World, env: Env, auths: seq<Auth>)
    ensures ApplyAuths(w, env, auths).refund == w.refund + 12_500 * Existing(w, env, auths)
    decreases |auths|
  {
    if auths != [] {
      AuthsRefund(w, env, auths[..|auths| - 1]);
    }
  }

  /** What a call's preparation does to code, nonces and the refund counter: its authorizations take effect after the
      sender's nonce, which goes up by one; a contract creation changes none of them. */
  lemma PreparedLeaves(w: World, env: Env, m: Message)
    ensures m.to.None? ==> forall a: Addr :: CodeOf(Prepared(w, env, m), a) == CodeOf(w, a)
                                          && Nonce(Prepared(w, env, m), a) == Nonce(w, a)
    ensures m.to.Some? ==> exists p: World ::
      && (forall a: Addr :: CodeOf(p, a) == CodeOf(w, a)) && p.refund == w.refund
      && (forall a: Addr :: Nonce(p, a) == Nonce(w, a) + if a == m.from then 1 else 0)
      && Prepared(w, env, m) == ApplyAuths(p, env, if m.auths.Some? then m.auths.value else [])
  {
    DebitedFrame(w, env, m);
    var w1 := Debited(w, env, m);
    SameGuards(w, w1, env);
    if m.to.Some? {
      var p := SetNonce(w1, m.from, Nonce(w1, m.from) + 1);
      assert forall a: Addr :: CodeOf(p, a) == CodeOf(w, a);
      assert forall a: Addr :: Nonce(p, a) == Nonce(w, a) + if a == m.from then 1 else 0;
      assert p.refund == w.refund;
    }
  }
}
