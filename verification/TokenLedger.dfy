/**
 ERC-20 balances and allowances of every token at once, as the standard (EIP-20, "Specification")
 describes them and the repository's mock token implements them, plus one bag of state for all
 other contracts. Conservation of supply is proved here.
 */
module TokenLedger {
  import opened Bytes

  const MAX_UINT: nat := 0xffff_ffff_ffff_ffff_ffff_ffff_ffff_ffff_ffff_ffff_ffff_ffff_ffff_ffff_ffff_ffff

  type Address = nat

  datatype Ledger = Ledger(
    balances: map<Address, map<Address, nat>>,
    allowances: map<(Address, Address, Address), nat>,
    supply: map<Address, nat>,
    dex: map<int, int>)

  function Accounts(l: Ledger, token: Address): map<Address, nat> {
    if token in l.balances then l.balances[token] else map[]
  }

  function Bal(l: Ledger, token: Address, who: Address): nat {
    if who in Accounts(l, token) then Accounts(l, token)[who] else 0
  }

  function Allowed(l: Ledger, token: Address, holder: Address, spender: Address): nat {
    if (token, holder, spender) in l.allowances then l.allowances[(token, holder, spender)] else 0
  }

  function Supply(l: Ledger, token: Address): nat {
    if token in l.supply then l.supply[token] else 0
  }

  function SetBal(l: Ledger, token: Address, who: Address, n: nat): Ledger {
    l.(balances := l.balances[token := Accounts(l, token)[who := n]])
  }

  function Approve(l: Ledger, token: Address, holder: Address, spender: Address, n: nat): Ledger {
    l.(allowances := l.allowances[(token, holder, spender) := n])
  }

  function Transfer(l: Ledger, token: Address, from: Address, to: Address, n: nat): Option<Ledger> {
    if Bal(l, token, from) < n then None
    else
      var l1 := SetBal(l, token, from, Bal(l, token, from) - n);
      if Bal(l1, token, to) + n > MAX_UINT then None
      else Some(SetBal(l1, token, to, Bal(l1, token, to) + n))
  }

  /** With `unlimited`, an allowance of the largest word is not used up, as in the mock token. */
  function TransferFrom(
      l: Ledger, unlimited: bool, token: Address, spender: Address, from: Address, to: Address, n: nat)
    : Option<Ledger> {
    var allowed := Allowed(l, token, from, spender);
    if allowed < n then None
    else if unlimited && allowed == MAX_UINT then Transfer(l, token, from, to, n)
    else Transfer(Approve(l, token, from, spender, allowed - n), token, from, to, n)
  }

  function Mint(l: Ledger, token: Address, to: Address, n: nat): Option<Ledger> {
    if Supply(l, token) + n > MAX_UINT || Bal(l, token, to) + n > MAX_UINT then None
    else Some(SetBal(l, token, to, Bal(l, token, to) + n).(supply := l.supply[token := Supply(l, token) + n]))
  }

  // ---- what an operation does to one balance or allowance ----

  lemma SetBalEffect(l: Ledger, token: Address, who: Address, n: nat)
    ensures forall t: Address, a: Address :: Bal(SetBal(l, token, who, n), t, a) == if t == token && a == who then n
            else Bal(l, t, a)
    ensures forall t: Address, h: Address, s: Address ::
            Allowed(SetBal(l, token, who, n), t, h, s) == Allowed(l, t, h, s)
    ensures forall t: Address :: Supply(SetBal(l, token, who, n), t) == Supply(l, t)
  {
  }

  lemma ApproveEffect(l: Ledger, token: Address, holder: Address, spender: Address, n: nat)
    ensures forall t: Address, a: Address :: Bal(Approve(l, token, holder, spender, n), t, a) == Bal(l, t, a)
    ensures forall t: Address, h: Address, s: Address ::
              Allowed(Approve(l, token, holder, spender, n), t, h, s)
              == if t == token && h == holder && s == spender then n else Allowed(l, t, h, s)
    ensures forall t: Address :: Supply(Approve(l, token, holder, spender, n), t) == Supply(l, t)
  {
  }

  lemma TransferEffect(l: Ledger, token: Address, from: Address, to: Address, n: nat)
    requires Transfer(l, token, from, to, n).Some?
    ensures var l' := Transfer(l, token, from, to, n).value;
            && (forall t: Address, a: Address :: t != token || (a != from && a != to) ==> Bal(l', t, a) == Bal(l, t, a))
            && (from != to ==>
                  Bal(l', token, from) == Bal(l, token, from) - n && Bal(l', token, to) == Bal(l, token, to) + n)
            && (from == to ==> Bal(l', token, from) == Bal(l, token, from))
            && (forall t: Address, h: Address, s: Address :: Allowed(l', t, h, s) == Allowed(l, t, h, s))
            && (forall t: Address :: Supply(l', t) == Supply(l, t))
  {
    hide Bal, SetBal, Allowed, Supply;
    var l1 := SetBal(l, token, from, Bal(l, token, from) - n);
    SetBalEffect(l, token, from, Bal(l, token, from) - n);
    SetBalEffect(l1, token, to, Bal(l1, token, to) + n);
  }

  lemma TransferFromEffect(
      l: Ledger, unlimited: bool, token: Address, spender: Address, from: Address, to: Address, n: nat)
    requires TransferFrom(l, unlimited, token, spender, from, to, n).Some?
    ensures var l' := TransferFrom(l, unlimited, token, spender, from, to, n).value;
            && n <= Allowed(l, token, from, spender)
            && (forall t: Address, a: Address :: t != token || (a != from && a != to) ==> Bal(l', t, a) == Bal(l, t, a))
            && (from != to ==>
                  Bal(l', token, from) == Bal(l, token, from) - n && Bal(l', token, to) == Bal(l, token, to) + n)
            && (from == to ==> Bal(l', token, from) == Bal(l, token, from))
            && (forall t: Address, h: Address, s: Address ::
                  !(t == token && h == from && s == spender) ==> Allowed(l', t, h, s) == Allowed(l, t, h, s))
            && Allowed(l', token, from, spender)
               == (if unlimited && Allowed(l, token, from, spender) == MAX_UINT then MAX_UINT
                   else Allowed(l, token, from, spender) - n)
            && (forall t: Address :: Supply(l', t) == Supply(l, t))
  {
    hide Bal, SetBal, Allowed, Supply, Transfer, Approve;
    var allowed := Allowed(l, token, from, spender);
    if unlimited && allowed == MAX_UINT {
      TransferEffect(l, token, from, to, n);
    } else {
      ApproveEffect(l, token, from, spender, allowed - n);
      TransferEffect(Approve(l, token, from, spender, allowed - n), token, from, to, n);
    }
  }

  lemma MintEffect(l: Ledger, token: Address, to: Address, n: nat)
    requires Mint(l, token, to, n).Some?
    ensures var l' := Mint(l, token, to, n).value;
            && (forall t: Address, a: Address :: Bal(l', t, a) == Bal(l, t, a) + if t == token && a == to then n else 0)
            && (forall t: Address, h: Address, s: Address :: Allowed(l', t, h, s) == Allowed(l, t, h, s))
  {
  }

  // ---- conservation ----

  ghost function Sum(m: map<Address, nat>): nat
    decreases |m|
  {
    if m == map[] then 0
    else
      var k :| k in m;
      m[k] + Sum(m - {k})
  }

  lemma {:induction false} SumWithout(m: map<Address, nat>, k: Address)
    requires k in m
    ensures Sum(m) == m[k] + Sum(m - {k})
    decreases |m|
  {
    var j :| j in m && Sum(m) == m[j] + Sum(m - {j});
    if j != k {
      SumWithout(m - {j}, k);
      SumWithout(m - {k}, j);
      assert m - {j} - {k} == m - {k} - {j};
    }
  }

  lemma SumUpdate(m: map<Address, nat>, k: Address, n: nat)
    ensures Sum(m[k := n]) == Sum(m) + n - (if k in m then m[k] else 0)
  {
    var m' := m[k := n];
    SumWithout(m', k);
    if k in m {
      SumWithout(m, k);
      assert m' - {k} == m - {k};
    } else {
      assert m' - {k} == m;
    }
  }

  lemma TwoBalances(l: Ledger, token: Address, a: Address, b: Address)
    requires a != b
    ensures Bal(l, token, a) + Bal(l, token, b) <= Sum(Accounts(l, token))
  {
    var m := Accounts(l, token);
    if a in m {
      SumWithout(m, a);
      if b in m {
        SumWithout(m - {a}, b);
      }
    } else if b in m {
      SumWithout(m, b);
    }
  }

  /** No token has more in its accounts than was issued, and the issue fits a word. */
  ghost predicate Conserved(l: Ledger) {
    forall t :: Total(l, t) <= Supply(l, t) <= MAX_UINT
  }

  /** What all accounts of a token hold together. */
  ghost function Total(l: Ledger, token: Address): nat {
    Sum(Accounts(l, token))
  }

  lemma SumAfterSet(l: Ledger, token: Address, who: Address, n: nat)
    ensures Sum(Accounts(SetBal(l, token, who, n), token)) == Sum(Accounts(l, token)) + n - Bal(l, token, who)
    ensures forall t :: t != token ==> Accounts(SetBal(l, token, who, n), t) == Accounts(l, t)
  {
    SumUpdate(Accounts(l, token), who, n);
  }

  lemma TransferConserves(l: Ledger, token: Address, from: Address, to: Address, n: nat)
    requires Conserved(l) && Transfer(l, token, from, to, n).Some?
    ensures Conserved(Transfer(l, token, from, to, n).value)
    ensures forall t: Address :: Total(Transfer(l, token, from, to, n).value, t) == Total(l, t)
  {
    hide Bal, SetBal, Accounts, Supply;
    var l1 := SetBal(l, token, from, Bal(l, token, from) - n);
    TransferEffect(l, token, from, to, n);
    SumAfterSet(l, token, from, Bal(l, token, from) - n);
    SumAfterSet(l1, token, to, Bal(l1, token, to) + n);
    var l2 := Transfer(l, token, from, to, n).value;
    forall t
      ensures Total(l2, t) == Total(l, t) && Total(l2, t) <= Supply(l2, t) <= MAX_UINT
    {
      assert t != token ==> Accounts(l2, t) == Accounts(l, t);
      assert Total(l, t) <= Supply(l, t);
    }
  }

  lemma ApproveConserves(l: Ledger, token: Address, holder: Address, spender: Address, n: nat)
    requires Conserved(l)
    ensures Conserved(Approve(l, token, holder, spender, n))
    ensures forall t: Address :: Total(Approve(l, token, holder, spender, n), t) == Total(l, t)
  {
    var l' := Approve(l, token, holder, spender, n);
    forall t
      ensures Total(l', t) == Total(l, t) && Total(l', t) <= Supply(l', t) <= MAX_UINT
    {
      assert Accounts(l', t) == Accounts(l, t) && Supply(l', t) == Supply(l, t);
    }
  }

  lemma TransferFromConserves(
      l: Ledger, unlimited: bool, token: Address, spender: Address, from: Address, to: Address, n: nat)
    requires Conserved(l) && TransferFrom(l, unlimited, token, spender, from, to, n).Some?
    ensures Conserved(TransferFrom(l, unlimited, token, spender, from, to, n).value)
    ensures forall t: Address :: Total(TransferFrom(l, unlimited, token, spender, from, to, n).value, t) == Total(l, t)
  {
    hide Bal, SetBal, Allowed, Supply, Transfer, Approve, Conserved, Total;
    var allowed := Allowed(l, token, from, spender);
    if unlimited && allowed == MAX_UINT {
      TransferConserves(l, token, from, to, n);
    } else {
      ApproveConserves(l, token, from, spender, allowed - n);
      TransferConserves(Approve(l, token, from, spender, allowed - n), token, from, to, n);
    }
  }

  lemma MintConserves(l: Ledger, token: Address, to: Address, n: nat)
    requires Conserved(l) && Mint(l, token, to, n).Some?
    ensures Conserved(Mint(l, token, to, n).value)
    ensures forall t: Address ::
              && Total(Mint(l, token, to, n).value, t) == Total(l, t) + (if t == token then n else 0)
              && Supply(Mint(l, token, to, n).value, t) == Supply(l, t) + (if t == token then n else 0)
  {
    var l' := Mint(l, token, to, n).value;
    SumAfterSet(l, token, to, Bal(l, token, to) + n);
    forall t
      ensures Total(l', t) == Total(l, t) + (if t == token then n else 0)
      ensures Total(l', t) <= Supply(l', t) <= MAX_UINT
    {
      assert Total(l, t) <= Supply(l, t);
      assert Accounts(l', t) == Accounts(SetBal(l, token, to, Bal(l, token, to) + n), t);
    }
  }

  /** Under conservation every balance fits a word. */
  lemma BalanceFitsWord(l: Ledger, token: Address, who: Address)
    requires Conserved(l)
    ensures Bal(l, token, who) <= MAX_UINT
  {
    hide Bal, Sum, Supply;
    TwoBalances(l, token, who, who + 1);
    assert Total(l, token) <= Supply(l, token) <= MAX_UINT;
  }

  /** On any ledger: what is refused is exactly too little to give, too little allowed, or an overflow. */
  lemma RefusesExactly(
      l: Ledger, unlimited: bool, token: Address, spender: Address, from: Address, to: Address, n: nat)
    ensures Transfer(l, token, from, to, n).None?
            <==> || Bal(l, token, from) < n
                 || (if from == to then Bal(l, token, to) else Bal(l, token, to) + n) > MAX_UINT
    ensures TransferFrom(l, unlimited, token, spender, from, to, n).None?
            <==> Allowed(l, token, from, spender) < n || Transfer(l, token, from, to, n).None?
    ensures Mint(l, token, to, n).None? <==> Supply(l, token) + n > MAX_UINT || Bal(l, token, to) + n > MAX_UINT
  {
    TransferRefuses(l, token, from, to, n);
    if Allowed(l, token, from, spender) >= n {
      var l' := Approve(l, token, from, spender, Allowed(l, token, from, spender) - n);
      assert forall a: Address :: Bal(l', token, a) == Bal(l, token, a);
      TransferRefuses(l', token, from, to, n);
      hide Transfer, Bal, Approve;
    }
  }

  lemma TransferRefuses(l: Ledger, token: Address, from: Address, to: Address, n: nat)
    ensures Transfer(l, token, from, to, n).None?
            <==> || Bal(l, token, from) < n
                 || (if from == to then Bal(l, token, to) else Bal(l, token, to) + n) > MAX_UINT
  {
    if Bal(l, token, from) >= n {
      SetBalEffect(l, token, from, Bal(l, token, from) - n);
      hide SetBal, Bal;
    }
  }

  /** Under conservation a transfer fails for one reason only: the sender has too little. */
  lemma TransferSucceeds(l: Ledger, token: Address, from: Address, to: Address, n: nat)
    requires Conserved(l)
    ensures Transfer(l, token, from, to, n).Some? <==> n <= Bal(l, token, from)
  {
    assert Total(l, token) <= Supply(l, token) <= MAX_UINT;
    if from != to {
      TwoBalances(l, token, from, to);
    } else {
      TwoBalances(l, token, from, from + 1);
    }
  }

  /** Under conservation a pull fails for two reasons only: too little allowance, or too little balance. */
  lemma TransferFromSucceeds(
      l: Ledger, unlimited: bool, token: Address, spender: Address, from: Address, to: Address, n: nat)
    requires Conserved(l)
    ensures TransferFrom(l, unlimited, token, spender, from, to, n).Some?
            <==> n <= Allowed(l, token, from, spender) && n <= Bal(l, token, from)
  {
    hide Bal, Conserved, Transfer, Approve, Allowed, Supply;
    var allowed := Allowed(l, token, from, spender);
    TransferSucceeds(l, token, from, to, n);
    if n <= allowed {
      ApproveConserves(l, token, from, spender, allowed - n);
      ApproveEffect(l, token, from, spender, allowed - n);
      TransferSucceeds(Approve(l, token, from, spender, allowed - n), token, from, to, n);
    }
  }
}
