/** Net balances and the creditor/debtor sweep that turns them into a list
    of transfers. Both settlement variants (app/domain.py:94-115 and
    app/domain/settlement.py:78-118) run the same two-pointer loop; they
    differ only in how the two lists are ordered and in what happens when
    something is left over. The loop is defined once here, as a recursive
    reference function that the two loop methods are proved against.
    Entries and transfers are generic in the type `N` of player names. */
module Ledger {
  import opened Seqs
  import opened Text

  /** A `(name, amount)` pair of the creditor or debtor lists. */
  datatype Entry<N> = Entry(name: N, amount: int)

  /** One `{"from": ..., "to": ..., "amount...": ...}` transfer record. */
  datatype Transfer<N> = Transfer(from: N, to: N, amount: int)

  /** A `dict[str, int]` of nets: `keys` records insertion order. */
  datatype Net = Net(keys: seq<string>, amounts: map<string, int>)

  predicate WellFormed(n: Net) {
    Distinct(n.keys) &&
    (forall i :: 0 <= i < |n.keys| ==> n.keys[i] in n.amounts) &&
    (forall p :: p in n.amounts ==> p in n.keys)
  }

  /** The net of `p`, 0 for a name that is not a key. */
  function Get(n: Net, p: string): int {
    if p in n.amounts then n.amounts[p] else 0
  }

  /** `net.items()` in insertion order. */
  function Items(n: Net): (r: seq<Entry<string>>)
    requires WellFormed(n)
    ensures |r| == |n.keys|
    ensures forall i :: 0 <= i < |r| ==> r[i] == Entry(n.keys[i], n.amounts[n.keys[i]])
  {
    seq(|n.keys|, i requires 0 <= i < |n.keys| => Entry(n.keys[i], n.amounts[n.keys[i]]))
  }

  /** `sum(net.values())`. */
  function Balance(n: Net): int
    requires WellFormed(n)
  {
    Sum(Items(n))
  }

  function Names<N>(es: seq<Entry<N>>): (r: seq<N>)
    ensures |r| == |es| && forall i :: 0 <= i < |es| ==> r[i] == es[i].name
  {
    if es == [] then [] else [es[0].name] + Names(es[1..])
  }

  /** Sum of the amounts. */
  function Sum<N>(es: seq<Entry<N>>): int {
    if es == [] then 0 else es[0].amount + Sum(es[1..])
  }

  /** Sum of the amounts of the entries named `p`. */
  function AmountIn<N(==)>(es: seq<Entry<N>>, p: N): int {
    if es == [] then 0 else (if es[0].name == p then es[0].amount else 0) + AmountIn(es[1..], p)
  }

  /** The balance of a net is the sum of its values over its keys. */
  lemma BalanceSumOf(n: Net)
    requires WellFormed(n)
    ensures Balance(n) == SumOf(n.keys, q => Get(n, q))
  {
    var items := Items(n);
    for k := 0 to |n.keys|
      invariant Sum(items[..k]) == SumOf(n.keys[..k], q => Get(n, q))
    {
      assert items[..k + 1] == items[..k] + [items[k]];
      SumAppend(items[..k], [items[k]]);
      assert n.keys[..k + 1][..k] == n.keys[..k];
    }
    assert items[..|n.keys|] == items;
    assert n.keys[..|n.keys|] == n.keys;
  }

  predicate Positive<N>(es: seq<Entry<N>>) {
    forall i :: 0 <= i < |es| ==> es[i].amount > 0
  }

  /** `[(name, amount) for name, amount in net.items() if amount > 0]`. */
  function Creditors<N>(items: seq<Entry<N>>): (r: seq<Entry<N>>)
    ensures Positive(r) && |r| <= |items|
  {
    if items == [] then []
    else (if items[0].amount > 0 then [items[0]] else []) + Creditors(items[1..])
  }

  /** `[(name, -amount) for name, amount in net.items() if amount < 0]`. */
  function Debtors<N>(items: seq<Entry<N>>): (r: seq<Entry<N>>)
    ensures Positive(r) && |r| <= |items|
  {
    if items == [] then []
    else (if items[0].amount < 0 then [Entry(items[0].name, -items[0].amount)] else []) + Debtors(items[1..])
  }

  lemma {:induction false} SumAppend<N>(a: seq<Entry<N>>, b: seq<Entry<N>>)
    ensures Sum(a + b) == Sum(a) + Sum(b)
  {
    if a != [] {
      assert (a + b)[1..] == a[1..] + b;
      SumAppend(a[1..], b);
    } else {
      assert a + b == b;
    }
  }

  lemma {:induction false} AmountInAppend<N>(a: seq<Entry<N>>, b: seq<Entry<N>>, p: N)
    ensures AmountIn(a + b, p) == AmountIn(a, p) + AmountIn(b, p)
  {
    if a != [] {
      assert (a + b)[1..] == a[1..] + b;
      AmountInAppend(a[1..], b, p);
    } else {
      assert a + b == b;
    }
  }

  lemma {:induction false} NamesAppend<N>(a: seq<Entry<N>>, b: seq<Entry<N>>)
    ensures Names(a + b) == Names(a) + Names(b)
  {
    if a != [] {
      assert (a + b)[1..] == a[1..] + b;
      NamesAppend(a[1..], b);
    } else {
      assert a + b == b;
    }
  }

  /** Credits minus debts is the sum of the nets. */
  lemma {:induction false} SumCreditorsDebtors<N>(items: seq<Entry<N>>)
    ensures Sum(Creditors(items)) - Sum(Debtors(items)) == Sum(items)
  {
    if items != [] {
      SumCreditorsDebtors(items[1..]);
      var e := items[0];
      SumAppend(if e.amount > 0 then [e] else [], Creditors(items[1..]));
      SumAppend(if e.amount < 0 then [Entry(e.name, -e.amount)] else [], Debtors(items[1..]));
    }
  }

  /** No entry named `p`, no amount for `p`. */
  lemma {:induction false} AmountInAbsent<N>(es: seq<Entry<N>>, p: N)
    requires p !in Names(es)
    ensures AmountIn(es, p) == 0
  {
    if es != [] {
      assert Names(es[1..]) == Names(es)[1..];
      AmountInAbsent(es[1..], p);
    }
  }

  /** In a list of distinct names the amount of a name is that of its entry. */
  lemma {:induction false} AmountInSingle<N>(es: seq<Entry<N>>, i: nat)
    requires Distinct(Names(es)) && i < |es|
    ensures AmountIn(es, es[i].name) == es[i].amount
  {
    assert Names(es[1..]) == Names(es)[1..];
    if i == 0 {
      assert es[0].name !in Names(es[1..]);
      AmountInAbsent(es[1..], es[0].name);
    } else {
      AmountInSingle(es[1..], i - 1);
    }
  }

  /** The amount of a name in the items of a well-formed net is its net. */
  lemma AmountInItems(n: Net, p: string)
    requires WellFormed(n)
    ensures Names(Items(n)) == n.keys
    ensures AmountIn(Items(n), p) == Get(n, p)
  {
    assert Names(Items(n)) == n.keys;
    if p in n.keys {
      AmountInSingle(Items(n), IndexOf(n.keys, p));
    } else {
      AmountInAbsent(Items(n), p);
    }
  }

  /** The creditor list only names names of the items. */
  lemma {:induction false} CreditorNamesIn<N>(items: seq<Entry<N>>, p: N)
    requires p in Names(Creditors(items))
    ensures p in Names(items)
  {
    var e, tail := items[0], items[1..];
    NamesAppend(if e.amount > 0 then [e] else [], Creditors(tail));
    assert Names(items) == [e.name] + Names(tail);
    if p != e.name {
      CreditorNamesIn(tail, p);
    }
  }

  /** The debtor list only names names of the items. */
  lemma {:induction false} DebtorNamesIn<N>(items: seq<Entry<N>>, p: N)
    requires p in Names(Debtors(items))
    ensures p in Names(items)
  {
    var e, tail := items[0], items[1..];
    NamesAppend(if e.amount < 0 then [Entry(e.name, -e.amount)] else [], Debtors(tail));
    assert Names(items) == [e.name] + Names(tail);
    if p != e.name {
      DebtorNamesIn(tail, p);
    }
  }

  /** A name listed with positive amounts has a positive total. */
  lemma {:induction false} ListedPositive<N>(es: seq<Entry<N>>, p: N)
    requires Positive(es) && p in Names(es)
    ensures AmountIn(es, p) > 0
  {
    assert Names(es) == [es[0].name] + Names(es[1..]);
    if p in Names(es[1..]) {
      ListedPositive(es[1..], p);
    } else {
      AmountInAbsent(es[1..], p);
    }
  }

  /** With distinct names, the credit of `p` is its net if that is positive. */
  lemma {:induction false} AmountInCreditors<N>(items: seq<Entry<N>>, p: N)
    requires Distinct(Names(items))
    ensures AmountIn(Creditors(items), p) == (if AmountIn(items, p) > 0 then AmountIn(items, p) else 0)
  {
    if items != [] {
      var e, tail := items[0], items[1..];
      assert Names(tail) == Names(items)[1..];
      AmountInCreditors(tail, p);
      AmountInAppend(if e.amount > 0 then [e] else [], Creditors(tail), p);
      if e.name == p {
        assert p !in Names(tail);
        AmountInAbsent(tail, p);
      }
    }
  }

  /** With distinct names, the debt of `p` is its negated net if that is
      negative. */
  lemma {:induction false} AmountInDebtors<N>(items: seq<Entry<N>>, p: N)
    requires Distinct(Names(items))
    ensures AmountIn(Debtors(items), p) == (if AmountIn(items, p) < 0 then -AmountIn(items, p) else 0)
  {
    if items != [] {
      var e, tail := items[0], items[1..];
      assert Names(tail) == Names(items)[1..];
      AmountInDebtors(tail, p);
      AmountInAppend(if e.amount < 0 then [Entry(e.name, -e.amount)] else [], Debtors(tail), p);
      if e.name == p {
        assert p !in Names(tail);
        AmountInAbsent(tail, p);
      }
    }
  }

  /** Filtering keeps the names without repeats. */
  lemma {:induction false} CreditorsDistinct<N>(items: seq<Entry<N>>)
    requires Distinct(Names(items))
    ensures Distinct(Names(Creditors(items)))
  {
    if items != [] {
      var e, tail := items[0], items[1..];
      assert Names(tail) == Names(items)[1..];
      CreditorsDistinct(tail);
      NamesAppend(if e.amount > 0 then [e] else [], Creditors(tail));
      assert e.name !in Names(Creditors(tail)) by {
        if e.name in Names(Creditors(tail)) {
          CreditorNamesIn(tail, e.name);
          assert false;
        }
      }
    }
  }

  lemma {:induction false} DebtorsDistinct<N>(items: seq<Entry<N>>)
    requires Distinct(Names(items))
    ensures Distinct(Names(Debtors(items)))
  {
    if items != [] {
      var e, tail := items[0], items[1..];
      assert Names(tail) == Names(items)[1..];
      DebtorsDistinct(tail);
      NamesAppend(if e.amount < 0 then [Entry(e.name, -e.amount)] else [], Debtors(tail));
      assert e.name !in Names(Debtors(tail)) by {
        if e.name in Names(Debtors(tail)) {
          DebtorNamesIn(tail, e.name);
          assert false;
        }
      }
    }
  }

  /** `min(a, b)` as the source writes it (`b if b <= a else a` in one
      variant, `min(a, b)` in the other). */
  function Min(a: int, b: int): (r: int)
    ensures r <= a && r <= b && (r == a || r == b)
  {
    if a <= b then a else b
  }

  /** The list after its head has paid or received `amount`: the head is
      dropped when it reaches zero, and otherwise overwritten in place. */
  function Reduce<N>(es: seq<Entry<N>>, amount: int): (r: seq<Entry<N>>)
    requires es != [] && Positive(es) && 0 < amount <= es[0].amount
    ensures Positive(r)
    ensures |r| == if es[0].amount == amount then |es| - 1 else |es|
  {
    if es[0].amount == amount then es[1..] else [Entry(es[0].name, es[0].amount - amount)] + es[1..]
  }

  /** Reducing the head keeps the names, or drops the first, and lowers the
      sum by the amount paid. */
  lemma ReduceNamesSum<N>(es: seq<Entry<N>>, amount: int)
    requires es != [] && Positive(es) && 0 < amount <= es[0].amount
    ensures Names(Reduce(es, amount)) == if es[0].amount == amount then Names(es)[1..] else Names(es)
    ensures Sum(Reduce(es, amount)) == Sum(es) - amount
  {
    assert Names(es) == [es[0].name] + Names(es[1..]);
    if es[0].amount != amount {
      assert Reduce(es, amount)[1..] == es[1..];
    }
  }

  lemma ReduceAmountIn<N>(es: seq<Entry<N>>, amount: int, p: N)
    requires es != [] && Positive(es) && 0 < amount <= es[0].amount
    ensures AmountIn(Reduce(es, amount), p) == AmountIn(es, p) - (if es[0].name == p then amount else 0)
  {
    if es[0].amount != amount {
      assert Reduce(es, amount)[1..] == es[1..];
    }
  }

  /** The source overwrites the head entry in place and advances its index
      when the entry reaches zero; the entries from the new index on are the
      reduced list. */
  lemma ReduceInPlace<N>(es: seq<Entry<N>>, i: nat, amount: int)
    requires i < |es| && Positive(es[i..]) && 0 < amount <= es[i].amount
    ensures var es1 := es[i := Entry(es[i].name, es[i].amount - amount)];
            var i1 := if es[i].amount == amount then i + 1 else i;
            i1 <= |es1| && es1[i1..] == Reduce(es[i..], amount)
  {
    var es1 := es[i := Entry(es[i].name, es[i].amount - amount)];
    assert es[i..][1..] == es[i + 1..];
    if es[i].amount != amount {
      assert es1[i..] == [es1[i]] + es[i + 1..];
    }
  }

  /** The sweep over the in-place state of the loop: lists `cs` and `ds`
      read from indices `ci` and `di` on. Each step overwrites the two head
      entries with what is left of them and moves past a head that reached
      zero. */
  ghost function SweepAt<N>(cs: seq<Entry<N>>, ds: seq<Entry<N>>, ci: nat, di: nat): Plan<N>
    requires ci <= |cs| && di <= |ds|
    decreases |cs| - ci + |ds| - di
  {
    if ci == |cs| || di == |ds| then Plan([], cs[ci..], ds[di..])
    else
      var amount := Min(cs[ci].amount, ds[di].amount);
      var cs1, ds1 := cs[ci := Entry(cs[ci].name, cs[ci].amount - amount)],
                      ds[di := Entry(ds[di].name, ds[di].amount - amount)];
      var ci1, di1 := if cs[ci].amount - amount == 0 then ci + 1 else ci,
                      if ds[di].amount - amount == 0 then di + 1 else di;
      var rest := SweepAt(cs1, ds1, ci1, di1);
      Plan([Transfer(ds[di].name, cs[ci].name, amount)] + rest.transfers, rest.creditorsLeft, rest.debtorsLeft)
  }

  /** On positive entries the in-place sweep is the reference sweep of the
      unread parts of the lists. */
  lemma {:induction false} SweepAtIsSweep<N>(cs: seq<Entry<N>>, ds: seq<Entry<N>>, ci: nat, di: nat)
    requires ci <= |cs| && di <= |ds| && Positive(cs[ci..]) && Positive(ds[di..])
    ensures SweepAt(cs, ds, ci, di) == Sweep(cs[ci..], ds[di..])
    decreases |cs| - ci + |ds| - di
  {
    if ci < |cs| && di < |ds| {
      var c0, d0 := cs[ci..], ds[di..];
      var step := Min(c0[0].amount, d0[0].amount);
      var t := Transfer(d0[0].name, c0[0].name, step);
      SweepStep(c0, d0, step, Reduce(c0, step), Reduce(d0, step));
      var next := Sweep(Reduce(c0, step), Reduce(d0, step));
      assert Sweep(c0, d0) == Plan([t] + next.transfers, next.creditorsLeft, next.debtorsLeft);
      ReduceInPlace(cs, ci, step);
      ReduceInPlace(ds, di, step);
      var cs1, ds1 := cs[ci := Entry(cs[ci].name, cs[ci].amount - step)],
                      ds[di := Entry(ds[di].name, ds[di].amount - step)];
      var ci1, di1 := if cs[ci].amount - step == 0 then ci + 1 else ci,
                      if ds[di].amount - step == 0 then di + 1 else di;
      SweepAtStep(cs, ds, ci, di, step, cs[ci].amount - step, ds[di].amount - step, cs1, ds1, ci1, di1);
      var rest := SweepAt(cs1, ds1, ci1, di1);
      assert SweepAt(cs, ds, ci, di) == Plan([t] + rest.transfers, rest.creditorsLeft, rest.debtorsLeft);
      SweepAtIsSweep(cs1, ds1, ci1, di1);
      assert rest == next;
    }
  }


  /** One step of the in-place sweep, over the state before and after it:
      the heads pay `amount` and are left with `cLeft` and `dLeft`. */
  lemma SweepAtStep<N>(cs: seq<Entry<N>>, ds: seq<Entry<N>>, ci: nat, di: nat, amount: int, cLeft: int, dLeft: int,
                       cs1: seq<Entry<N>>, ds1: seq<Entry<N>>, ci1: nat, di1: nat)
    requires ci < |cs| && di < |ds| && amount == Min(cs[ci].amount, ds[di].amount)
    requires cLeft == cs[ci].amount - amount && dLeft == ds[di].amount - amount
    requires cs1 == cs[ci := Entry(cs[ci].name, cLeft)] && ds1 == ds[di := Entry(ds[di].name, dLeft)]
    requires ci1 == (if cLeft == 0 then ci + 1 else ci) && di1 == (if dLeft == 0 then di + 1 else di)
    ensures ci1 <= |cs1| && di1 <= |ds1|
    ensures var r, rest := SweepAt(cs, ds, ci, di), SweepAt(cs1, ds1, ci1, di1);
            r.transfers == [Transfer(ds[di].name, cs[ci].name, amount)] + rest.transfers &&
            r.creditorsLeft == rest.creditorsLeft && r.debtorsLeft == rest.debtorsLeft
  {
  }

  /** The two-pointer loop both settlement variants run, overwriting the
      head entries of its two lists in place (app/domain.py:98-113,
      app/domain/settlement.py:97-113). It reports whether each list was
      used up. */
  method SweepLoop<N>(creditors0: seq<Entry<N>>, debtors0: seq<Entry<N>>)
    returns (transfers: seq<Transfer<N>>, creditorsDone: bool, debtorsDone: bool)
    requires Positive(creditors0) && Positive(debtors0)
    ensures transfers == Sweep(creditors0, debtors0).transfers
    ensures creditorsDone <==> Sweep(creditors0, debtors0).creditorsLeft == []
    ensures debtorsDone <==> Sweep(creditors0, debtors0).debtorsLeft == []
  {
    var creditors, debtors := creditors0, debtors0;
    assert creditors[0..] == creditors && debtors[0..] == debtors;
    SweepAtIsSweep(creditors, debtors, 0, 0);
    ghost var r := Sweep(creditors0, debtors0);
    transfers := [];
    var cIdx, dIdx := 0, 0;
    while cIdx < |creditors| && dIdx < |debtors|
      invariant cIdx <= |creditors| && dIdx <= |debtors|
      invariant var rest := SweepAt(creditors, debtors, cIdx, dIdx);
                r == Plan(transfers + rest.transfers, rest.creditorsLeft, rest.debtorsLeft)
      decreases |creditors| - cIdx + |debtors| - dIdx
    {
      ghost var cs, ds, ci, di, done := creditors, debtors, cIdx, dIdx, transfers;
      var cName, cAmount := creditors[cIdx].name, creditors[cIdx].amount;
      var dName, dAmount := debtors[dIdx].name, debtors[dIdx].amount;
      var amount := Min(cAmount, dAmount);
      transfers := transfers + [Transfer(dName, cName, amount)];
      cAmount := cAmount - amount;
      dAmount := dAmount - amount;
      creditors := creditors[cIdx := Entry(cName, cAmount)];
      debtors := debtors[dIdx := Entry(dName, dAmount)];
      if cAmount == 0 { cIdx := cIdx + 1; }
      if dAmount == 0 { dIdx := dIdx + 1; }
      SweepAtStep(cs, ds, ci, di, amount, cAmount, dAmount, creditors, debtors, cIdx, dIdx);
      AppendAssoc(done, [Transfer(dName, cName, amount)], SweepAt(creditors, debtors, cIdx, dIdx).transfers);
    }
    creditorsDone := cIdx == |creditors|;
    debtorsDone := dIdx == |debtors|;
  }

  /** Where the sweep ends: the transfers it emitted and what is left of
      each list when one of them runs out. */
  datatype Plan<N> = Plan(transfers: seq<Transfer<N>>, creditorsLeft: seq<Entry<N>>, debtorsLeft: seq<Entry<N>>)

  /** The two-pointer sweep: the head debtor pays the head creditor the
      smaller of the two amounts, and whichever reaches zero is dropped.
      Every transfer is positive, and one list is used up at the end. */
  function Sweep<N>(cs: seq<Entry<N>>, ds: seq<Entry<N>>): (r: Plan<N>)
    requires Positive(cs) && Positive(ds)
    ensures r.creditorsLeft == [] || r.debtorsLeft == []
    ensures Positive(r.creditorsLeft) && Positive(r.debtorsLeft)
    ensures forall i :: 0 <= i < |r.transfers| ==> r.transfers[i].amount > 0
  {
    var left := SweepLeft(cs, ds);
    Plan(SweepTransfers(cs, ds), left.0, left.1)
  }

  /** The transfers the sweep emits, in order. */
  function SweepTransfers<N>(cs: seq<Entry<N>>, ds: seq<Entry<N>>): (r: seq<Transfer<N>>)
    requires Positive(cs) && Positive(ds)
    ensures forall i :: 0 <= i < |r| ==> r[i].amount > 0
    decreases |cs| + |ds|
  {
    if cs == [] || ds == [] then []
    else
      var amount := Min(cs[0].amount, ds[0].amount);
      [Transfer(ds[0].name, cs[0].name, amount)] + SweepTransfers(Reduce(cs, amount), Reduce(ds, amount))
  }

  /** What is left of the two lists when the sweep stops. */
  function SweepLeft<N>(cs: seq<Entry<N>>, ds: seq<Entry<N>>): (r: (seq<Entry<N>>, seq<Entry<N>>))
    requires Positive(cs) && Positive(ds)
    ensures r.0 == [] || r.1 == []
    ensures Positive(r.0) && Positive(r.1)
    decreases |cs| + |ds|
  {
    if cs == [] || ds == [] then (cs, ds)
    else
      var amount := Min(cs[0].amount, ds[0].amount);
      SweepLeft(Reduce(cs, amount), Reduce(ds, amount))
  }

  /** A sweep over non-empty lists emits fewer transfers than there are
      entries: each transfer but the last uses up at least one entry. */
  lemma {:induction false} SweepLength<N>(cs: seq<Entry<N>>, ds: seq<Entry<N>>)
    requires Positive(cs) && Positive(ds)
    ensures |Sweep(cs, ds).transfers| <= if cs == [] || ds == [] then 0 else |cs| + |ds| - 1
    decreases |cs| + |ds|
  {
    if cs != [] && ds != [] {
      var amount := Min(cs[0].amount, ds[0].amount);
      var cs1, ds1 := Reduce(cs, amount), Reduce(ds, amount);
      SweepStep(cs, ds, amount, cs1, ds1);
      SweepLength(cs1, ds1);
    }
  }

  /** One step of the sweep, unfolded: the first transfer, the two lists it
      leaves, and the rest of the sweep over them. */
  lemma SweepStep<N>(cs: seq<Entry<N>>, ds: seq<Entry<N>>, amount: int, cs1: seq<Entry<N>>, ds1: seq<Entry<N>>)
    requires Positive(cs) && Positive(ds) && cs != [] && ds != []
    requires amount == Min(cs[0].amount, ds[0].amount)
    requires cs1 == Reduce(cs, amount) && ds1 == Reduce(ds, amount)
    ensures amount > 0
    ensures Positive(cs1) && Positive(ds1) && |cs1| + |ds1| < |cs| + |ds|
    ensures Names(cs1) == Names(cs) || Names(cs1) == Names(cs)[1..]
    ensures Names(ds1) == Names(ds) || Names(ds1) == Names(ds)[1..]
    ensures Sum(cs1) == Sum(cs) - amount && Sum(ds1) == Sum(ds) - amount
    ensures var r, rest := Sweep(cs, ds), Sweep(cs1, ds1);
            r.transfers == [Transfer(ds[0].name, cs[0].name, amount)] + rest.transfers &&
            r.creditorsLeft == rest.creditorsLeft && r.debtorsLeft == rest.debtorsLeft
  {
    ReduceNamesSum(cs, amount);
    ReduceNamesSum(ds, amount);
  }

  /** The payee and the payer of every transfer are listed: a name that is
      not listed has no credit, so by conservation it can receive nothing,
      and likewise for debts. */
  lemma SweepListed<N>(cs: seq<Entry<N>>, ds: seq<Entry<N>>, i: nat)
    requires Positive(cs) && Positive(ds) && i < |Sweep(cs, ds).transfers|
    ensures Sweep(cs, ds).transfers[i].to in Names(cs)
    ensures Sweep(cs, ds).transfers[i].from in Names(ds)
  {
    var r := Sweep(cs, ds);
    var t := r.transfers[i];
    if t.to !in Names(cs) {
      SweepConserves(cs, ds, t.to);
      AmountInAbsent(cs, t.to);
      AmountInNonNegative(r.creditorsLeft, t.to);
      ReceivedAt(r.transfers, i);
    }
    if t.from !in Names(ds) {
      SweepConserves(cs, ds, t.from);
      AmountInAbsent(ds, t.from);
      AmountInNonNegative(r.debtorsLeft, t.from);
      PaidAt(r.transfers, i);
    }
  }

  lemma {:induction false} AmountInNonNegative<N>(es: seq<Entry<N>>, p: N)
    requires Positive(es)
    ensures AmountIn(es, p) >= 0
  {
    if es != [] {
      AmountInNonNegative(es[1..], p);
    }
  }

  /** Received by `p`. */
  function Received<N(==)>(ts: seq<Transfer<N>>, p: N): int {
    if ts == [] then 0 else (if ts[0].to == p then ts[0].amount else 0) + Received(ts[1..], p)
  }

  /** Paid by `p`. */
  function Paid<N(==)>(ts: seq<Transfer<N>>, p: N): int {
    if ts == [] then 0 else (if ts[0].from == p then ts[0].amount else 0) + Paid(ts[1..], p)
  }

  /** Total amount transferred. */
  function Volume<N>(ts: seq<Transfer<N>>): int {
    if ts == [] then 0 else ts[0].amount + Volume(ts[1..])
  }

  /** Over positive transfers, a payee receives at least each amount sent
      to it. */
  lemma {:induction false} ReceivedAt<N>(ts: seq<Transfer<N>>, i: nat)
    requires i < |ts| && forall j :: 0 <= j < |ts| ==> ts[j].amount > 0
    ensures Received(ts, ts[i].to) >= ts[i].amount
  {
    ReceivedNonNegative(ts[1..], ts[i].to);
    if i > 0 {
      ReceivedAt(ts[1..], i - 1);
    }
  }

  lemma {:induction false} ReceivedNonNegative<N>(ts: seq<Transfer<N>>, p: N)
    requires forall j :: 0 <= j < |ts| ==> ts[j].amount > 0
    ensures Received(ts, p) >= 0
  {
    if ts != [] {
      ReceivedNonNegative(ts[1..], p);
    }
  }

  /** Over positive transfers, a payer pays at least each amount it sends. */
  lemma {:induction false} PaidAt<N>(ts: seq<Transfer<N>>, i: nat)
    requires i < |ts| && forall j :: 0 <= j < |ts| ==> ts[j].amount > 0
    ensures Paid(ts, ts[i].from) >= ts[i].amount
  {
    PaidNonNegative(ts[1..], ts[i].from);
    if i > 0 {
      PaidAt(ts[1..], i - 1);
    }
  }

  lemma {:induction false} PaidNonNegative<N>(ts: seq<Transfer<N>>, p: N)
    requires forall j :: 0 <= j < |ts| ==> ts[j].amount > 0
    ensures Paid(ts, p) >= 0
  {
    if ts != [] {
      PaidNonNegative(ts[1..], p);
    }
  }

  /** The sweep moves value and never creates it: what each creditor
      receives plus what it is still owed is its credit, and what each debtor
      pays plus what it still owes is its debt. */
  lemma {:induction false} SweepConserves<N>(cs: seq<Entry<N>>, ds: seq<Entry<N>>, p: N)
    requires Positive(cs) && Positive(ds)
    ensures var r := Sweep(cs, ds);
            Received(r.transfers, p) + AmountIn(r.creditorsLeft, p) == AmountIn(cs, p) &&
            Paid(r.transfers, p) + AmountIn(r.debtorsLeft, p) == AmountIn(ds, p)
    decreases |cs| + |ds|
  {
    if cs != [] && ds != [] {
      var amount := Min(cs[0].amount, ds[0].amount);
      var cs1, ds1 := Reduce(cs, amount), Reduce(ds, amount);
      SweepStep(cs, ds, amount, cs1, ds1);
      SweepConserves(cs1, ds1, p);
      ReduceAmountIn(cs, amount, p);
      ReduceAmountIn(ds, amount, p);
    }
  }

  /** The total transferred plus either remainder is that list's total. */
  lemma {:induction false} SweepVolume<N>(cs: seq<Entry<N>>, ds: seq<Entry<N>>)
    requires Positive(cs) && Positive(ds)
    ensures var r := Sweep(cs, ds);
            Volume(r.transfers) + Sum(r.creditorsLeft) == Sum(cs) &&
            Volume(r.transfers) + Sum(r.debtorsLeft) == Sum(ds)
    decreases |cs| + |ds|
  {
    if cs != [] && ds != [] {
      var amount := Min(cs[0].amount, ds[0].amount);
      var cs1, ds1 := Reduce(cs, amount), Reduce(ds, amount);
      SweepStep(cs, ds, amount, cs1, ds1);
      SweepVolume(cs1, ds1);
    }
  }

  lemma {:induction false} SumPositive<N>(es: seq<Entry<N>>)
    requires Positive(es)
    ensures es == [] <==> Sum(es) == 0
    ensures Sum(es) >= 0
  {
    if es != [] {
      SumPositive(es[1..]);
    }
  }

  /** Both lists are used up exactly when credits and debts balance. */
  lemma SweepExhausts<N>(cs: seq<Entry<N>>, ds: seq<Entry<N>>)
    requires Positive(cs) && Positive(ds)
    ensures var r := Sweep(cs, ds);
            (r.creditorsLeft == [] && r.debtorsLeft == []) <==> Sum(cs) == Sum(ds)
  {
    var r := Sweep(cs, ds);
    SweepVolume(cs, ds);
    SumPositive(r.creditorsLeft);
    SumPositive(r.debtorsLeft);
  }

  /** On balanced lists every credit is received and every debt paid in
      full, and the total moved is the total credit. */
  lemma SweepSettles<N>(cs: seq<Entry<N>>, ds: seq<Entry<N>>, p: N)
    requires Positive(cs) && Positive(ds) && Sum(cs) == Sum(ds)
    ensures var r := Sweep(cs, ds);
            Received(r.transfers, p) == AmountIn(cs, p) &&
            Paid(r.transfers, p) == AmountIn(ds, p) &&
            Volume(r.transfers) == Sum(cs)
  {
    SweepExhausts(cs, ds);
    SweepConserves(cs, ds, p);
    SweepVolume(cs, ds);
  }

  /** Entry `k` of the reduced list carries the name of entry `j` of the
      list: `k + 1` when its head was dropped, and `k` otherwise. */
  lemma ReduceName<N>(es: seq<Entry<N>>, amount: int, k: nat, j: nat)
    requires es != [] && Positive(es) && 0 < amount <= es[0].amount && k < |Reduce(es, amount)|
    requires j == if es[0].amount == amount then k + 1 else k
    ensures j < |es| && Reduce(es, amount)[k].name == es[j].name
  {
  }

  /** Transfer `i` of the sweep: the first is between the two heads, and
      each later one is a transfer of the sweep over the reduced lists. */
  lemma SweepTransferAt<N>(cs: seq<Entry<N>>, ds: seq<Entry<N>>, i: nat, amount: int)
    requires Positive(cs) && Positive(ds) && i < |SweepTransfers(cs, ds)|
    requires amount == Min(cs[0].amount, ds[0].amount)
    ensures 0 < amount <= cs[0].amount && amount <= ds[0].amount
    ensures i == 0 ==> SweepTransfers(cs, ds)[0] == Transfer(ds[0].name, cs[0].name, amount)
    ensures i > 0 ==> i - 1 < |SweepTransfers(Reduce(cs, amount), Reduce(ds, amount))| &&
                      SweepTransfers(cs, ds)[i] == SweepTransfers(Reduce(cs, amount), Reduce(ds, amount))[i - 1]
  {
  }

  /** Entries `p - 1` and `p` of `es` are named `x` and `y`. */
  ghost predicate Neighbours<N>(es: seq<Entry<N>>, p: nat, x: N, y: N) {
    0 < p < |es| && es[p - 1].name == x && es[p].name == y
  }

  /** Transfers `i - 1` and `i` of `ts` go to the same creditor of `cs` or to
      two neighbouring ones, and come from the same debtor of `ds` or from two
      neighbouring ones. */
  ghost predicate PaidInOrder<N>(ts: seq<Transfer<N>>, cs: seq<Entry<N>>, ds: seq<Entry<N>>, i: nat)
    requires 0 < i < |ts|
  {
    (ts[i - 1].to == ts[i].to ||
     exists p {:trigger Neighbours(cs, p, ts[i - 1].to, ts[i].to)} :: Neighbours(cs, p, ts[i - 1].to, ts[i].to)) &&
    (ts[i - 1].from == ts[i].from ||
     exists p {:trigger Neighbours(ds, p, ts[i - 1].from, ts[i].from)} :: Neighbours(ds, p, ts[i - 1].from, ts[i].from))
  }

  /** The sweep never skips a creditor: two consecutive transfers go to the
      same creditor, or to neighbours in `cs`, the earlier one first. */
  lemma {:induction false} SweepCreditorOrder<N>(cs: seq<Entry<N>>, ds: seq<Entry<N>>, i: nat)
    requires Positive(cs) && Positive(ds) && 0 < i < |SweepTransfers(cs, ds)|
    ensures var ts := SweepTransfers(cs, ds);
            ts[i - 1].to == ts[i].to ||
            exists p {:trigger Neighbours(cs, p, ts[i - 1].to, ts[i].to)} :: Neighbours(cs, p, ts[i - 1].to, ts[i].to)
    decreases |cs| + |ds|
  {
    var amount := Min(cs[0].amount, ds[0].amount);
    SweepTransferAt(cs, ds, 0, amount);
    if i == 1 {
      CreditorOrderFirst(cs, ds, amount);
    } else {
      var cs1, ds1 := Reduce(cs, amount), Reduce(ds, amount);
      var ts1 := SweepTransfers(cs1, ds1);
      SweepTransferAt(cs, ds, i, amount);
      SweepTransferAt(cs, ds, i - 1, amount);
      if ts1[i - 2].to != ts1[i - 1].to {
        SweepCreditorOrder(cs1, ds1, i - 1);
        var p :| Neighbours(cs1, p, ts1[i - 2].to, ts1[i - 1].to);
        CreditorOrderShift(cs, ds, amount, i, p);
      }
    }
  }

  /** The first two transfers of the sweep go to the head creditor, or to it
      and then its neighbour. */
  lemma CreditorOrderFirst<N>(cs: seq<Entry<N>>, ds: seq<Entry<N>>, amount: int)
    requires Positive(cs) && Positive(ds) && 1 < |SweepTransfers(cs, ds)|
    requires amount == Min(cs[0].amount, ds[0].amount)
    ensures var ts := SweepTransfers(cs, ds);
            ts[0].to == ts[1].to || Neighbours(cs, 1, ts[0].to, ts[1].to)
  {
    var cs1, ds1 := Reduce(cs, amount), Reduce(ds, amount);
    SweepTransferAt(cs, ds, 0, amount);
    SweepTransferAt(cs, ds, 1, amount);
    SweepTransferAt(cs1, ds1, 0, Min(cs1[0].amount, ds1[0].amount));
    ReduceName(cs, amount, 0, if cs[0].amount == amount then 1 else 0);
  }

  /** Neighbouring creditors of the reduced list are neighbours in `cs`,
      shifted by one when its head was dropped. */
  lemma CreditorOrderShift<N>(cs: seq<Entry<N>>, ds: seq<Entry<N>>, amount: int, i: nat, p: nat)
    requires Positive(cs) && Positive(ds) && 1 < i < |SweepTransfers(cs, ds)|
    requires amount == Min(cs[0].amount, ds[0].amount)
    requires var cs1, ts1 := Reduce(cs, amount), SweepTransfers(Reduce(cs, amount), Reduce(ds, amount));
             i - 1 < |ts1| && Neighbours(cs1, p, ts1[i - 2].to, ts1[i - 1].to)
    ensures var ts := SweepTransfers(cs, ds);
            exists q {:trigger Neighbours(cs, q, ts[i - 1].to, ts[i].to)} :: Neighbours(cs, q, ts[i - 1].to, ts[i].to)
  {
    var ts := SweepTransfers(cs, ds);
    SweepTransferAt(cs, ds, i, amount);
    SweepTransferAt(cs, ds, i - 1, amount);
    var shift := if cs[0].amount == amount then 1 else 0;
    ReduceName(cs, amount, p - 1, p - 1 + shift);
    ReduceName(cs, amount, p, p + shift);
    assert Neighbours(cs, p + shift, ts[i - 1].to, ts[i].to);
  }

  /** The sweep never skips a debtor: two consecutive transfers come from the
      same debtor, or from neighbours in `ds`, the earlier one first. */
  lemma {:induction false} SweepDebtorOrder<N>(cs: seq<Entry<N>>, ds: seq<Entry<N>>, i: nat)
    requires Positive(cs) && Positive(ds) && 0 < i < |SweepTransfers(cs, ds)|
    ensures var ts := SweepTransfers(cs, ds);
            ts[i - 1].from == ts[i].from ||
            exists p {:trigger Neighbours(ds, p, ts[i - 1].from, ts[i].from)} :: Neighbours(ds, p, ts[i - 1].from, ts[i].from)
    decreases |cs| + |ds|
  {
    var amount := Min(cs[0].amount, ds[0].amount);
    SweepTransferAt(cs, ds, 0, amount);
    if i == 1 {
      DebtorOrderFirst(cs, ds, amount);
    } else {
      var cs1, ds1 := Reduce(cs, amount), Reduce(ds, amount);
      var ts1 := SweepTransfers(cs1, ds1);
      SweepTransferAt(cs, ds, i, amount);
      SweepTransferAt(cs, ds, i - 1, amount);
      if ts1[i - 2].from != ts1[i - 1].from {
        SweepDebtorOrder(cs1, ds1, i - 1);
        var p :| Neighbours(ds1, p, ts1[i - 2].from, ts1[i - 1].from);
        DebtorOrderShift(cs, ds, amount, i, p);
      }
    }
  }

  /** The first two transfers of the sweep come from the head debtor, or from it
      and then its neighbour. */
  lemma DebtorOrderFirst<N>(cs: seq<Entry<N>>, ds: seq<Entry<N>>, amount: int)
    requires Positive(cs) && Positive(ds) && 1 < |SweepTransfers(cs, ds)|
    requires amount == Min(cs[0].amount, ds[0].amount)
    ensures var ts := SweepTransfers(cs, ds);
            ts[0].from == ts[1].from || Neighbours(ds, 1, ts[0].from, ts[1].from)
  {
    var cs1, ds1 := Reduce(cs, amount), Reduce(ds, amount);
    SweepTransferAt(cs, ds, 0, amount);
    SweepTransferAt(cs, ds, 1, amount);
    SweepTransferAt(cs1, ds1, 0, Min(cs1[0].amount, ds1[0].amount));
    ReduceName(ds, amount, 0, if ds[0].amount == amount then 1 else 0);
  }

  /** Neighbouring debtors of the reduced list are neighbours in `ds`,
      shifted by one when its head was dropped. */
  lemma DebtorOrderShift<N>(cs: seq<Entry<N>>, ds: seq<Entry<N>>, amount: int, i: nat, p: nat)
    requires Positive(cs) && Positive(ds) && 1 < i < |SweepTransfers(cs, ds)|
    requires amount == Min(cs[0].amount, ds[0].amount)
    requires var ds1, ts1 := Reduce(ds, amount), SweepTransfers(Reduce(cs, amount), Reduce(ds, amount));
             i - 1 < |ts1| && Neighbours(ds1, p, ts1[i - 2].from, ts1[i - 1].from)
    ensures var ts := SweepTransfers(cs, ds);
            exists q {:trigger Neighbours(ds, q, ts[i - 1].from, ts[i].from)} :: Neighbours(ds, q, ts[i - 1].from, ts[i].from)
  {
    var ts := SweepTransfers(cs, ds);
    SweepTransferAt(cs, ds, i, amount);
    SweepTransferAt(cs, ds, i - 1, amount);
    var shift := if ds[0].amount == amount then 1 else 0;
    ReduceName(ds, amount, p - 1, p - 1 + shift);
    ReduceName(ds, amount, p, p + shift);
    assert Neighbours(ds, p + shift, ts[i - 1].from, ts[i].from);
  }

  /** Non-decreasing code-point order of names, which
      `sorted(..., key=lambda item: item[0])` produces. */
  predicate SortedByName(es: seq<Entry<string>>) {
    forall i :: 0 < i < |es| ==> LexLeq(es[i - 1].name, es[i].name)
  }

  function Insert(e: Entry<string>, s: seq<Entry<string>>): (r: seq<Entry<string>>)
    ensures multiset(r) == multiset(s) + multiset([e])
    ensures SortedByName(s) ==> SortedByName(r)
    ensures r != [] && (r[0] == e || (s != [] && r[0] == s[0]))
  {
    if s == [] then [e]
    else if LexLeq(e.name, s[0].name) then [e] + s
    else
      LexLeqTotal(e.name, s[0].name);
      assert s == [s[0]] + s[1..];
      [s[0]] + Insert(e, s[1..])
  }

  /** `sorted(entries, key=lambda item: item[0])`: an ordered permutation. */
  function SortByName(es: seq<Entry<string>>): (r: seq<Entry<string>>)
    ensures SortedByName(r)
    ensures multiset(r) == multiset(es)
  {
    if es == [] then []
    else
      assert es == [es[0]] + es[1..];
      Insert(es[0], SortByName(es[1..]))
  }

  /** Removing one element from each of two permutations of each other leaves
      permutations of each other. */
  lemma PermutationRest<T>(a: seq<T>, b: seq<T>, k: nat)
    requires a != [] && multiset(a) == multiset(b) && k < |b| && b[k] == a[0]
    ensures multiset(a[1..]) == multiset(b[..k] + b[k + 1..])
  {
    assert b == b[..k] + [b[k]] + b[k + 1..];
    assert multiset(b) == multiset(b[..k]) + multiset{b[k]} + multiset(b[k + 1..]);
    assert a == [a[0]] + a[1..];
    assert multiset(a) == multiset{a[0]} + multiset(a[1..]);
    assert multiset(b[..k] + b[k + 1..]) == multiset(b[..k]) + multiset(b[k + 1..]);
    assert multiset(a[1..]) == multiset(a) - multiset{a[0]};
    assert multiset(b[..k] + b[k + 1..]) == multiset(b) - multiset{b[k]};
  }

  /** Sums and amounts only depend on the multiset of entries. */
  lemma {:induction false} PermutationSum<N>(a: seq<Entry<N>>, b: seq<Entry<N>>, p: N)
    requires multiset(a) == multiset(b)
    ensures Sum(a) == Sum(b) && AmountIn(a, p) == AmountIn(b, p)
    decreases |a|
  {
    if a == [] {
      assert |b| == |multiset(b)| == 0;
    } else {
      assert a[0] in multiset(b);
      var k :| 0 <= k < |b| && b[k] == a[0];
      PermutationRest(a, b, k);
      var front, back := b[..k], b[k + 1..];
      assert b == front + ([b[k]] + back);
      PermutationSum(a[1..], front + back, p);
      SumAppend(front, [b[k]] + back);
      SumAppend(front, back);
      AmountInAppend(front, [b[k]] + back, p);
      AmountInAppend(front, back, p);
      assert ([b[k]] + back)[1..] == back;
    }
  }

  /** So do the names, as a multiset. */
  lemma {:induction false} PermutationNames<N>(a: seq<Entry<N>>, b: seq<Entry<N>>)
    requires multiset(a) == multiset(b)
    ensures multiset(Names(a)) == multiset(Names(b))
    decreases |a|
  {
    if a == [] {
      assert |b| == |multiset(b)| == 0;
    } else {
      assert a[0] in multiset(b);
      var k :| 0 <= k < |b| && b[k] == a[0];
      PermutationRest(a, b, k);
      var front, back := b[..k], b[k + 1..];
      assert b == front + ([b[k]] + back);
      PermutationNames(a[1..], front + back);
      NamesAppend(front, [b[k]] + back);
      NamesAppend(front, back);
      assert Names([b[k]] + back) == [a[0].name] + Names(back);
      assert Names(a) == [a[0].name] + Names(a[1..]);
    }
  }

  /** Two copies of a value show in the multiset. */
  lemma TwoCopies<T>(t: seq<T>, i: nat, j: nat)
    requires i < j < |t| && t[i] == t[j]
    ensures multiset(t)[t[i]] >= 2
  {
    assert t == t[..i] + [t[i]] + t[i + 1..j] + [t[j]] + t[j + 1..];
  }

  /** A duplicate-free sequence holds each of its values once. */
  lemma OneCopy<T>(s: seq<T>, x: T)
    requires Distinct(s) && x in s
    ensures multiset(s)[x] == 1
  {
    var k := IndexOf(s, x);
    assert s == s[..k] + [s[k]] + s[k + 1..];
    assert x !in s[..k] && x !in s[k + 1..];
  }

  /** A permutation of a duplicate-free sequence is duplicate-free. */
  lemma DistinctPermutation<T>(s: seq<T>, t: seq<T>)
    requires multiset(s) == multiset(t) && Distinct(s)
    ensures Distinct(t)
  {
    forall i, j | 0 <= i < j < |t| ensures t[i] != t[j] {
      if t[i] == t[j] {
        TwoCopies(t, i, j);
        assert t[i] in multiset(s);
        OneCopy(s, t[i]);
      }
    }
  }

  /** Sorting by name keeps every entry, hence positivity, every amount,
      the sum and duplicate-free names. */
  lemma SortByNameKeeps(es: seq<Entry<string>>, p: string)
    ensures Positive(es) ==> Positive(SortByName(es))
    ensures Sum(SortByName(es)) == Sum(es) && AmountIn(SortByName(es), p) == AmountIn(es, p)
    ensures Distinct(Names(es)) ==> Distinct(Names(SortByName(es)))
  {
    var r := SortByName(es);
    PermutationSum(es, r, p);
    PermutationNames(es, r);
    if Positive(es) {
      forall i | 0 <= i < |r| ensures r[i].amount > 0 {
        assert r[i] in multiset(es);
      }
    }
    if Distinct(Names(es)) {
      DistinctPermutation(Names(es), Names(r));
    }
  }
}
