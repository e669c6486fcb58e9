/** Settlement variant B of app/domain/settlement.py. It differs from the
    net calculation of app/domain.py: a single line winner, prices that may
    be zero, card winners deduplicated instead of rejected, remainder
    kopecks handed out in `players` order, creditor and debtor lists sorted
    by name, and an error when credits and debts do not balance.
    `SettlementOf` and `TransfersOf` state in closed form what the loop
    methods `CalculateSettlement` and `CalculateTransfers` compute. */
module Settlement {
  import opened Wrappers
  import opened Seqs
  import opened Text
  import opened Ledger

  /** One constructor per `ValueError` message of the module. */
  datatype SettlementError =
    | EmptyPlayers
    | NegativeAmount
    | LineWinnerNotPlayer
    | EmptyCardWinners
    | DuplicatePlayers
    | UnknownCardWinners
    | Imbalanced

  /** The dict `calculate_settlement` returns. */
  datatype Settlement = Settlement(netByPlayer: Net, transfers: seq<Transfer<string>>, pot: int, linePayoutsTotal: int)

  // ----- _deduplicate_preserve_order -----

  /** The `seen`-set loop of `_deduplicate_preserve_order`. */
  method DeduplicatePreserveOrder(items: seq<string>) returns (result: seq<string>)
    ensures result == Dedupe(items)
  {
    var seen: set<string> := {};
    result := [];
    for i := 0 to |items|
      invariant result == Dedupe(items[..i])
      invariant forall x :: x in seen <==> x in result
    {
      assert items[..i + 1] == items[..i] + [items[i]];
      DedupeSnoc(items[..i], items[i]);
      if items[i] !in seen {
        seen := seen + {items[i]};
        result := result + [items[i]];
      }
    }
    assert items[..|items|] == items;
  }

  // ----- the closed form of calculate_settlement -----

  /** The number of card winners among the first `k` players. */
  function RankAt(players: seq<string>, winners: seq<string>, k: nat): (r: nat)
    requires k <= |players|
    ensures r <= k
  {
    if k == 0 then 0 else RankAt(players, winners, k - 1) + (if players[k - 1] in winners then 1 else 0)
  }

  /** The remainder kopeck of `p`: a card winner receives one while fewer
      than `remainder` card winners come before it in `players`. */
  function Extra(players: seq<string>, winners: seq<string>, remainder: int, p: string): int {
    if p in players && p in winners && RankAt(players, winners, IndexOf(players, p)) < remainder then 1 else 0
  }

  /** The line bonus of `p` among `n` players: the winner collects it from
      the `n - 1` others, who pay it once each. */
  function LineTerm(n: int, bonus: int, lineWinner: string, p: string): int {
    if p == lineWinner then (n - 1) * bonus else -bonus
  }

  /** The final net of `p`: the card price, the line bonus, the share of the
      pot and the remainder kopeck. */
  function SettledAmount(players: seq<string>, price: int, bonus: int, lineWinner: string,
                         winners: seq<string>, p: string): int
    requires winners != []
  {
    var pot := |players| * price;
    -price + LineTerm(|players|, bonus, lineWinner, p) +
    (if p in winners then pot / |winners| else 0) + Extra(players, winners, pot % |winners|, p)
  }

  /** `net_by_player` of a game that passed every check, keyed by the
      players in order. */
  function SettlementNet(players: seq<string>, price: int, bonus: int, lineWinner: string,
                         winners: seq<string>): (n: Net)
    requires Distinct(players) && winners != []
    ensures WellFormed(n) && n.keys == players
    ensures forall p :: p in players ==> Get(n, p) == SettledAmount(players, price, bonus, lineWinner, winners, p)
  {
    Net(players, map p | p in players :: SettledAmount(players, price, bonus, lineWinner, winners, p))
  }

  /** What `calculate_settlement` returns or raises, checks in the source's
      order. */
  function SettlementOf(players: seq<string>, cardPrice: int, lineBonus: int, lineWinner: string,
                        cardWinners: seq<string>): (r: Result<Settlement, SettlementError>)
    ensures players == [] ==> r == Err(EmptyPlayers)
    ensures players != [] && (cardPrice < 0 || lineBonus < 0) ==> r == Err(NegativeAmount)
    ensures players != [] && cardPrice >= 0 && lineBonus >= 0 && lineWinner !in players ==>
              r == Err(LineWinnerNotPlayer)
    ensures players != [] && cardPrice >= 0 && lineBonus >= 0 && lineWinner in players && cardWinners == [] ==>
              r == Err(EmptyCardWinners)
    ensures r.Ok? ==> r.value.netByPlayer.keys == players &&
                      r.value.pot == |players| * cardPrice &&
                      r.value.linePayoutsTotal == (|players| - 1) * lineBonus
  {
    if players == [] then Err(EmptyPlayers)
    else if cardPrice < 0 || lineBonus < 0 then Err(NegativeAmount)
    else if lineWinner !in players then Err(LineWinnerNotPlayer)
    else if cardWinners == [] then Err(EmptyCardWinners)
    else if |Dedupe(players)| != |players| then Err(DuplicatePlayers)
    else
      var winners := Dedupe(cardWinners);
      if exists w :: w in winners && w !in players then Err(UnknownCardWinners)
      else
        DedupeLength(players);
        Ok(SettlementValue(players, cardPrice, lineBonus, lineWinner, winners))
  }

  /** The result of a game that passed every check. */
  function SettlementValue(players: seq<string>, cardPrice: int, lineBonus: int, lineWinner: string,
                           winners: seq<string>): (s: Settlement)
    requires Distinct(players) && winners != []
    ensures s.netByPlayer == SettlementNet(players, cardPrice, lineBonus, lineWinner, winners)
    ensures s.pot == |players| * cardPrice && s.linePayoutsTotal == (|players| - 1) * lineBonus
  {
    var n := SettlementNet(players, cardPrice, lineBonus, lineWinner, winners);
    Settlement(n, SortedPlan(n).transfers, |players| * cardPrice, (|players| - 1) * lineBonus)
  }

  // ----- calculate_transfers -----

  /** The sweep `calculate_transfers` performs: creditors and debtors sorted
      by name. */
  function SortedPlan(n: Net): Plan<string>
    requires WellFormed(n)
  {
    SortByNameKeeps(Creditors(Items(n)), "");
    SortByNameKeeps(Debtors(Items(n)), "");
    Sweep(SortByName(Creditors(Items(n))), SortByName(Debtors(Items(n))))
  }

  /** What `calculate_transfers` returns or raises: an error when a debtor
      or a creditor is left over. */
  function TransfersOf(n: Net): (r: Result<seq<Transfer<string>>, SettlementError>)
    requires WellFormed(n)
    ensures r.Err? ==> r.error == Imbalanced
  {
    var plan := SortedPlan(n);
    if plan.creditorsLeft == [] && plan.debtorsLeft == [] then Ok(plan.transfers) else Err(Imbalanced)
  }

  /** `calculate_transfers`: the two sorted lists swept by the two-pointer
      loop, then the check that both were used up. */
  method CalculateTransfers(net: Net) returns (r: Result<seq<Transfer<string>>, SettlementError>)
    requires WellFormed(net)
    ensures r == TransfersOf(net)
  {
    SortByNameKeeps(Debtors(Items(net)), "");
    SortByNameKeeps(Creditors(Items(net)), "");
    var debtors := SortByName(Debtors(Items(net)));
    var creditors := SortByName(Creditors(Items(net)));
    var transfers, creditorsDone, debtorsDone := SweepLoop(creditors, debtors);
    if !debtorsDone || !creditorsDone {
      return Err(Imbalanced);
    }
    return Ok(transfers);
  }

  // ----- the loops of calculate_settlement -----

  /** The card prices and the line-bonus loop: every player other than the
      winner pays the bonus, then the winner collects `(N - 1) * bonus`. */
  method ChargeLineBonus(players: seq<string>, price: int, bonus: int, lineWinner: string)
    returns (net: map<string, int>, linePayoutsTotal: int)
    requires Distinct(players) && lineWinner in players
    ensures net.Keys == set p | p in players
    ensures forall k :: 0 <= k < |players| ==> net[players[k]] == -price + LineTerm(|players|, bonus, lineWinner, players[k])
    ensures linePayoutsTotal == (|players| - 1) * bonus
  {
    net := map p | p in players :: -price;
    for i := 0 to |players|
      invariant net.Keys == set p | p in players
      invariant forall k :: 0 <= k < |players| ==>
                  net[players[k]] == -price - (if players[k] != lineWinner && k < i then bonus else 0)
    {
      var player := players[i];
      if player != lineWinner {
        net := net[player := net[player] - bonus];
      }
    }
    linePayoutsTotal := (|players| - 1) * bonus;
    net := net[lineWinner := net[lineWinner] + linePayoutsTotal];
  }

  /** The share loop: every deduplicated card winner receives `share`. */
  method AddShare(winners: seq<string>, share: int, net0: map<string, int>) returns (net: map<string, int>)
    requires Distinct(winners) && forall i :: 0 <= i < |winners| ==> winners[i] in net0
    ensures net.Keys == net0.Keys
    ensures forall p :: p in net0 ==> net[p] == net0[p] + (if p in winners then share else 0)
  {
    net := net0;
    for j := 0 to |winners|
      invariant net.Keys == net0.Keys
      invariant forall p :: p in net0 ==> net[p] == net0[p] + (if p in winners[..j] then share else 0)
    {
      var winner := winners[j];
      assert winners[..j + 1] == winners[..j] + [winner];
      assert winner !in winners[..j];
      net := net[winner := net[winner] + share];
    }
    assert winners[..|winners|] == winners;
  }

  /** The rank never decreases along the players. */
  lemma {:induction false} RankMonotone(players: seq<string>, winners: seq<string>, k: nat, j: nat)
    requires k <= j <= |players|
    ensures RankAt(players, winners, k) <= RankAt(players, winners, j)
    decreases j
  {
    if k < j {
      RankMonotone(players, winners, k, j - 1);
    }
  }

  /** The remainder kopeck of the player at `k`, by position. */
  lemma ExtraAt(players: seq<string>, winners: seq<string>, remainder: int, k: nat)
    requires Distinct(players) && k < |players|
    ensures Extra(players, winners, remainder, players[k]) ==
            if players[k] in winners && RankAt(players, winners, k) < remainder then 1 else 0
  {
    IndexOfDistinct(players, k);
  }

  /** The remainder loop: walking the players in order, each card winner
      receives one kopeck until `remainder` have been handed out. */
  method DistributeRemainder(players: seq<string>, winners: seq<string>, remainder: int, net0: map<string, int>)
    returns (net: map<string, int>)
    requires Distinct(players) && remainder > 0
    requires forall k :: 0 <= k < |players| ==> players[k] in net0
    ensures net.Keys == net0.Keys
    ensures forall k :: 0 <= k < |players| ==> net[players[k]] == net0[players[k]] + Extra(players, winners, remainder, players[k])
  {
    net := net0;
    var distributed := 0;
    for i := 0 to |players|
      invariant net.Keys == net0.Keys
      invariant distributed == RankAt(players, winners, i) && distributed < remainder
      invariant forall k :: 0 <= k < |players| ==>
                  net[players[k]] == net0[players[k]] + (if k < i then Extra(players, winners, remainder, players[k]) else 0)
    {
      var player := players[i];
      ExtraAt(players, winners, remainder, i);
      if player in winners {
        net := net[player := net[player] + 1];
        distributed := distributed + 1;
        if distributed == remainder {
          forall k | i < k < |players| ensures Extra(players, winners, remainder, players[k]) == 0 {
            ExtraAt(players, winners, remainder, k);
            RankMonotone(players, winners, i + 1, k);
          }
          break;
        }
      }
    }
  }

  /** The net loops of `calculate_settlement` on checked input. */
  method NetByPlayer(players: seq<string>, price: int, bonus: int, lineWinner: string, winners: seq<string>)
    returns (net: map<string, int>, linePayoutsTotal: int)
    requires Distinct(players) && lineWinner in players && Distinct(winners) && winners != []
    requires forall i :: 0 <= i < |winners| ==> winners[i] in players
    ensures net == SettlementNet(players, price, bonus, lineWinner, winners).amounts
    ensures linePayoutsTotal == (|players| - 1) * bonus
  {
    var pot := |players| * price;
    net, linePayoutsTotal := ChargeLineBonus(players, price, bonus, lineWinner);
    ghost var charged := net;
    var share, remainder := pot / |winners|, pot % |winners|;
    net := AddShare(winners, share, net);
    ghost var shared := net;
    if remainder != 0 {
      net := DistributeRemainder(players, winners, remainder, net);
    }
    NetByPlayerValue(players, price, bonus, lineWinner, winners, charged, shared, net);
  }

  /** What the three loops leave is the closed form. */
  lemma NetByPlayerValue(players: seq<string>, price: int, bonus: int, lineWinner: string, winners: seq<string>,
                         charged: map<string, int>, shared: map<string, int>, net: map<string, int>)
    requires Distinct(players) && winners != []
    requires charged.Keys == (set p | p in players) && shared.Keys == charged.Keys && net.Keys == shared.Keys
    requires forall k :: 0 <= k < |players| ==>
               charged[players[k]] == -price + LineTerm(|players|, bonus, lineWinner, players[k])
    requires var pot := |players| * price;
             forall p :: p in charged ==> shared[p] == charged[p] + (if p in winners then pot / |winners| else 0)
    requires var remainder := (|players| * price) % |winners|;
             forall k :: 0 <= k < |players| ==>
               net[players[k]] == shared[players[k]] + Extra(players, winners, remainder, players[k])
    ensures net == SettlementNet(players, price, bonus, lineWinner, winners).amounts
  {
    var target := SettlementNet(players, price, bonus, lineWinner, winners).amounts;
    forall p | p in net ensures net[p] == target[p] {
      var k := IndexOf(players, p);
    }
    assert net == target;
  }

  /** `calculate_settlement`: the checks, the net loops and the transfers. */
  method CalculateSettlement(players: seq<string>, cardPrice: int, lineBonus: int, lineWinner: string,
                             cardWinners: seq<string>) returns (r: Result<Settlement, SettlementError>)
    ensures r == SettlementOf(players, cardPrice, lineBonus, lineWinner, cardWinners)
  {
    if |players| == 0 { return Err(EmptyPlayers); }
    if cardPrice < 0 || lineBonus < 0 { return Err(NegativeAmount); }
    if lineWinner !in players { return Err(LineWinnerNotPlayer); }
    if |cardWinners| == 0 { return Err(EmptyCardWinners); }
    var playersUnique := DeduplicatePreserveOrder(players);
    if |playersUnique| != |players| { return Err(DuplicatePlayers); }
    DedupeLength(players);
    DedupeOfDistinct(players);
    var cardWinnersUnique := DeduplicatePreserveOrder(cardWinners);
    var cardWinnersSet := set w | w in cardWinnersUnique;
    var unknownWinners := cardWinnersSet - set p | p in playersUnique;
    if unknownWinners != {} {
      assert exists w :: w in cardWinnersUnique && w !in players;
      return Err(UnknownCardWinners);
    }
    forall i | 0 <= i < |cardWinnersUnique| ensures cardWinnersUnique[i] in players {
      assert cardWinnersUnique[i] !in unknownWinners;
    }
    var settlement := Settle(playersUnique, cardPrice, lineBonus, lineWinner, cardWinnersUnique);
    return Ok(settlement);
  }

  /** The part of `calculate_settlement` after the checks: the nets, the
      transfers, the pot and the line payouts. */
  method Settle(players: seq<string>, cardPrice: int, lineBonus: int, lineWinner: string, winners: seq<string>)
    returns (s: Settlement)
    requires Distinct(players) && lineWinner in players && Distinct(winners) && winners != []
    requires forall i :: 0 <= i < |winners| ==> winners[i] in players
    ensures s == SettlementValue(players, cardPrice, lineBonus, lineWinner, winners)
  {
    var pot := |players| * cardPrice;
    var net, linePayoutsTotal := NetByPlayer(players, cardPrice, lineBonus, lineWinner, winners);
    var netByPlayer := Net(players, net);
    SettlementBalanced(players, cardPrice, lineBonus, lineWinner, winners);
    TransfersOfBalanced(netByPlayer);
    var transfers := CalculateTransfers(netByPlayer);
    return Settlement(netByPlayer, transfers.value, pot, linePayoutsTotal);
  }

  // ----- zero sum -----

  lemma {:induction false} DistinctCard<T>(s: seq<T>)
    requires Distinct(s)
    ensures |set x | x in s| == |s|
  {
    if s != [] {
      var init, last := s[..|s| - 1], s[|s| - 1];
      assert s == init + [last];
      DistinctCard(init);
      assert (set x | x in s) == (set x | x in init) + {last};
    }
  }

  /** Over distinct players the rank counts the card winners seen. */
  lemma {:induction false} RankCard(players: seq<string>, winners: seq<string>, k: nat)
    requires Distinct(players) && k <= |players|
    ensures RankAt(players, winners, k) == |set x | x in players[..k] && x in winners|
  {
    if k > 0 {
      RankCard(players, winners, k - 1);
      var pre, p := players[..k - 1], players[k - 1];
      assert players[..k] == pre + [p];
      assert p !in pre;
      WinnersAmongSnoc(pre, p, winners);
    }
  }

  /** The winners among a list with one more name. */
  lemma WinnersAmongSnoc(pre: seq<string>, p: string, winners: seq<string>)
    requires p !in pre
    ensures |set x | x in pre + [p] && x in winners| ==
              |set x | x in pre && x in winners| + if p in winners then 1 else 0
  {
    var before := set x | x in pre && x in winners;
    if p in winners {
      assert (set x | x in pre + [p] && x in winners) == before + {p};
    } else {
      assert (set x | x in pre + [p] && x in winners) == before;
    }
  }

  /** When every card winner is a player, all of them are counted. */
  lemma WinnersCounted(players: seq<string>, winners: seq<string>)
    requires Distinct(players) && Distinct(winners)
    requires forall i :: 0 <= i < |winners| ==> winners[i] in players
    ensures RankAt(players, winners, |players|) == |winners|
  {
    RankCard(players, winners, |players|);
    assert players[..|players|] == players;
    assert (set x | x in players && x in winners) == (set x | x in winners);
    DistinctCard(winners);
  }

  /** The shares paid over the first `k` players. */
  lemma {:induction false} ShareSum(players: seq<string>, winners: seq<string>, share: int, k: nat)
    requires k <= |players|
    ensures SumOf(players[..k], q => if q in winners then share else 0) == share * RankAt(players, winners, k)
  {
    if k > 0 {
      ShareSum(players, winners, share, k - 1);
      assert players[..k][..k - 1] == players[..k - 1];
      var r := RankAt(players, winners, k - 1);
      assert share * (r + 1) == share * r + share;
    }
  }

  /** The remainder kopecks handed out over the first `k` players. */
  lemma {:induction false} ExtraSum(players: seq<string>, winners: seq<string>, remainder: int, k: nat)
    requires Distinct(players) && k <= |players| && remainder >= 0
    ensures SumOf(players[..k], q => Extra(players, winners, remainder, q)) == Min(remainder, RankAt(players, winners, k))
  {
    if k > 0 {
      ExtraSum(players, winners, remainder, k - 1);
      assert players[..k][..k - 1] == players[..k - 1];
      IndexOfDistinct(players, k - 1);
    }
  }

  /** The line bonuses only move money between players. */
  lemma LineTermSum(players: seq<string>, bonus: int, lineWinner: string)
    requires Distinct(players) && lineWinner in players
    ensures SumOf(players, q => LineTerm(|players|, bonus, lineWinner, q)) == 0
  {
    var n := |players|;
    var f, g := q => -bonus, q => if q == lineWinner then n * bonus else 0;
    var h := q => LineTerm(n, bonus, lineWinner, q);
    assert (n - 1) * bonus == n * bonus - bonus && n * -bonus == -(n * bonus) by {
      assert (n - 1) * bonus == n * bonus - bonus;
    }
    forall q | q in players ensures h(q) == f(q) + g(q) { }
    SumOfAdd(players, f, g, h);
    SumOfConst(players, f, -bonus);
    SumOfSingle(players, g, lineWinner);
    assert SumOf(players, h) == n * -bonus + n * bonus;
  }

  /** The card prices and line bonuses add up to minus the pot. */
  lemma StakeLineSum(players: seq<string>, price: int, bonus: int, lineWinner: string)
    requires Distinct(players) && lineWinner in players
    ensures SumOf(players, q => -price + LineTerm(|players|, bonus, lineWinner, q)) == -(|players| * price)
  {
    var stake := q => -price;
    SumOfAdd(players, stake, q => LineTerm(|players|, bonus, lineWinner, q),
             q => -price + LineTerm(|players|, bonus, lineWinner, q));
    SumOfConst(players, stake, -price);
    LineTermSum(players, bonus, lineWinner);
    assert |players| * -price == -(|players| * price);
  }

  /** The shares and remainder kopecks add up to the pot they split. */
  lemma CardPartSum(players: seq<string>, winners: seq<string>, share: int, remainder: int)
    requires Distinct(players) && Distinct(winners) && 0 <= remainder < |winners|
    requires forall i :: 0 <= i < |winners| ==> winners[i] in players
    ensures SumOf(players, q => (if q in winners then share else 0) + Extra(players, winners, remainder, q)) ==
            share * |winners| + remainder
  {
    SumOfAdd(players, q => if q in winners then share else 0, q => Extra(players, winners, remainder, q),
             q => (if q in winners then share else 0) + Extra(players, winners, remainder, q));
    assert players[..|players|] == players;
    ShareSum(players, winners, share, |players|);
    ExtraSum(players, winners, remainder, |players|);
    WinnersCounted(players, winners);
  }

  /** With distinct players and card winners that are all players, the nets
      sum to zero: the whole pot is paid out and line bonuses only move
      money. */
  lemma SettlementBalanced(players: seq<string>, price: int, bonus: int, lineWinner: string, winners: seq<string>)
    requires Distinct(players) && lineWinner in players && Distinct(winners) && winners != []
    requires forall i :: 0 <= i < |winners| ==> winners[i] in players
    ensures Balance(SettlementNet(players, price, bonus, lineWinner, winners)) == 0
  {
    var n := SettlementNet(players, price, bonus, lineWinner, winners);
    var pot := |players| * price;
    var share, remainder := pot / |winners|, pot % |winners|;
    var h := q => SettledAmount(players, price, bonus, lineWinner, winners, q);
    SumOfAdd(players, q => -price + LineTerm(|players|, bonus, lineWinner, q),
             q => (if q in winners then share else 0) + Extra(players, winners, remainder, q), h);
    StakeLineSum(players, price, bonus, lineWinner);
    CardPartSum(players, winners, share, remainder);
    BalanceSumOf(n);
    SumOfExt(players, q => Get(n, q), h);
    DivMod(pot, |winners|);
  }

  /** Euclidean division splits `a` into `b` equal shares and a remainder. */
  lemma DivMod(a: int, b: int)
    requires b > 0
    ensures a == (a / b) * b + a % b && 0 <= a % b < b
  {
  }

  /** `calculate_transfers` succeeds exactly on a net that sums to zero. */
  lemma TransfersOfBalanced(n: Net)
    requires WellFormed(n)
    ensures TransfersOf(n).Ok? <==> Balance(n) == 0
  {
    SortedPlanExhausts(n);
    SumCreditorsDebtors(Items(n));
  }

  /** The sorted sweep uses up both lists exactly when credits and debts are
      equal. */
  lemma SortedPlanExhausts(n: Net)
    requires WellFormed(n)
    ensures var plan, items := SortedPlan(n), Items(n);
            (plan.creditorsLeft == [] && plan.debtorsLeft == []) <==> Sum(Creditors(items)) == Sum(Debtors(items))
  {
    var cs, ds := Creditors(Items(n)), Debtors(Items(n));
    SortByNameKeeps(cs, "");
    SortByNameKeeps(ds, "");
    SweepExhausts(SortByName(cs), SortByName(ds));
  }

  // ----- what calculate_settlement and calculate_transfers guarantee -----

  /** `calculate_settlement` succeeds exactly on a non-empty roster without
      repeats, non-negative prices, a line winner who is a player, and a
      non-empty list of card winners who are all players. */
  lemma SettlementSucceeds(players: seq<string>, cardPrice: int, lineBonus: int, lineWinner: string,
                           cardWinners: seq<string>)
    ensures SettlementOf(players, cardPrice, lineBonus, lineWinner, cardWinners).Ok? <==>
            players != [] && cardPrice >= 0 && lineBonus >= 0 && lineWinner in players &&
            cardWinners != [] && Distinct(players) &&
            forall i :: 0 <= i < |cardWinners| ==> cardWinners[i] in players
  {
    DedupeLength(players);
    var winners := Dedupe(cardWinners);
    if forall i :: 0 <= i < |cardWinners| ==> cardWinners[i] in players {
      assert !exists w :: w in winners && w !in players;
    }
  }

  /** Past the emptiness check, repeated players are rejected. */
  lemma SettlementDuplicatePlayers(players: seq<string>, cardPrice: int, lineBonus: int, lineWinner: string,
                                   cardWinners: seq<string>)
    requires cardPrice >= 0 && lineBonus >= 0 && lineWinner in players && cardWinners != []
    requires !Distinct(players)
    ensures SettlementOf(players, cardPrice, lineBonus, lineWinner, cardWinners) == Err(DuplicatePlayers)
  {
    DedupeLength(players);
  }

  /** Past the other checks, a card winner outside the roster is rejected. */
  lemma SettlementUnknownCardWinner(players: seq<string>, cardPrice: int, lineBonus: int, lineWinner: string,
                                    cardWinners: seq<string>, i: nat)
    requires cardPrice >= 0 && lineBonus >= 0 && lineWinner in players && Distinct(players)
    requires i < |cardWinners| && cardWinners[i] !in players
    ensures SettlementOf(players, cardPrice, lineBonus, lineWinner, cardWinners) == Err(UnknownCardWinners)
  {
    DedupeLength(players);
    assert cardWinners[i] in Dedupe(cardWinners);
  }

  /** Repeated card winners are dropped, not rejected: the result is that
      of the list without repeats. */
  lemma SettlementIgnoresRepeatedWinners(players: seq<string>, cardPrice: int, lineBonus: int, lineWinner: string,
                                         cardWinners: seq<string>)
    ensures SettlementOf(players, cardPrice, lineBonus, lineWinner, cardWinners) ==
            SettlementOf(players, cardPrice, lineBonus, lineWinner, Dedupe(cardWinners))
  {
    DedupeIdempotent(cardWinners);
    if cardWinners != [] {
      assert cardWinners[0] in Dedupe(cardWinners);
    }
  }

  /** Every player pays the card price; the line winner collects
      `(N - 1) * bonus` and every other player pays `bonus`; each card winner
      gets the integer share of the pot, and some one kopeck more. */
  lemma SettlementNets(players: seq<string>, cardPrice: int, lineBonus: int, lineWinner: string,
                       cardWinners: seq<string>, p: string)
    requires SettlementOf(players, cardPrice, lineBonus, lineWinner, cardWinners).Ok? && p in players
    ensures var winners := Dedupe(cardWinners);
            var pot := |players| * cardPrice;
            var n := SettlementOf(players, cardPrice, lineBonus, lineWinner, cardWinners).value.netByPlayer;
            var extra := Extra(players, winners, pot % |winners|, p);
            Get(n, p) == -cardPrice + (if p == lineWinner then (|players| - 1) * lineBonus else -lineBonus) +
                         (if p in cardWinners then pot / |winners| else 0) + extra &&
            (extra == 0 || extra == 1) && (extra == 1 ==> p in cardWinners)
  {
    DedupeLength(players);
  }

  /** The remainder kopecks go to card winners in `players` order: a card
      winner earlier in the roster gets one whenever a later one does. */
  lemma RemainderInPlayerOrder(players: seq<string>, winners: seq<string>, remainder: int, i: nat, j: nat)
    requires Distinct(players) && i < j < |players| && players[i] in winners
    requires Extra(players, winners, remainder, players[j]) == 1
    ensures Extra(players, winners, remainder, players[i]) == 1
  {
    ExtraAt(players, winners, remainder, i);
    ExtraAt(players, winners, remainder, j);
    RankMonotone(players, winners, i + 1, j);
  }

  /** Exactly `remainder` kopecks are handed out when it is below the
      number of card winners. */
  lemma RemainderCount(players: seq<string>, winners: seq<string>, remainder: int)
    requires Distinct(players) && Distinct(winners) && 0 <= remainder < |winners|
    requires forall i :: 0 <= i < |winners| ==> winners[i] in players
    ensures SumOf(players, q => Extra(players, winners, remainder, q)) == remainder
  {
    assert players[..|players|] == players;
    ExtraSum(players, winners, remainder, |players|);
    WinnersCounted(players, winners);
  }

  /** A successful settlement is zero-sum and its transfers are what
      `calculate_transfers` returns for its nets. */
  lemma SettlementZeroSum(players: seq<string>, cardPrice: int, lineBonus: int, lineWinner: string,
                          cardWinners: seq<string>)
    requires SettlementOf(players, cardPrice, lineBonus, lineWinner, cardWinners).Ok?
    ensures var s := SettlementOf(players, cardPrice, lineBonus, lineWinner, cardWinners).value;
            WellFormed(s.netByPlayer) && Balance(s.netByPlayer) == 0 &&
            TransfersOf(s.netByPlayer) == Ok(s.transfers)
  {
    SettlementSucceeds(players, cardPrice, lineBonus, lineWinner, cardWinners);
    DedupeLength(players);
    var winners := Dedupe(cardWinners);
    forall i | 0 <= i < |winners| ensures winners[i] in players {
    }
    SettlementBalanced(players, cardPrice, lineBonus, lineWinner, winners);
    TransfersOfBalanced(SettlementNet(players, cardPrice, lineBonus, lineWinner, winners));
  }

  /** On a zero-sum net every creditor receives its net and every debtor pays
      its debt, so received minus paid is every balance. */
  lemma SortedTransfersSettle(n: Net, p: string)
    requires WellFormed(n) && Balance(n) == 0
    ensures TransfersOf(n).Ok?
    ensures var ts := TransfersOf(n).value;
            Received(ts, p) == (if Get(n, p) > 0 then Get(n, p) else 0) &&
            Paid(ts, p) == (if Get(n, p) < 0 then -Get(n, p) else 0) &&
            Received(ts, p) - Paid(ts, p) == Get(n, p)
  {
    TransfersOfBalanced(n);
    SortedPlanSettles(n, p);
    var items := Items(n);
    AmountInItems(n, p);
    AmountInCreditors(items, p);
    AmountInDebtors(items, p);
  }

  /** On a zero-sum net the sorted sweep pays every credit and collects
      every debt in full. */
  lemma SortedPlanSettles(n: Net, p: string)
    requires WellFormed(n) && Balance(n) == 0
    ensures var ts, items := SortedPlan(n).transfers, Items(n);
            Received(ts, p) == AmountIn(Creditors(items), p) && Paid(ts, p) == AmountIn(Debtors(items), p)
  {
    var items := Items(n);
    var cs, ds := Creditors(items), Debtors(items);
    SortByNameKeeps(cs, p);
    SortByNameKeeps(ds, p);
    SumCreditorsDebtors(items);
    SweepSettles(SortByName(cs), SortByName(ds), p);
  }

  /** Every planned transfer is positive and goes from a player with a
      negative net to one with a positive net. */
  lemma SortedTransferParties(n: Net, i: nat)
    requires WellFormed(n) && i < |SortedPlan(n).transfers|
    ensures var t := SortedPlan(n).transfers[i];
            t.amount > 0 && Get(n, t.from) < 0 && Get(n, t.to) > 0
  {
    var items := Items(n);
    var cs, ds := Creditors(items), Debtors(items);
    var t := SortedPlan(n).transfers[i];
    SortByNameKeeps(cs, t.to);
    SortByNameKeeps(ds, t.from);
    SweepListed(SortByName(cs), SortByName(ds), i);
    ListedPositive(SortByName(cs), t.to);
    ListedPositive(SortByName(ds), t.from);
    AmountInItems(n, t.to);
    AmountInItems(n, t.from);
    AmountInCreditors(items, t.to);
    AmountInDebtors(items, t.from);
  }

  /** In a list sorted by name, a name at a later position is not smaller. */
  lemma {:induction false} SortedNamesOrder(es: seq<Entry<string>>, i: nat, j: nat)
    requires SortedByName(es) && i <= j < |es|
    ensures LexLeq(es[i].name, es[j].name)
    decreases j
  {
    if i == j {
      LexLeqReflexive(es[i].name);
    } else {
      SortedNamesOrder(es, i, j - 1);
      LexLeqTransitive(es[i].name, es[j - 1].name, es[j].name);
    }
  }

  /** Creditors are paid, and debtors pay, in name order: from one transfer
      to the next neither name goes back. */
  lemma SortedTransfersByName(n: Net, i: nat)
    requires WellFormed(n) && 0 < i < |SortedPlan(n).transfers|
    ensures var ts := SortedPlan(n).transfers;
            LexLeq(ts[i - 1].to, ts[i].to) && LexLeq(ts[i - 1].from, ts[i].from)
  {
    var items := Items(n);
    var cs, ds := SortByName(Creditors(items)), SortByName(Debtors(items));
    SortByNameKeeps(Creditors(items), "");
    SortByNameKeeps(Debtors(items), "");
    var ts := SortedPlan(n).transfers;
    SweepCreditorOrder(cs, ds, i);
    SweepDebtorOrder(cs, ds, i);
    if ts[i - 1].to == ts[i].to {
      LexLeqReflexive(ts[i].to);
    } else {
      var p :| Neighbours(cs, p, ts[i - 1].to, ts[i].to);
    }
    if ts[i - 1].from == ts[i].from {
      LexLeqReflexive(ts[i].from);
    } else {
      var p :| Neighbours(ds, p, ts[i - 1].from, ts[i].from);
    }
  }
}
