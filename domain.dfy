/** The net-balance calculation and transfer planning of app/domain.py.
    `NetOf` states in closed form what `calculate_net` computes, and the loop
    method `CalculateNet` is proved to compute it; `BuildTransfers` is the
    two-pointer loop of `build_transfers`, proved to emit the transfers of
    the reference sweep `Ledger.Sweep`. */
module Domain {
  import opened Wrappers
  import opened Seqs
  import opened Text
  import opened Validation
  import opened Ledger

  /** A game event of app/domain.py: its type and the players it names. */
  datatype GameEvent = GameEvent(eventType: GameEventType, players: seq<string>)

  /** The frozen dataclass constructor with its `__post_init__` check. */
  function NewGameEvent(eventType: GameEventType, players: seq<string>): (r: Result<GameEvent, DomainError>)
    ensures r.Ok? <==> players != []
    ensures r.Ok? ==> r.value.eventType == eventType && r.value.players == players
    ensures r.Err? ==> r.error == EmptyEvent
  {
    if players == [] then Err(EmptyEvent) else Ok(GameEvent(eventType, players))
  }

  /** Index of the first element of `xs` that is not in `pool`, or `|xs|`. */
  function FirstMissing<T(==)>(xs: seq<T>, pool: seq<T>): (k: nat)
    ensures k <= |xs|
    ensures forall j :: 0 <= j < k ==> xs[j] in pool
    ensures k < |xs| ==> xs[k] !in pool
  {
    if xs == [] then 0
    else if xs[0] !in pool then 0
    else 1 + FirstMissing(xs[1..], pool)
  }

  /** The first missing element is the only one with every element before
      it present. */
  lemma FirstMissingAt<T>(xs: seq<T>, pool: seq<T>, i: nat)
    requires i <= |xs| && forall j :: 0 <= j < i ==> xs[j] in pool
    requires i < |xs| ==> xs[i] !in pool
    ensures FirstMissing(xs, pool) == i
  {
  }

  // ----- the closed form of calculate_net -----

  /** What one line win of `w` does to the net of `p`: the winner collects
      the bonus from each of the other `N - 1` seats, and every seat held by
      anyone else pays it once. */
  function LineDelta(players: seq<string>, bonus: int, w: string, p: string): int {
    if p == w then bonus * (|players| - 1) else -(bonus * Count(players, p))
  }

  /** The line bonuses `p` has collected or paid over `lineWinners`. */
  function LineGain(players: seq<string>, bonus: int, lineWinners: seq<string>, p: string): int {
    if lineWinners == [] then 0
    else
      LineGain(players, bonus, lineWinners[..|lineWinners| - 1], p) +
      LineDelta(players, bonus, lineWinners[|lineWinners| - 1], p)
  }

  /** The card payout of the winner at position `idx` of `k` winners: the
      integer share of the pot plus one kopeck for the first `pot mod k`. */
  function Payout(pot: int, k: nat, idx: nat): int
    requires k > 0
  {
    pot / k + (if idx < pot % k then 1 else 0)
  }

  /** What `p` has received from the first `m` card payouts. */
  function CardShare(pot: int, winners: seq<string>, m: nat, p: string): int
    requires m <= |winners|
  {
    if m == 0 then 0
    else CardShare(pot, winners, m - 1, p) + (if winners[m - 1] == p then Payout(pot, |winners|, m - 1) else 0)
  }

  /** The final net of `p`: the card price paid, the line bonuses, and the
      card payouts to the deduplicated winners `ordered`. */
  function NetAmount(players: seq<string>, settings: GameSettings, lineWinners: seq<string>,
                     ordered: seq<string>, p: string): int
  {
    -settings.cardPrice + LineGain(players, settings.lineBonus, lineWinners, p) +
    CardShare(settings.cardPrice * |players|, ordered, |ordered|, p)
  }

  /** What `calculate_net` returns or raises, checks in the source's order.
      The keys are the players in first-seat order, as the dict
      comprehension inserts them. */
  function NetOf(players: seq<string>, settings: GameSettings, lineWinners: seq<string>,
                 cardWinners: seq<string>): (r: Result<Net, DomainError>)
    ensures |players| < 2 ==> r == Err(TooFewPlayers)
    ensures |players| >= 2 && cardWinners == [] ==> r == Err(NoCardWinner)
    ensures r.Ok? ==> WellFormed(r.value) && r.value.keys == Dedupe(players)
  {
    if |players| < 2 then Err(TooFewPlayers)
    else if cardWinners == [] then Err(NoCardWinner)
    else
      var u := FirstMissing(lineWinners, players);
      if u < |lineWinners| then Err(UnknownLineWinner(lineWinners[u]))
      else match UniqueNames(cardWinners)
        case Err(e) => Err(e)
        case Ok(ordered) =>
          if |ordered| != |cardWinners| then Err(DuplicateCardWinners)
          else
            var v := FirstMissing(ordered, players);
            if v < |ordered| then Err(UnknownCardWinner(ordered[v]))
            else Ok(NetValue(players, settings, lineWinners, ordered))
  }

  /** The net dict of a game that passed every check. */
  function NetValue(players: seq<string>, settings: GameSettings, lineWinners: seq<string>,
                    ordered: seq<string>): (n: Net)
    ensures WellFormed(n) && n.keys == Dedupe(players)
    ensures forall p :: p in players ==> Get(n, p) == NetAmount(players, settings, lineWinners, ordered, p)
  {
    var n := Net(Dedupe(players), map p | p in players :: NetAmount(players, settings, lineWinners, ordered, p));
    assert WellFormed(n) by {
      forall p | p in n.amounts ensures p in n.keys {
        var i :| 0 <= i < |players| && players[i] == p;
      }
    }
    n
  }

  /** `calculate_net` succeeds exactly when there are two seats, a card
      winner, only known line winners, no blank card winner, no card winner
      named twice after trimming, and only known card winners. */
  lemma NetOfSucceeds(players: seq<string>, settings: GameSettings, lineWinners: seq<string>,
                      cardWinners: seq<string>)
    ensures NetOf(players, settings, lineWinners, cardWinners).Ok? <==>
              |players| >= 2 && cardWinners != [] &&
              (forall i :: 0 <= i < |lineWinners| ==> lineWinners[i] in players) &&
              NoBlank(cardWinners) && Distinct(StripAll(cardWinners)) &&
              (forall i :: 0 <= i < |cardWinners| ==> Strip(cardWinners[i]) in players)
  {
    if NoBlank(cardWinners) {
      var ordered := UniqueNames(cardWinners).value;
      DedupeLength(StripAll(cardWinners));
      var v := FirstMissing(ordered, players);
      if v < |ordered| {
        var j :| 0 <= j < |cardWinners| && StripAll(cardWinners)[j] == ordered[v];
      }
    }
  }

  /** Which error is raised: the first unknown line winner, then the first
      duplicate-free card winner that is not a player. */
  lemma NetOfUnknownWinner(players: seq<string>, settings: GameSettings, lineWinners: seq<string>,
                           cardWinners: seq<string>, i: nat)
    requires |players| >= 2 && cardWinners != []
    requires i < |lineWinners| && lineWinners[i] !in players
    requires forall j :: 0 <= j < i ==> lineWinners[j] in players
    ensures NetOf(players, settings, lineWinners, cardWinners) == Err(UnknownLineWinner(lineWinners[i]))
  {
  }

  lemma NetOfUnknownCardWinner(players: seq<string>, settings: GameSettings, lineWinners: seq<string>,
                               cardWinners: seq<string>, i: nat)
    requires |players| >= 2 && cardWinners != []
    requires forall j :: 0 <= j < |lineWinners| ==> lineWinners[j] in players
    requires NoBlank(cardWinners) && Distinct(StripAll(cardWinners))
    requires i < |cardWinners| && Strip(cardWinners[i]) !in players
    requires forall j :: 0 <= j < i ==> Strip(cardWinners[j]) in players
    ensures NetOf(players, settings, lineWinners, cardWinners) == Err(UnknownCardWinner(Strip(cardWinners[i])))
  {
    var ordered := StripAll(cardWinners);
    FirstMissingAt(lineWinners, players, |lineWinners|);
    DedupeOfDistinct(ordered);
    FirstMissingAt(ordered, players, i);
  }

  /** A repeated card winner is rejected once the line winners are known
      and no card winner is blank. */
  lemma NetOfDuplicateCardWinner(players: seq<string>, settings: GameSettings, lineWinners: seq<string>,
                                 cardWinners: seq<string>)
    requires |players| >= 2 && cardWinners != []
    requires forall j :: 0 <= j < |lineWinners| ==> lineWinners[j] in players
    requires NoBlank(cardWinners) && !Distinct(StripAll(cardWinners))
    ensures NetOf(players, settings, lineWinners, cardWinners) == Err(DuplicateCardWinners)
  {
    DedupeLength(StripAll(cardWinners));
  }

  /** On success every player's net is its closed-form amount. */
  lemma NetOfAmounts(players: seq<string>, settings: GameSettings, lineWinners: seq<string>,
                     cardWinners: seq<string>, p: string)
    requires NetOf(players, settings, lineWinners, cardWinners).Ok? && p in players
    ensures UniqueNames(cardWinners).Ok?
    ensures Get(NetOf(players, settings, lineWinners, cardWinners).value, p) ==
              NetAmount(players, settings, lineWinners, UniqueNames(cardWinners).value, p)
  {
  }

  /** Each line-winner occurrence, repeats included, adds `bonus * (N - 1)`
      to the winner and takes `bonus` from each seat of every other player. */
  lemma {:induction false} LineGainClosedForm(players: seq<string>, bonus: int, lineWinners: seq<string>, p: string)
    ensures LineGain(players, bonus, lineWinners, p) ==
              Count(lineWinners, p) * (bonus * (|players| - 1)) +
              (|lineWinners| - Count(lineWinners, p)) * -(bonus * Count(players, p))
  {
    if lineWinners != [] {
      var init := lineWinners[..|lineWinners| - 1];
      LineGainClosedForm(players, bonus, init, p);
      var c, a, b := Count(init, p), bonus * (|players| - 1), -(bonus * Count(players, p));
      assert (c + 1) * a == c * a + a;
      assert (|init| + 1 - c) * b == (|init| - c) * b + b;
    }
  }

  /** With distinct players a line win moves no money in or out. */
  lemma LineDeltaSum(players: seq<string>, bonus: int, w: string)
    requires Distinct(players) && w in players
    ensures SumOf(players, q => LineDelta(players, bonus, w, q)) == 0
  {
    var n := |players|;
    var top := q => if q == w then bonus * n else 0;
    var flat := q => -bonus;
    forall q | q in players ensures LineDelta(players, bonus, w, q) == top(q) + flat(q) {
      if q != w { CountDistinct(players, q); }
    }
    SumOfAdd(players, top, flat, q => LineDelta(players, bonus, w, q));
    SumOfSingle(players, top, w);
    SumOfConst(players, flat, -bonus);
    assert top(w) == bonus * n && n * -bonus == -(bonus * n);
  }

  lemma {:induction false} LineGainSum(players: seq<string>, bonus: int, lineWinners: seq<string>)
    requires Distinct(players) && forall i :: 0 <= i < |lineWinners| ==> lineWinners[i] in players
    ensures SumOf(players, q => LineGain(players, bonus, lineWinners, q)) == 0
  {
    if lineWinners == [] {
      SumOfConst(players, q => LineGain(players, bonus, lineWinners, q), 0);
    } else {
      var init, w := lineWinners[..|lineWinners| - 1], lineWinners[|lineWinners| - 1];
      LineGainSum(players, bonus, init);
      LineDeltaSum(players, bonus, w);
      SumOfAdd(players, q => LineGain(players, bonus, init, q), q => LineDelta(players, bonus, w, q),
               q => LineGain(players, bonus, lineWinners, q));
    }
  }

  /** Among distinct card winners the one at index `idx` receives
      `pot div k`, plus one kopeck exactly when `idx < pot mod k`; anyone
      else receives nothing. */
  lemma {:induction false} CardShareOf(pot: int, winners: seq<string>, m: nat, p: string)
    requires Distinct(winners) && m <= |winners|
    ensures p in winners[..m] ==> CardShare(pot, winners, m, p) == Payout(pot, |winners|, IndexOf(winners, p))
    ensures p !in winners[..m] ==> CardShare(pot, winners, m, p) == 0
  {
    if m > 0 {
      CardShareOf(pot, winners, m - 1, p);
      assert winners[..m] == winners[..m - 1] + [winners[m - 1]];
      if winners[m - 1] == p {
        IndexOfDistinct(winners, m - 1);
      } else if p in winners[..m - 1] {
        var j :| 0 <= j < m - 1 && winners[j] == p;
        IndexOfDistinct(winners, j);
      }
    }
  }

  /** One more payout adds a share and, below the remainder, a kopeck. */
  lemma PayoutStep(pot: int, k: nat, m: nat)
    requires k > 0 && 0 < m
    ensures (m - 1) * (pot / k) + (if m - 1 < pot % k then m - 1 else pot % k) + Payout(pot, k, m - 1) ==
              m * (pot / k) + (if m < pot % k then m else pot % k)
  {
    assert m * (pot / k) == (m - 1) * (pot / k) + pot / k;
  }

  /** The per-index payouts of the first `m` winners add up to `m` shares
      and one kopeck for each of them below the remainder. */
  lemma {:induction false} CardShareSum(pot: int, players: seq<string>, winners: seq<string>, m: nat)
    requires Distinct(players) && winners != [] && m <= |winners|
    requires forall i :: 0 <= i < |winners| ==> winners[i] in players
    ensures SumOf(players, q => CardShare(pot, winners, m, q)) ==
              m * (pot / |winners|) + (if m < pot % |winners| then m else pot % |winners|)
  {
    var f := q => CardShare(pot, winners, m, q);
    if m == 0 {
      SumOfConst(players, f, 0);
    } else {
      var k := |winners|;
      CardShareSum(pot, players, winners, m - 1);
      var w := winners[m - 1];
      var g := q => CardShare(pot, winners, m - 1, q);
      var h := q => if q == w then Payout(pot, k, m - 1) else 0;
      SumOfAdd(players, g, h, f);
      SumOfSingle(players, h, w);
      PayoutStep(pot, k, m);
    }
  }

  /** All card payouts together are the pot. */
  lemma CardShareTotal(pot: int, players: seq<string>, winners: seq<string>)
    requires Distinct(players) && winners != []
    requires forall i :: 0 <= i < |winners| ==> winners[i] in players
    ensures SumOf(players, q => CardShare(pot, winners, |winners|, q)) == pot
  {
    CardShareSum(pot, players, winners, |winners|);
  }

  /** Over distinct players the card prices and line bonuses add up to
      minus the pot. */
  lemma StakeSum(players: seq<string>, price: int, bonus: int, lineWinners: seq<string>)
    requires Distinct(players)
    requires forall i :: 0 <= i < |lineWinners| ==> lineWinners[i] in players
    ensures SumOf(players, q => -price + LineGain(players, bonus, lineWinners, q)) == -(price * |players|)
  {
    var stake := q => -price;
    SumOfAdd(players, stake, q => LineGain(players, bonus, lineWinners, q),
             q => -price + LineGain(players, bonus, lineWinners, q));
    SumOfConst(players, stake, -price);
    LineGainSum(players, bonus, lineWinners);
    NegatedProduct(|players|, price);
  }

  lemma NegatedProduct(n: int, c: int)
    ensures n * -c == -(c * n)
  {
  }

  /** Over distinct players, closed-form nets add up to zero. */
  lemma NetAmountSum(players: seq<string>, settings: GameSettings, lineWinners: seq<string>, ordered: seq<string>)
    requires Distinct(players) && ordered != []
    requires forall i :: 0 <= i < |lineWinners| ==> lineWinners[i] in players
    requires forall i :: 0 <= i < |ordered| ==> ordered[i] in players
    ensures SumOf(players, q => NetAmount(players, settings, lineWinners, ordered, q)) == 0
  {
    var price, bonus := settings.cardPrice, settings.lineBonus;
    var pot := price * |players|;
    SumOfAdd(players, q => -price + LineGain(players, bonus, lineWinners, q),
             q => CardShare(pot, ordered, |ordered|, q),
             q => NetAmount(players, settings, lineWinners, ordered, q));
    StakeSum(players, price, bonus, lineWinners);
    CardShareTotal(pot, players, ordered);
  }

  /** With distinct players the nets sum to exactly zero: the pot is the
      card prices, paid out in full, and line bonuses only move money. */
  lemma NetZeroSum(players: seq<string>, settings: GameSettings, lineWinners: seq<string>,
                   cardWinners: seq<string>)
    requires NetOf(players, settings, lineWinners, cardWinners).Ok? && Distinct(players)
    ensures Balance(NetOf(players, settings, lineWinners, cardWinners).value) == 0
  {
    var n := NetOf(players, settings, lineWinners, cardWinners).value;
    var ordered := UniqueNames(cardWinners).value;
    NetOfKnownWinners(players, settings, lineWinners, cardWinners);
    DedupeOfDistinct(players);
    BalanceSumOf(n);
    SumOfExt(players, q => Get(n, q), q => NetAmount(players, settings, lineWinners, ordered, q));
    NetAmountSum(players, settings, lineWinners, ordered);
  }

  /** On success all winners are players and the card winners are not empty. */
  lemma NetOfKnownWinners(players: seq<string>, settings: GameSettings, lineWinners: seq<string>,
                          cardWinners: seq<string>)
    requires NetOf(players, settings, lineWinners, cardWinners).Ok?
    ensures UniqueNames(cardWinners).Ok? && UniqueNames(cardWinners).value != []
    ensures forall i :: 0 <= i < |lineWinners| ==> lineWinners[i] in players
    ensures var ordered := UniqueNames(cardWinners).value;
            forall i :: 0 <= i < |ordered| ==> ordered[i] in players
    ensures forall p :: p in players ==>
              Get(NetOf(players, settings, lineWinners, cardWinners).value, p) ==
              NetAmount(players, settings, lineWinners, UniqueNames(cardWinners).value, p)
  {
  }

  // ----- the loops of calculate_net -----

  /** The nets after the card prices and the line wins `lineWinners`. */
  function Staked(players: seq<string>, price: int, bonus: int, lineWinners: seq<string>): map<string, int> {
    map p | p in players :: -price + LineGain(players, bonus, lineWinners, p)
  }

  /** What the seats of `seats` have paid for a line win of `w` so far,
      counted for player `p`. */
  function Charged(seats: seq<string>, bonus: int, w: string, p: string): int {
    if seats == [] then 0
    else Charged(seats[..|seats| - 1], bonus, w, p) + (if seats[|seats| - 1] == p && p != w then bonus else 0)
  }

  /** Once every seat has paid, each seat of a non-winner has paid once. */
  lemma {:induction false} ChargedAll(seats: seq<string>, bonus: int, w: string, p: string)
    ensures Charged(seats, bonus, w, p) == if p == w then 0 else bonus * Count(seats, p)
  {
    if seats != [] {
      var init := seats[..|seats| - 1];
      ChargedAll(init, bonus, w, p);
      if p != w && seats[|seats| - 1] == p {
        var c := Count(init, p);
        assert Count(seats, p) == c + 1;
        assert bonus * (c + 1) == bonus * c + bonus;
      }
    }
  }

  /** The nets part-way through charging line win `w`: the seats before `j`
      have paid. */
  function Charging(players: seq<string>, price: int, bonus: int, lineWinners: seq<string>, w: string, j: nat): map<string, int>
    requires j <= |players|
  {
    map p | p in players :: -price + LineGain(players, bonus, lineWinners, p) - Charged(players[..j], bonus, w, p)
  }

  /** The nets after the first `m` card payouts. */
  function Paying(players: seq<string>, price: int, bonus: int, lineWinners: seq<string>,
                  pot: int, winners: seq<string>, m: nat): map<string, int>
    requires m <= |winners|
  {
    map p | p in players :: -price + LineGain(players, bonus, lineWinners, p) + CardShare(pot, winners, m, p)
  }

  lemma StakedStart(players: seq<string>, price: int, bonus: int)
    ensures Staked(players, price, bonus, []) == map p | p in players :: -price
  {
  }

  lemma ChargingStart(players: seq<string>, price: int, bonus: int, lineWinners: seq<string>, w: string)
    ensures Charging(players, price, bonus, lineWinners, w, 0) == Staked(players, price, bonus, lineWinners)
  {
    assert players[..0] == [];
  }

  /** Seat `j` pays the bonus unless it is the winner's. */
  lemma ChargingStep(players: seq<string>, price: int, bonus: int, lineWinners: seq<string>, w: string, j: nat)
    requires j < |players|
    ensures var m, q := Charging(players, price, bonus, lineWinners, w, j), players[j];
            q in m &&
            Charging(players, price, bonus, lineWinners, w, j + 1) == if q != w then m[q := m[q] - bonus] else m
  {
    assert players[..j + 1][..j] == players[..j];
  }

  /** After every seat has paid, the winner collects `bonus * (N - 1)`. */
  lemma ChargingEnd(players: seq<string>, price: int, bonus: int, lineWinners: seq<string>, i: nat)
    requires i < |lineWinners| && lineWinners[i] in players
    ensures var w := lineWinners[i];
            var m := Charging(players, price, bonus, lineWinners[..i], w, |players|);
            w in m &&
            m[w := m[w] + bonus * (|players| - 1)] == Staked(players, price, bonus, lineWinners[..i + 1])
  {
    assert lineWinners[..i + 1][..i] == lineWinners[..i];
    assert players[..|players|] == players;
    var w := lineWinners[i];
    var m := Charging(players, price, bonus, lineWinners[..i], w, |players|);
    var m1 := Staked(players, price, bonus, lineWinners[..i + 1]);
    forall p | p in players ensures m[w := m[w] + bonus * (|players| - 1)][p] == m1[p] {
      ChargedAll(players, bonus, w, p);
    }
    assert m[w := m[w] + bonus * (|players| - 1)] == m1;
  }

  lemma PayingStart(players: seq<string>, price: int, bonus: int, lineWinners: seq<string>, pot: int, winners: seq<string>)
    ensures Paying(players, price, bonus, lineWinners, pot, winners, 0) == Staked(players, price, bonus, lineWinners)
  {
  }

  /** The winner at `idx` receives its share and, below the remainder, one
      kopeck more. */
  lemma PayingStep(players: seq<string>, price: int, bonus: int, lineWinners: seq<string>,
                   pot: int, winners: seq<string>, idx: nat)
    requires idx < |winners| && winners[idx] in players
    ensures var m, w := Paying(players, price, bonus, lineWinners, pot, winners, idx), winners[idx];
            w in m &&
            Paying(players, price, bonus, lineWinners, pot, winners, idx + 1) ==
              m[w := m[w] + pot / |winners| + (if idx < pot % |winners| then 1 else 0)]
  {
  }

  lemma PayingEnd(players: seq<string>, settings: GameSettings, lineWinners: seq<string>, winners: seq<string>)
    ensures Paying(players, settings.cardPrice, settings.lineBonus, lineWinners, settings.cardPrice * |players|,
                   winners, |winners|) ==
            map p | p in players :: NetAmount(players, settings, lineWinners, winners, p)
  {
  }

  /** One line win of `lineWinners[i]`: every seat that is not the
      winner's pays the bonus, then the winner collects `bonus * (N - 1)`. */
  method ChargeLineWin(players: seq<string>, price: int, bonus: int, lineWinners: seq<string>, i: nat,
                       net0: map<string, int>) returns (net: map<string, int>)
    requires i < |lineWinners| && lineWinners[i] in players
    requires net0 == Staked(players, price, bonus, lineWinners[..i])
    ensures net == Staked(players, price, bonus, lineWinners[..i + 1])
  {
    var winner := lineWinners[i];
    net := net0;
    ChargingStart(players, price, bonus, lineWinners[..i], winner);
    for j := 0 to |players|
      invariant net == Charging(players, price, bonus, lineWinners[..i], winner, j)
    {
      ChargingStep(players, price, bonus, lineWinners[..i], winner, j);
      var player := players[j];
      if player != winner {
        net := net[player := net[player] - bonus];
      }
    }
    ChargingEnd(players, price, bonus, lineWinners, i);
    net := net[winner := net[winner] + bonus * (|players| - 1)];
  }

  /** The line-bonus loop of `calculate_net` over a net holding the card
      prices, raising on an unknown winner. */
  method ChargeLineWinners(players: seq<string>, price: int, bonus: int, lineWinners: seq<string>)
    returns (r: Result<map<string, int>, DomainError>)
    ensures var u := FirstMissing(lineWinners, players);
            r == if u < |lineWinners| then Err(UnknownLineWinner(lineWinners[u]))
                 else Ok(Staked(players, price, bonus, lineWinners))
  {
    var net := map p | p in players :: -price;
    StakedStart(players, price, bonus);
    for i := 0 to |lineWinners|
      invariant net == Staked(players, price, bonus, lineWinners[..i])
      invariant forall j :: 0 <= j < i ==> lineWinners[j] in players
    {
      var winner := lineWinners[i];
      if winner !in net {
        FirstMissingAt(lineWinners, players, i);
        return Err(UnknownLineWinner(winner));
      }
      net := ChargeLineWin(players, price, bonus, lineWinners, i, net);
    }
    assert lineWinners[..|lineWinners|] == lineWinners;
    FirstMissingAt(lineWinners, players, |lineWinners|);
    return Ok(net);
  }

  /** The card-payout loop of `calculate_net`: the winner at `idx` receives
      `share` plus one kopeck while `idx < remainder`; an unknown winner is
      raised. */
  method PayCardWinners(players: seq<string>, price: int, bonus: int, lineWinners: seq<string>,
                        pot: int, winners: seq<string>, net0: map<string, int>)
    returns (r: Result<map<string, int>, DomainError>)
    requires winners != [] && net0 == Staked(players, price, bonus, lineWinners)
    ensures var v := FirstMissing(winners, players);
            r == if v < |winners| then Err(UnknownCardWinner(winners[v]))
                 else Ok(Paying(players, price, bonus, lineWinners, pot, winners, |winners|))
  {
    var net := net0;
    var share, remainder := pot / |winners|, pot % |winners|;
    PayingStart(players, price, bonus, lineWinners, pot, winners);
    for idx := 0 to |winners|
      invariant net == Paying(players, price, bonus, lineWinners, pot, winners, idx)
      invariant forall j :: 0 <= j < idx ==> winners[j] in players
    {
      var winner := winners[idx];
      if winner !in net {
        FirstMissingAt(winners, players, idx);
        return Err(UnknownCardWinner(winner));
      }
      PayingStep(players, price, bonus, lineWinners, pot, winners, idx);
      net := net[winner := net[winner] + share + (if idx < remainder then 1 else 0)];
    }
    FirstMissingAt(winners, players, |winners|);
    return Ok(net);
  }

  /** `calculate_net`: the dict comprehension, the line-bonus loops and the
      card-payout loop, raising where the source raises. */
  method CalculateNet(players: seq<string>, settings: GameSettings, lineWinners: seq<string>,
                      cardWinners: seq<string>) returns (r: Result<Net, DomainError>)
    ensures r == NetOf(players, settings, lineWinners, cardWinners)
  {
    if |players| < 2 { return Err(TooFewPlayers); }
    if |cardWinners| == 0 { return Err(NoCardWinner); }
    var price, bonus := settings.cardPrice, settings.lineBonus;
    var staked := ChargeLineWinners(players, price, bonus, lineWinners);
    if staked.Err? { return Err(staked.error); }
    var pot := price * |players|;
    var ordered := UniquePreserveOrder(cardWinners);
    if ordered.Err? { return Err(ordered.error); }
    var winners := ordered.value;
    if |winners| != |cardWinners| { return Err(DuplicateCardWinners); }
    var paid := PayCardWinners(players, price, bonus, lineWinners, pot, winners, staked.value);
    if paid.Err? { return Err(paid.error); }
    PayingEnd(players, settings, lineWinners, winners);
    return Ok(Net(Dedupe(players), paid.value));
  }

  // ----- build_transfers -----

  /** The sweep `build_transfers` performs: creditors and debtors in the
      net's insertion order. */
  function PlanOf(n: Net): Plan<string>
    requires WellFormed(n)
  {
    Sweep(Creditors(Items(n)), Debtors(Items(n)))
  }

  /** `build_transfers`: the creditor and debtor lists in insertion order,
      swept by the two-pointer loop. */
  method BuildTransfers(net: Net) returns (transfers: seq<Transfer<string>>)
    requires WellFormed(net)
    ensures transfers == PlanOf(net).transfers
  {
    var creditors := Creditors(Items(net));
    var debtors := Debtors(Items(net));
    var creditorsDone, debtorsDone;
    transfers, creditorsDone, debtorsDone := SweepLoop(creditors, debtors);
  }

  // ----- what build_transfers guarantees -----

  /** On a zero-sum net every creditor receives exactly its net and every
      debtor pays exactly its debt, so received minus paid reproduces every
      balance. */
  lemma TransfersSettle(n: Net, p: string)
    requires WellFormed(n) && Balance(n) == 0
    ensures var ts := PlanOf(n).transfers;
            Received(ts, p) == (if Get(n, p) > 0 then Get(n, p) else 0) &&
            Paid(ts, p) == (if Get(n, p) < 0 then -Get(n, p) else 0) &&
            Received(ts, p) - Paid(ts, p) == Get(n, p)
  {
    var items := Items(n);
    SumCreditorsDebtors(items);
    SweepSettles(Creditors(items), Debtors(items), p);
    AmountInItems(n, p);
    AmountInCreditors(items, p);
    AmountInDebtors(items, p);
  }

  /** On a zero-sum net the total transferred is the total credit, which is
      also the total debt. */
  lemma TransfersVolume(n: Net)
    requires WellFormed(n) && Balance(n) == 0
    ensures Volume(PlanOf(n).transfers) == Sum(Creditors(Items(n))) == Sum(Debtors(Items(n)))
  {
    var items := Items(n);
    SumCreditorsDebtors(items);
    SweepVolume(Creditors(items), Debtors(items));
    SweepExhausts(Creditors(items), Debtors(items));
  }

  /** Every transfer is positive and goes from a player with a negative net
      to a player with a positive net. */
  lemma TransferParties(n: Net, i: nat)
    requires WellFormed(n) && i < |PlanOf(n).transfers|
    ensures var t := PlanOf(n).transfers[i];
            t.amount > 0 && Get(n, t.from) < 0 && Get(n, t.to) > 0
  {
    var items := Items(n);
    var cs, ds := Creditors(items), Debtors(items);
    var t := PlanOf(n).transfers[i];
    SweepListed(cs, ds, i);
    ListedPositive(cs, t.to);
    ListedPositive(ds, t.from);
    AmountInItems(n, t.to);
    AmountInItems(n, t.from);
    AmountInCreditors(items, t.to);
    AmountInDebtors(items, t.from);
  }

  /** Creditors are paid, and debtors pay, in the order the net lists them,
      and none is skipped: two consecutive transfers go to the same creditor
      or to the next one in the list, and come from the same debtor or from
      the next one. */
  lemma TransfersInListOrder(n: Net, i: nat)
    requires WellFormed(n) && 0 < i < |PlanOf(n).transfers|
    ensures PaidInOrder(PlanOf(n).transfers, Creditors(Items(n)), Debtors(Items(n)), i)
  {
    var cs, ds := Creditors(Items(n)), Debtors(Items(n));
    SweepCreditorOrder(cs, ds, i);
    SweepDebtorOrder(cs, ds, i);
  }

}
