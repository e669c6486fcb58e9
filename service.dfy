/** The game lifecycle of app/service.py: `LottoService` over a store of
    game records. The store is the part of app/repository.py the service
    relies on, held in memory: `create_game` hands out the next row id,
    `append_winners` extends one winner list, `finish_game` stamps the
    finish time, `save_result` stores the net and `get_result` reads it
    back ordered by player name. */
module Service {
  import opened Wrappers
  import opened Seqs
  import opened Text
  import opened Validation
  import opened Ledger
  import opened Domain
  import Game

  /** A row of the `games` table: the normalised roster, the prices, the
      winner lists as appended so far and the finish time once set. */
  datatype GameRecord = GameRecord(players: seq<string>, cardPrice: int, lineBonus: int,
                                   lineWinners: seq<string>, cardWinners: seq<string>,
                                   finishedAt: Option<Game.Timestamp>)

  /** The `{"game_id": ..., "net": ..., "transfers": ...}` reply. */
  datatype Settlement = Settlement(gameId: int, net: Net, transfers: seq<Transfer<string>>)

  /** What a stored record keeps true: a trimmed, duplicate-free roster of at
      least two, valid prices, and winner lists without repeats that name
      only players. */
  predicate RecordValid(g: GameRecord) {
    |g.players| >= 2 && Distinct(g.players) && (forall i :: 0 <= i < |g.players| ==> IsPlayerId(g.players[i])) &&
    g.cardPrice > 0 && g.lineBonus > 0 &&
    Distinct(g.lineWinners) && (forall i :: 0 <= i < |g.lineWinners| ==> g.lineWinners[i] in g.players) &&
    Distinct(g.cardWinners) && (forall i :: 0 <= i < |g.cardWinners| ==> g.cardWinners[i] in g.players)
  }

  // ----- start_game -----

  /** The roster `start_game` stores, or why it refuses: a blank name, fewer
      than two distinct names after trimming, or invalid settings. */
  function StartCheck(players: seq<string>, cardPrice: int, lineBonus: int): (r: Result<seq<string>, DomainError>)
    ensures r.Ok? <==> NoBlank(players) && |UniqueNames(players).value| >= 2 && cardPrice > 0 && lineBonus > 0
    ensures r.Ok? ==> r.value == UniqueNames(players).value
    ensures !NoBlank(players) ==> r == Err(BlankPlayerName)
    ensures NoBlank(players) && |UniqueNames(players).value| < 2 ==> r == Err(TooFewUniquePlayers)
    ensures NoBlank(players) && |UniqueNames(players).value| >= 2 && (cardPrice <= 0 || lineBonus <= 0) ==>
              r == Err(NewSettings(cardPrice, lineBonus).error)
  {
    match UniqueNames(players)
    case Err(e) => Err(e)
    case Ok(normalized) =>
      if |normalized| < 2 then Err(TooFewUniquePlayers)
      else match NewSettings(cardPrice, lineBonus)
        case Err(e) => Err(e)
        case Ok(_) => Ok(normalized)
  }

  /** The checks of `start_game` before the insert. */
  method CheckStart(players: seq<string>, cardPrice: int, lineBonus: int) returns (r: Result<seq<string>, DomainError>)
    ensures r == StartCheck(players, cardPrice, lineBonus)
  {
    var normalized := UniquePreserveOrder(players);
    if normalized.Err? {
      return Err(normalized.error);
    }
    if |normalized.value| < 2 {
      return Err(TooFewUniquePlayers);
    }
    var settings := NewSettings(cardPrice, lineBonus);
    if settings.Err? {
      return Err(settings.error);
    }
    return Ok(normalized.value);
  }

  /** The record `create_game` inserts: no winners yet, not finished. */
  function NewRecord(players: seq<string>, cardPrice: int, lineBonus: int): GameRecord {
    GameRecord(players, cardPrice, lineBonus, [], [], None)
  }

  /** A game `start_game` creates satisfies the record invariant, and its
      roster is the trimmed names without repeats in first-seen order. */
  lemma StartedRecordValid(players: seq<string>, cardPrice: int, lineBonus: int)
    requires StartCheck(players, cardPrice, lineBonus).Ok?
    ensures var roster := StartCheck(players, cardPrice, lineBonus).value;
            RecordValid(NewRecord(roster, cardPrice, lineBonus)) &&
            (forall i :: 0 <= i < |players| ==> Strip(players[i]) in roster) &&
            (forall i, j :: 0 <= i < j < |roster| ==>
               IndexOf(StripAll(players), roster[i]) < IndexOf(StripAll(players), roster[j]))
  {
    UniqueNamesOrder(players);
  }

  // ----- add_event -----

  /** The winner list an event of type `t` extends. */
  function ClosedBy(g: GameRecord, t: GameEventType): seq<string> {
    if t == LineClosed then g.lineWinners else g.cardWinners
  }

  /** The checks `add_event` runs on the deduplicated winners: every one is
      on the roster, and none has already closed the prize of type `t`
      (whose closers are `closed`). */
  function CheckWinners(players: seq<string>, closed: seq<string>, t: GameEventType,
                        winners: seq<string>): (r: Result<seq<string>, DomainError>)
    ensures r.Ok? <==> (forall w :: w in winners ==> w in players) && (forall w :: w in winners ==> w !in closed)
    ensures r.Ok? ==> r.value == winners
  {
    var u := FirstMissing(winners, players);
    if u < |winners| then Err(UnknownPlayer(winners[u]))
    else
      var duplicates := set w | w in winners && w in closed;
      if duplicates != {} then
        Err(if t == LineClosed then LineAlreadyClosed(duplicates) else CardAlreadyClosed(duplicates))
      else
        assert forall w :: w in winners ==> w !in closed by {
          forall w | w in winners ensures w !in closed {
            assert w in closed ==> w in duplicates;
          }
        }
        Ok(winners)
  }

  /** The winners `add_event` appends to a stored game, or why it refuses:
      the game is finished, a name is blank, a winner is not on the roster,
      or a winner has already closed the same kind of prize. */
  function EventWinners(g: GameRecord, event: Game.GameEvent): (r: Result<seq<string>, DomainError>)
    ensures g.finishedAt.Some? ==> r == Err(GameAlreadyFinished)
    ensures g.finishedAt.None? && !NoBlank(event.playerIds) ==> r == Err(BlankPlayerName)
    ensures g.finishedAt.None? && NoBlank(event.playerIds) ==>
              r == CheckWinners(g.players, ClosedBy(g, event.eventType), event.eventType, UniqueNames(event.playerIds).value)
  {
    if g.finishedAt.Some? then Err(GameAlreadyFinished)
    else match UniqueNames(event.playerIds)
      case Err(e) => Err(e)
      case Ok(winners) => CheckWinners(g.players, ClosedBy(g, event.eventType), event.eventType, winners)
  }

  /** An event is accepted exactly when the game is open, no name is blank,
      and every deduplicated winner is on the roster and has not closed the
      same prize before; the accepted winners are the deduplicated names. */
  lemma EventAccepted(g: GameRecord, event: Game.GameEvent)
    ensures EventWinners(g, event).Ok? <==>
              g.finishedAt.None? && NoBlank(event.playerIds) &&
              (forall w :: w in UniqueNames(event.playerIds).value ==> w in g.players) &&
              (forall w :: w in UniqueNames(event.playerIds).value ==> w !in ClosedBy(g, event.eventType))
    ensures EventWinners(g, event).Ok? ==> EventWinners(g, event).value == UniqueNames(event.playerIds).value
  {
  }

  /** The error names the first winner, in deduplicated order, that is not
      on the roster. */
  lemma EventUnknownPlayer(g: GameRecord, event: Game.GameEvent, i: nat)
    requires g.finishedAt.None? && NoBlank(event.playerIds)
    requires var ws := UniqueNames(event.playerIds).value;
             i < |ws| && ws[i] !in g.players && forall j :: 0 <= j < i ==> ws[j] in g.players
    ensures EventWinners(g, event) == Err(UnknownPlayer(UniqueNames(event.playerIds).value[i]))
  {
    FirstMissingAt(UniqueNames(event.playerIds).value, g.players, i);
  }

  /** A repeat closer is reported with every winner that repeats. */
  lemma EventAlreadyClosed(g: GameRecord, event: Game.GameEvent)
    requires g.finishedAt.None? && NoBlank(event.playerIds)
    requires forall w :: w in UniqueNames(event.playerIds).value ==> w in g.players
    requires var ws := UniqueNames(event.playerIds).value;
             exists w :: w in ws && w in ClosedBy(g, event.eventType)
    ensures var ws := UniqueNames(event.playerIds).value;
            var duplicates := set w | w in ws && w in ClosedBy(g, event.eventType);
            EventWinners(g, event) ==
              Err(if event.eventType == LineClosed then LineAlreadyClosed(duplicates) else CardAlreadyClosed(duplicates))
  {
    var ws := UniqueNames(event.playerIds).value;
    FirstMissingAt(ws, g.players, |ws|);
  }

  /** The validation part of `add_event` on a stored game: the finished
      check, `unique_preserve_order` on the event's ids, the loop over the
      winners looking for one off the roster, and the set intersection with
      the matching winner list. */
  method CheckEvent(game: GameRecord, event: Game.GameEvent) returns (r: Result<seq<string>, DomainError>)
    ensures r == EventWinners(game, event)
  {
    if game.finishedAt.Some? {
      return Err(GameAlreadyFinished);
    }
    var normalized := UniquePreserveOrder(event.playerIds);
    if normalized.Err? {
      return Err(normalized.error);
    }
    var closed := if event.eventType == LineClosed then game.lineWinners else game.cardWinners;
    r := CheckWinnersLoop(game.players, closed, event.eventType, normalized.value);
  }

  /** The roster loop and the repeat check of `add_event`. */
  method CheckWinnersLoop(players: seq<string>, closed: seq<string>, t: GameEventType,
                          winners: seq<string>) returns (r: Result<seq<string>, DomainError>)
    ensures r == CheckWinners(players, closed, t, winners)
  {
    for i := 0 to |winners|
      invariant forall j :: 0 <= j < i ==> winners[j] in players
    {
      if winners[i] !in players {
        FirstMissingAt(winners, players, i);
        return Err(UnknownPlayer(winners[i]));
      }
    }
    FirstMissingAt(winners, players, |winners|);
    var duplicates := (set w | w in winners) * (set w | w in closed);
    assert duplicates == set w | w in winners && w in closed;
    if duplicates != {} {
      return Err(if t == LineClosed then LineAlreadyClosed(duplicates) else CardAlreadyClosed(duplicates));
    }
    return Ok(winners);
  }

  /** `append_winners`: the list the event type names grows by `winners`. */
  function Appended(g: GameRecord, t: GameEventType, winners: seq<string>): GameRecord {
    if t == LineClosed then g.(lineWinners := g.lineWinners + winners)
    else g.(cardWinners := g.cardWinners + winners)
  }

  /** An accepted event appends exactly its deduplicated winners to the
      matching list, leaves the other list and the rest of the record alone,
      and keeps the record invariant. */
  lemma EventAppends(g: GameRecord, event: Game.GameEvent)
    requires RecordValid(g) && EventWinners(g, event).Ok?
    ensures var g1 := Appended(g, event.eventType, EventWinners(g, event).value);
            var ws := UniqueNames(event.playerIds).value;
            RecordValid(g1) &&
            ClosedBy(g1, event.eventType) == ClosedBy(g, event.eventType) + ws &&
            (event.eventType == LineClosed ==> g1.cardWinners == g.cardWinners) &&
            (event.eventType == CardClosed ==> g1.lineWinners == g.lineWinners) &&
            g1.players == g.players && g1.finishedAt == g.finishedAt
  {
    var ws := EventWinners(g, event).value;
    var old_ := ClosedBy(g, event.eventType);
    var both := old_ + ws;
    DistinctAppend(old_, ws);
    assert forall x :: x in ws ==> x in g.players;
    assert forall x :: x in old_ ==> x in g.players;
    assert forall i :: 0 <= i < |both| ==> both[i] in g.players by {
      forall i | 0 <= i < |both| ensures both[i] in g.players {
        assert both[i] in old_ || both[i] in ws;
      }
    }
  }

  // ----- finish_game -----

  /** The prices of a record as `GameSettings`. */
  function SettingsOf(g: GameRecord): GameSettings {
    GameSettings(g.cardPrice, g.lineBonus)
  }

  /** `calculate_net` on a stored game. */
  function RecordNet(g: GameRecord): Result<Net, DomainError> {
    NetOf(g.players, SettingsOf(g), g.lineWinners, g.cardWinners)
  }

  /** The net `finish_game` saves, or why it refuses: the game is finished,
      its prices are invalid, or `calculate_net` raises. */
  function FinishCheck(g: GameRecord): (r: Result<Net, DomainError>)
    ensures g.finishedAt.Some? ==> r == Err(GameAlreadyFinished)
    ensures g.finishedAt.None? && g.cardPrice > 0 && g.lineBonus > 0 ==> r == RecordNet(g)
    ensures g.finishedAt.None? && (g.cardPrice <= 0 || g.lineBonus <= 0) ==>
              r == Err(NewSettings(g.cardPrice, g.lineBonus).error)
  {
    if g.finishedAt.Some? then Err(GameAlreadyFinished)
    else match NewSettings(g.cardPrice, g.lineBonus)
      case Err(e) => Err(e)
      case Ok(settings) => NetOf(g.players, settings, g.lineWinners, g.cardWinners)
  }

  /** The checks and the `calculate_net` call of `finish_game`. */
  method CheckFinish(game: GameRecord) returns (r: Result<Net, DomainError>)
    ensures r == FinishCheck(game)
  {
    if game.finishedAt.Some? {
      return Err(GameAlreadyFinished);
    }
    var settings := NewSettings(game.cardPrice, game.lineBonus);
    if settings.Err? {
      return Err(settings.error);
    }
    r := CalculateNet(game.players, settings.value, game.lineWinners, game.cardWinners);
  }

  /** On a stored game that is not finished, `finish_game` fails only when
      nobody has closed a card; every other check of `calculate_net` is
      already ensured by `start_game` and `add_event`. The saved net sums
      to zero. */
  lemma FinishSucceeds(g: GameRecord)
    requires RecordValid(g) && g.finishedAt.None?
    ensures FinishCheck(g).Ok? <==> g.cardWinners != []
    ensures FinishCheck(g).Err? ==> FinishCheck(g) == Err(NoCardWinner)
    ensures FinishCheck(g).Ok? ==> Balance(FinishCheck(g).value) == 0 && FinishCheck(g).value.keys == g.players
  {
    var cw := g.cardWinners;
    assert StripAll(cw) == cw by {
      forall i | 0 <= i < |cw| ensures Strip(cw[i]) == cw[i] {
        var k := IndexOf(g.players, cw[i]);
        assert IsPlayerId(g.players[k]);
      }
    }
    assert NoBlank(cw);
    NetOfSucceeds(g.players, SettingsOf(g), g.lineWinners, cw);
    if cw != [] {
      NetZeroSum(g.players, SettingsOf(g), g.lineWinners, cw);
      DedupeOfDistinct(g.players);
    }
  }

  /** Once finished, a game refuses both another `finish_game` and any
      further event. */
  lemma FinishedRejects(g: GameRecord, t: Game.Timestamp, event: Game.GameEvent)
    ensures FinishCheck(g.(finishedAt := Some(t))) == Err(GameAlreadyFinished)
    ensures EventWinners(g.(finishedAt := Some(t)), event) == Err(GameAlreadyFinished)
  {
  }

  // ----- get_settlement -----

  /** Every sorted item is an item of the net. */
  lemma SortedItemsOf(n: Net)
    requires WellFormed(n)
    ensures var sorted := SortByName(Items(n));
            forall i :: 0 <= i < |sorted| ==> sorted[i].name in n.amounts && sorted[i].amount == n.amounts[sorted[i].name]
  {
    var items := Items(n);
    var sorted := SortByName(items);
    forall i | 0 <= i < |sorted|
      ensures sorted[i].name in n.amounts && sorted[i].amount == n.amounts[sorted[i].name]
    {
      assert sorted[i] in multiset(items);
      var j :| 0 <= j < |items| && items[j] == sorted[i];
    }
  }

  /** The sorted names are the keys, each once. */
  lemma SortedNamesOf(n: Net)
    requires WellFormed(n)
    ensures var keys := Names(SortByName(Items(n)));
            Distinct(keys) && forall p :: p in n.amounts ==> p in keys
  {
    var items := Items(n);
    var keys := Names(SortByName(items));
    assert Names(items) == n.keys;
    SortByNameKeeps(items, "");
    PermutationNames(items, SortByName(items));
    forall p | p in n.amounts ensures p in keys {
      assert p in multiset(n.keys);
    }
  }

  /** The sorted names with the same amounts form a well-formed dict. */
  lemma ByNameKeys(n: Net, r: Net)
    requires WellFormed(n) && r.keys == Names(SortByName(Items(n))) && r.amounts == n.amounts
    ensures WellFormed(r)
  {
    SortedItemsOf(n);
    SortedNamesOf(n);
  }

  /** Sorting the items by name keeps the net a well-formed dict with the
      same amounts whose items are the sorted items. */
  lemma ByNameWellFormed(n: Net, r: Net)
    requires WellFormed(n) && r.keys == Names(SortByName(Items(n))) && r.amounts == n.amounts
    ensures WellFormed(r) && Items(r) == SortByName(Items(n))
  {
    var sorted := SortByName(Items(n));
    ByNameKeys(n, r);
    SortedItemsOf(n);
    assert forall i :: 0 <= i < |sorted| ==> r.keys[i] == sorted[i].name;
    ItemsOfEntries(sorted, r);
  }

  /** Entries listed with the keys of a dict as their names, and its amounts
      as their amounts, are the items of that dict. */
  lemma ItemsOfEntries(es: seq<Entry<string>>, n: Net)
    requires WellFormed(n) && n.keys == Names(es)
    requires forall i :: 0 <= i < |es| ==> es[i].amount == n.amounts[n.keys[i]]
    ensures Items(n) == es
  {
    forall i | 0 <= i < |es| ensures Items(n)[i] == es[i] {
      assert n.keys[i] == es[i].name;
    }
  }

  /** What `get_result` returns for a saved net: its rows `ORDER BY player`,
      which (SQLite's binary collation on UTF-8 text) is code-point order of
      the names, collected back into a dict. */
  function ByName(n: Net): (r: Net)
    requires WellFormed(n)
    ensures WellFormed(r) && r.amounts == n.amounts
    ensures Items(r) == SortByName(Items(n))
    ensures forall i :: 0 < i < |r.keys| ==> LexLeq(r.keys[i - 1], r.keys[i])
    ensures Balance(r) == Balance(n)
  {
    var r := Net(Names(SortByName(Items(n))), n.amounts);
    ByNameWellFormed(n, r);
    SortByNameKeeps(Items(n), "");
    assert forall i :: 0 <= i < |r.keys| ==> r.keys[i] == Items(r)[i].name;
    r
  }

  /** The reply of `get_settlement`, or why it refuses: the game is unknown,
      or no net has been saved for it (an empty result dict). */
  function SettlementOf(games: map<int, GameRecord>, results: map<int, Net>, gameId: int): (r: Result<Settlement, DomainError>)
    requires forall id :: id in results ==> WellFormed(results[id])
    ensures gameId !in games ==> r == Err(GameNotFound)
    ensures gameId in games ==> (r.Ok? <==> gameId in results && results[gameId].keys != [])
    ensures r.Ok? ==> r.value.gameId == gameId && r.value.net == ByName(results[gameId]) &&
                      r.value.transfers == PlanOf(r.value.net).transfers
  {
    if gameId !in games then Err(GameNotFound)
    else
      var stored := if gameId in results then ByName(results[gameId]) else Net([], map[]);
      if stored.keys == [] then Err(GameNotFinished)
      else Ok(Settlement(gameId, stored, PlanOf(stored).transfers))
  }

  /** The transfers rebuilt by `get_settlement` from a zero-sum saved net
      settle every player's balance exactly: creditors receive their net,
      debtors pay their debt, and nobody else takes part. */
  lemma SettlementReproducesNet(n: Net, p: string)
    requires WellFormed(n) && Balance(n) == 0
    ensures var ts := PlanOf(ByName(n)).transfers;
            Received(ts, p) == (if Get(n, p) > 0 then Get(n, p) else 0) &&
            Paid(ts, p) == (if Get(n, p) < 0 then -Get(n, p) else 0)
  {
    TransfersSettle(ByName(n), p);
  }

  // ----- the store invariant -----

  /** Row ids are 1 to `lastId`; every record keeps its invariant; a game
      has a saved result exactly when it is finished, and that result is
      `calculate_net` of the record. */
  predicate StoreValid(games: map<int, GameRecord>, lastId: int, results: map<int, Net>) {
    lastId >= 0 &&
    (forall id :: id in games ==> 1 <= id <= lastId && RecordValid(games[id])) &&
    (forall id :: id in results ==> id in games && games[id].finishedAt.Some?) &&
    (forall id :: id in games && games[id].finishedAt.Some? ==>
       id in results && RecordNet(games[id]) == Ok(results[id]))
  }

  /** Inserting a valid open record under the next row id keeps the store
      invariant. */
  lemma StartKeepsStore(games: map<int, GameRecord>, lastId: int, results: map<int, Net>, g: GameRecord)
    requires StoreValid(games, lastId, results) && RecordValid(g) && g.finishedAt.None?
    ensures lastId + 1 !in games && StoreValid(games[lastId + 1 := g], lastId + 1, results)
  {
  }

  /** Replacing an open record by another valid open record keeps it. */
  lemma AddKeepsStore(games: map<int, GameRecord>, lastId: int, results: map<int, Net>, id: int, g: GameRecord)
    requires StoreValid(games, lastId, results) && id in games && games[id].finishedAt.None?
    requires RecordValid(g) && g.finishedAt.None?
    ensures StoreValid(games[id := g], lastId, results)
  {
  }

  /** Stamping a record finished keeps its invariant and the net
      `calculate_net` gives for it. */
  lemma FinishedRecord(g: GameRecord, now: Game.Timestamp)
    requires RecordValid(g) && FinishCheck(g).Ok?
    ensures g.finishedAt.None? && WellFormed(FinishCheck(g).value)
    ensures RecordValid(g.(finishedAt := Some(now))) && RecordNet(g.(finishedAt := Some(now))) == FinishCheck(g)
  {
    var g1 := g.(finishedAt := Some(now));
    assert SettingsOf(g1) == SettingsOf(g);
  }

  /** Replacing an open record by a finished one and saving its net keeps
      the store invariant. */
  lemma FinishKeepsStore(games: map<int, GameRecord>, lastId: int, results: map<int, Net>, id: int,
                         g: GameRecord, net: Net, games1: map<int, GameRecord>, results1: map<int, Net>)
    requires StoreValid(games, lastId, results) && id in games && games[id].finishedAt.None?
    requires RecordValid(g) && g.finishedAt.Some? && RecordNet(g) == Ok(net)
    requires games1 == games[id := g] && results1 == results[id := net]
    ensures StoreValid(games1, lastId, results1)
  {
  }

  // ----- the service and its store -----

  class LottoService {
    /** The `games` table, by row id. */
    var games: map<int, GameRecord>
    /** The largest row id handed out so far. */
    var lastId: int
    /** The `game_results` table: the saved net of each finished game. */
    var results: map<int, Net>

    /** The store invariant holds of the three tables. */
    predicate Valid()
      reads this
    {
      StoreValid(games, lastId, results)
    }

    constructor()
      ensures Valid()
      ensures games == map[] && results == map[] && lastId == 0
    {
      games, lastId, results := map[], 0, map[];
    }

    /** `start_game`: normalise the roster, check it and the prices, and
        insert a new record under the next row id. */
    method StartGame(players: seq<string>, cardPrice: int, lineBonus: int) returns (r: Result<int, DomainError>)
      requires Valid()
      modifies this
      ensures Valid()
      ensures r.Ok? <==> StartCheck(players, cardPrice, lineBonus).Ok?
      ensures r.Err? ==> r.error == StartCheck(players, cardPrice, lineBonus).error && unchanged(this)
      ensures r.Ok? ==> r.value == old(lastId) + 1 && r.value !in old(games) && lastId == r.value &&
                        games == old(games)[r.value := NewRecord(StartCheck(players, cardPrice, lineBonus).value, cardPrice, lineBonus)] &&
                        results == old(results)
    {
      var normalized := CheckStart(players, cardPrice, lineBonus);
      if normalized.Err? {
        return Err(normalized.error);
      }
      StartedRecordValid(players, cardPrice, lineBonus);
      StartKeepsStore(games, lastId, results, NewRecord(normalized.value, cardPrice, lineBonus));
      lastId := lastId + 1;
      games := games[lastId := NewRecord(normalized.value, cardPrice, lineBonus)];
      return Ok(lastId);
    }

    /** `add_event`: look the game up, validate the event's winners against
        it, and append them to the matching winner list. */
    method AddEvent(gameId: int, event: Game.GameEvent) returns (r: Result<(), DomainError>)
      requires Valid()
      modifies this
      ensures Valid()
      ensures gameId !in old(games) ==> r == Err(GameNotFound)
      ensures gameId in old(games) ==> (r.Ok? <==> EventWinners(old(games)[gameId], event).Ok?)
      ensures gameId in old(games) && r.Err? ==> r.error == EventWinners(old(games)[gameId], event).error
      ensures r.Err? ==> unchanged(this)
      ensures r.Ok? ==> gameId in old(games) && lastId == old(lastId) && results == old(results) &&
                        games == old(games)[gameId := Appended(old(games)[gameId], event.eventType,
                                                               EventWinners(old(games)[gameId], event).value)]
    {
      if gameId !in games {
        return Err(GameNotFound);
      }
      var game := games[gameId];
      var winners := CheckEvent(game, event);
      if winners.Err? {
        return Err(winners.error);
      }
      EventAppends(game, event);
      AddKeepsStore(games, lastId, results, gameId, Appended(game, event.eventType, winners.value));
      games := games[gameId := Appended(game, event.eventType, winners.value)];
      return Ok(());
    }

    /** `finish_game`: compute the net of a game that is not finished yet,
        stamp it finished at `now`, save the net and reply with the
        transfers `build_transfers` plans for it. */
    method FinishGame(gameId: int, now: Game.Timestamp) returns (r: Result<Settlement, DomainError>)
      requires Valid()
      modifies this
      ensures Valid()
      ensures gameId !in old(games) ==> r == Err(GameNotFound)
      ensures gameId in old(games) ==> (r.Ok? <==> FinishCheck(old(games)[gameId]).Ok?)
      ensures gameId in old(games) && r.Err? ==> r.error == FinishCheck(old(games)[gameId]).error
      ensures r.Err? ==> unchanged(this)
      ensures r.Ok? ==> gameId in old(games) && lastId == old(lastId) &&
                        r.value.gameId == gameId && r.value.net == FinishCheck(old(games)[gameId]).value &&
                        WellFormed(r.value.net) && r.value.transfers == PlanOf(r.value.net).transfers &&
                        games == old(games)[gameId := old(games)[gameId].(finishedAt := Some(now))] &&
                        results == old(results)[gameId := r.value.net]
    {
      if gameId !in games {
        return Err(GameNotFound);
      }
      var game := games[gameId];
      var net := CheckFinish(game);
      if net.Err? {
        return Err(net.error);
      }
      FinishedRecord(game, now);
      var finished := game.(finishedAt := Some(now));
      FinishKeepsStore(games, lastId, results, gameId, finished, net.value,
                       games[gameId := finished], results[gameId := net.value]);
      games := games[gameId := finished];
      results := results[gameId := net.value];
      var transfers := BuildTransfers(net.value);
      return Ok(Settlement(gameId, net.value, transfers));
    }

    /** `get_settlement`: read the saved net back in name order and rebuild
        its transfers. */
    method GetSettlement(gameId: int) returns (r: Result<Settlement, DomainError>)
      requires Valid()
      ensures r == SettlementOf(games, results, gameId)
    {
      if gameId !in games {
        return Err(GameNotFound);
      }
      var result := if gameId in results then ByName(results[gameId]) else Net([], map[]);
      if result.keys == [] {
        return Err(GameNotFinished);
      }
      var transfers := BuildTransfers(result);
      return Ok(Settlement(gameId, result, transfers));
    }
  }

  /** In a consistent store the net `get_settlement` returns for a finished
      game is `calculate_net` of its record: the same amounts, listed by
      name, summing to zero. Each player's transfers settle that net. */
  lemma SettlementOfFinished(games: map<int, GameRecord>, lastId: int, results: map<int, Net>, gameId: int, p: string)
    requires StoreValid(games, lastId, results)
    requires gameId in games && games[gameId].finishedAt.Some?
    ensures forall id :: id in results ==> WellFormed(results[id])
    ensures var r := SettlementOf(games, results, gameId);
            var n := RecordNet(games[gameId]).value;
            r.Ok? && r.value.net.amounts == n.amounts && Balance(r.value.net) == 0 &&
            (forall i :: 0 < i < |r.value.net.keys| ==> LexLeq(r.value.net.keys[i - 1], r.value.net.keys[i])) &&
            Received(r.value.transfers, p) - Paid(r.value.transfers, p) == Get(n, p)
  {
    var g := games[gameId];
    var n := results[gameId];
    FinishSucceeds(g.(finishedAt := None));
    assert RecordNet(g) == RecordNet(g.(finishedAt := None));
    SettlementReproducesNet(n, p);
  }
}
