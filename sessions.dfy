/** The in-memory session flow of app/main.py (the handlers at lines
    169-276): a counter handing out session ids, the `SESSIONS` dict, the
    winner validation, the replace-not-append winner updates, finishing a
    game into the session history and starting the next game. The nets are
    those of app/domain.py (`Domain`). */
module Sessions {
  import opened Wrappers
  import opened Seqs
  import opened Text
  import opened Validation
  import opened Ledger
  import opened Domain
  import Game

  /** The HTTP errors of the handlers, and the request-model checks FastAPI
      runs before them. */
  datatype SessionError =
    | InvalidRequest              // 422: a field constraint of the request model
    | SessionNotFound             // 404 "session not found"
    | TooFewSessionPlayers         // 400 "at least two unique players required"
    | UnknownWinner(name: string) // 400 "unknown player: ..."
    | NoWinner                    // 400 "at least one winner is required"
    | CardWinnersRequired         // 400 "card winners are required before finish"
    | DomainFailed(error: DomainError) // `GameSettings` or `calculate_net` raising (a 500)

  /** The `active_game` dict. */
  datatype ActiveGame = ActiveGame(gameNumber: int, lineWinners: seq<string>, cardWinners: seq<string>)

  /** One entry of `history`: the finished game with its net and transfers. */
  datatype GameResult = GameResult(gameNumber: int, lineWinners: seq<string>, cardWinners: seq<string>,
                                   net: Net, transfers: seq<Transfer<string>>, finishedAt: Game.Timestamp)

  /** One value of `SESSIONS`. */
  datatype Session = Session(sessionId: int, players: seq<string>, cardPrice: int, lineBonus: int,
                             createdAt: Game.Timestamp, activeGame: ActiveGame, history: seq<GameResult>)

  // ----- trimming and dropping blank names -----

  /** `[name.strip() for name in names if name.strip()]`. */
  function StrippedNames(names: seq<string>): (r: seq<string>)
    ensures forall i :: 0 <= i < |r| ==> IsPlayerId(r[i])
    ensures forall i :: 0 <= i < |names| && Strip(names[i]) != [] ==> Strip(names[i]) in r
    ensures |r| <= |names|
  {
    if names == [] then []
    else
      var init := StrippedNames(names[..|names| - 1]);
      var name := Strip(names[|names| - 1]);
      StripIdempotent(names[|names| - 1]);
      if name == [] then init else init + [name]
  }

  /** A duplicate-free, trimmed roster of at least two. */
  predicate IsRoster(players: seq<string>) {
    |players| >= 2 && Distinct(players) && forall i :: 0 <= i < |players| ==> IsPlayerId(players[i])
  }

  // ----- _validate_winners -----

  /** The first element of `xs + [x]` missing from `pool`. */
  lemma FirstMissingSnoc(xs: seq<string>, x: string, pool: seq<string>)
    ensures FirstMissing(xs + [x], pool) ==
              if FirstMissing(xs, pool) < |xs| then FirstMissing(xs, pool)
              else if x in pool then |xs| + 1 else |xs|
  {
    var u := FirstMissing(xs, pool);
    var ys := xs + [x];
    assert forall j :: 0 <= j < |xs| ==> ys[j] == xs[j];
    if u < |xs| {
      FirstMissingAt(ys, pool, u);
    } else if x in pool {
      FirstMissingAt(ys, pool, |ys|);
    } else {
      FirstMissingAt(ys, pool, |xs|);
    }
  }

  /** The loop of `_validate_winners`, one winner at a time: skip a blank
      name, raise at a name that is not a player, keep a name not seen yet. */
  function Scan(players: seq<string>, winners: seq<string>): Result<seq<string>, SessionError> {
    if winners == [] then Ok([])
    else match Scan(players, winners[..|winners| - 1])
      case Err(e) => Err(e)
      case Ok(acc) =>
        var name := Strip(winners[|winners| - 1]);
        if name == [] then Ok(acc)
        else if name !in players then Err(UnknownWinner(name))
        else Ok(if name in acc then acc else acc + [name])
  }

  /** The loop keeps the trimmed non-blank names in order, each once, and
      raises exactly when one of them is not a player, naming the first. */
  lemma {:induction false} ScanMeaning(players: seq<string>, winners: seq<string>)
    ensures var r, ns := Scan(players, winners), StrippedNames(winners);
            (r.Ok? <==> forall x :: x in ns ==> x in players) &&
            (r.Ok? ==> r.value == Dedupe(ns)) &&
            (r.Err? ==> FirstMissing(ns, players) < |ns| && r.error == UnknownWinner(ns[FirstMissing(ns, players)]))
  {
    if winners != [] {
      var prefix := winners[..|winners| - 1];
      var name := Strip(winners[|winners| - 1]);
      var ns := StrippedNames(prefix);
      ScanMeaning(players, prefix);
      assert StrippedNames(winners) == if name == [] then ns else ns + [name];
      FirstMissingSnoc(ns, name, players);
      DedupeSnoc(ns, name);
    }
  }

  /** Once the loop has raised, the rest of the winners do not matter. */
  lemma {:induction false} ScanStops(players: seq<string>, winners: seq<string>, i: nat)
    requires i <= |winners| && Scan(players, winners[..i]).Err?
    ensures Scan(players, winners) == Scan(players, winners[..i])
    decreases |winners| - i
  {
    if i < |winners| {
      assert winners[..i + 1][..i] == winners[..i];
      ScanStops(players, winners, i + 1);
    } else {
      assert winners[..i] == winners;
    }
  }

  /** What `_validate_winners` returns or raises: the trimmed non-blank
      winners without repeats in first-occurrence order, all of them
      players, and at least one. */
  function WinnersOf(players: seq<string>, winners: seq<string>): (r: Result<seq<string>, SessionError>)
    ensures var ns := StrippedNames(winners);
            (r.Ok? <==> ns != [] && forall x :: x in ns ==> x in players) &&
            (r.Ok? ==> r.value == Dedupe(ns) && r.value != [] && forall x :: x in r.value ==> x in players) &&
            ((forall x :: x in ns ==> x in players) && ns == [] ==> r == Err(NoWinner)) &&
            (r.Err? && r.error != NoWinner ==>
               FirstMissing(ns, players) < |ns| && r.error == UnknownWinner(ns[FirstMissing(ns, players)]))
  {
    ScanMeaning(players, winners);
    match Scan(players, winners)
    case Err(e) => Err(e)
    case Ok(normalized) => if normalized == [] then Err(NoWinner) else Ok(normalized)
  }

  /** The returned winners are trimmed, non-blank and duplicate-free, and
      every non-blank winner given is among them. */
  lemma WinnersShape(players: seq<string>, winners: seq<string>)
    requires WinnersOf(players, winners).Ok?
    ensures var ws := WinnersOf(players, winners).value;
            Distinct(ws) && (forall i :: 0 <= i < |ws| ==> IsPlayerId(ws[i])) &&
            forall i :: 0 <= i < |winners| && Strip(winners[i]) != [] ==> Strip(winners[i]) in ws
  {
  }

  /** `_validate_winners`: the loop with its `seen` set and `normalized`
      list, then the empty check. */
  method ValidateWinners(players: seq<string>, winners: seq<string>) returns (r: Result<seq<string>, SessionError>)
    ensures r == WinnersOf(players, winners)
  {
    var normalized: seq<string> := [];
    var seen: set<string> := {};
    for i := 0 to |winners|
      invariant Scan(players, winners[..i]) == Ok(normalized)
      invariant forall x :: x in seen <==> x in normalized
    {
      assert winners[..i + 1][..i] == winners[..i];
      var name := Strip(winners[i]);
      if name == [] {
        continue;
      }
      if name !in players {
        ScanStops(players, winners, i + 1);
        return Err(UnknownWinner(name));
      }
      if name !in seen {
        seen := seen + {name};
        normalized := normalized + [name];
      }
    }
    assert winners[..|winners|] == winners;
    if normalized == [] {
      return Err(NoWinner);
    }
    return Ok(normalized);
  }

  // ----- create_session -----

  /** The roster `create_session` stores, as written: trimmed, blanks
      dropped, but a repeated name kept once per occurrence. */
  function RosterAsWritten(players: seq<string>): seq<string> {
    StrippedNames(players)
  }

  /** The roster with each name once, in first-occurrence order: what the
      "at least two unique players" check evidently intends. */
  function Roster(players: seq<string>): (r: seq<string>)
    ensures Distinct(r) && forall i :: 0 <= i < |r| ==> IsPlayerId(r[i])
    ensures forall i :: 0 <= i < |players| && Strip(players[i]) != [] ==> Strip(players[i]) in r
    ensures forall x :: x in r ==> x in RosterAsWritten(players)
  {
    Dedupe(StrippedNames(players))
  }

  /** The checks of `create_session` as written: the request model's
      `min_length=2` and `gt=0`, then the count of distinct names. */
  function CreateCheckAsWritten(players: seq<string>, cardPrice: int, lineBonus: int): (r: Result<seq<string>, SessionError>)
    ensures r.Ok? <==> |players| >= 2 && cardPrice > 0 && lineBonus > 0 && |Dedupe(StrippedNames(players))| >= 2
    ensures |players| >= 2 && cardPrice > 0 && lineBonus > 0 && |Dedupe(StrippedNames(players))| < 2 ==>
              r == Err(TooFewSessionPlayers)
    ensures r.Ok? ==> r.value == RosterAsWritten(players) && |Dedupe(r.value)| >= 2 &&
                      forall i :: 0 <= i < |r.value| ==> IsPlayerId(r.value[i])
  {
    if |players| < 2 || cardPrice <= 0 || lineBonus <= 0 then Err(InvalidRequest)
    else
      var roster := RosterAsWritten(players);
      if |Dedupe(roster)| < 2 then Err(TooFewSessionPlayers) else Ok(roster)
  }

  /** The same checks storing the deduplicated roster. */
  function CreateCheck(players: seq<string>, cardPrice: int, lineBonus: int): (r: Result<seq<string>, SessionError>)
    ensures r.Ok? <==> CreateCheckAsWritten(players, cardPrice, lineBonus).Ok?
    ensures r.Err? ==> r == CreateCheckAsWritten(players, cardPrice, lineBonus)
    ensures r.Ok? ==> r.value == Roster(players) && IsRoster(r.value)
    ensures |players| < 2 || cardPrice <= 0 || lineBonus <= 0 ==> r == Err(InvalidRequest)
  {
    if |players| < 2 || cardPrice <= 0 || lineBonus <= 0 then Err(InvalidRequest)
    else
      var roster := Roster(players);
      if |roster| < 2 then Err(TooFewSessionPlayers) else Ok(roster)
  }

  /** The session `create_session` inserts: game number 1 with no winners
      and an empty history. */
  function NewSession(sessionId: int, players: seq<string>, cardPrice: int, lineBonus: int,
                      now: Game.Timestamp): Session
  {
    Session(sessionId, players, cardPrice, lineBonus, now, ActiveGame(1, [], []), [])
  }

  // ----- finish_session_game -----

  /** The net `finish_session_game` computes, or why it refuses: no card
      winner yet, or `GameSettings` / `calculate_net` raising. */
  function FinishNet(s: Session): (r: Result<Net, SessionError>)
    ensures s.activeGame.cardWinners == [] ==> r == Err(CardWinnersRequired)
    ensures r.Ok? ==> s.cardPrice > 0 && s.lineBonus > 0 &&
                      NetOf(s.players, GameSettings(s.cardPrice, s.lineBonus), s.activeGame.lineWinners,
                            s.activeGame.cardWinners) == Ok(r.value)
  {
    if s.activeGame.cardWinners == [] then Err(CardWinnersRequired)
    else match NewSettings(s.cardPrice, s.lineBonus)
      case Err(e) => Err(DomainFailed(e))
      case Ok(settings) =>
        match NetOf(s.players, settings, s.activeGame.lineWinners, s.activeGame.cardWinners)
        case Err(e) => Err(DomainFailed(e))
        case Ok(n) => Ok(n)
  }

  /** Winners that `_validate_winners` could have returned. */
  predicate WinnerList(players: seq<string>, ws: seq<string>) {
    Distinct(ws) && forall i :: 0 <= i < |ws| ==> ws[i] in players
  }

  /** A history entry: its net is well formed and sums to zero, and its
      transfers are the ones `build_transfers` plans for it. */
  predicate ResultValid(g: GameResult) {
    WellFormed(g.net) && Balance(g.net) == 0 && g.transfers == PlanOf(g.net).transfers
  }

  /** What a stored session keeps true. */
  predicate SessionValid(id: int, s: Session) {
    s.sessionId == id && IsRoster(s.players) && s.cardPrice > 0 && s.lineBonus > 0 &&
    WinnerList(s.players, s.activeGame.lineWinners) && WinnerList(s.players, s.activeGame.cardWinners) &&
    1 <= s.activeGame.gameNumber <= |s.history| + 1 &&
    forall k :: 0 <= k < |s.history| ==> ResultValid(s.history[k])
  }

  /** On a roster as `create_session` stores it (trimmed, non-blank, at
      least two distinct names, a repeated name kept) and on winners that
      `_validate_winners` returned, finishing fails only without a card
      winner: every other check of `calculate_net` already holds. The net
      lists each distinct player once; it sums to zero when no name is
      repeated. */
  lemma FinishNetAsWritten(s: Session)
    requires (forall i :: 0 <= i < |s.players| ==> IsPlayerId(s.players[i])) && |Dedupe(s.players)| >= 2
    requires s.cardPrice > 0 && s.lineBonus > 0
    requires WinnerList(s.players, s.activeGame.lineWinners) && WinnerList(s.players, s.activeGame.cardWinners)
    ensures FinishNet(s).Ok? <==> s.activeGame.cardWinners != []
    ensures FinishNet(s).Ok? ==> WellFormed(FinishNet(s).value) && FinishNet(s).value.keys == Dedupe(s.players)
    ensures FinishNet(s).Ok? && Distinct(s.players) ==> Balance(FinishNet(s).value) == 0
  {
    var cw := s.activeGame.cardWinners;
    var settings := GameSettings(s.cardPrice, s.lineBonus);
    assert StripAll(cw) == cw by {
      forall i | 0 <= i < |cw| ensures Strip(cw[i]) == cw[i] {
        var k := IndexOf(s.players, cw[i]);
        assert IsPlayerId(s.players[k]);
      }
    }
    assert NoBlank(cw);
    NetOfSucceeds(s.players, settings, s.activeGame.lineWinners, cw);
    if cw != [] && Distinct(s.players) {
      NetZeroSum(s.players, settings, s.activeGame.lineWinners, cw);
    }
  }

  /** In a consistent session, finishing fails only without a card winner:
      every other check of `calculate_net` already holds. The net lists
      every player once and sums to zero. */
  lemma FinishNetSucceeds(id: int, s: Session)
    requires SessionValid(id, s)
    ensures FinishNet(s).Ok? <==> s.activeGame.cardWinners != []
    ensures FinishNet(s).Ok? ==> WellFormed(FinishNet(s).value) && FinishNet(s).value.keys == s.players &&
                                 Balance(FinishNet(s).value) == 0
  {
    DedupeOfDistinct(s.players);
    FinishNetAsWritten(s);
  }

  /** The duplicate-seat discrepancy: `create_session` accepts a roster that
      names a player twice, the winner checks pass, and the net
      `finish_session_game` computes does not sum to zero: the repeated
      player is charged once per seat while the pot counts every seat, so
      the nets sum to one card price. */
  lemma DuplicateSeatUnbalanced(a: string, b: string, price: int, bonus: int)
    requires IsPlayerId(a) && IsPlayerId(b) && a != b && price > 0 && bonus > 0
    ensures CreateCheckAsWritten([a, a, b], price, bonus) == Ok([a, a, b])
    ensures WinnersOf([a, a, b], [b]) == Ok([b])
    ensures var n := NetOf([a, a, b], GameSettings(price, bonus), [], [b]);
            n.Ok? && Balance(n.value) == price
  {
    DuplicateSeatAccepted(a, b, price, bonus);
    DuplicateSeatWinners(a, b);
    DuplicateSeatNet(a, b, price, bonus);
    DuplicateSeatDistinct(a, b);
    var n := NetValue([a, a, b], GameSettings(price, bonus), [], [b]);
    DuplicateSeatBalance(a, b, price, bonus, n);
  }

  /** The checks as written accept the roster `[a, a, b]` unchanged. */
  lemma DuplicateSeatAccepted(a: string, b: string, price: int, bonus: int)
    requires IsPlayerId(a) && IsPlayerId(b) && a != b && price > 0 && bonus > 0
    ensures CreateCheckAsWritten([a, a, b], price, bonus) == Ok([a, a, b])
  {
    DuplicateSeatRoster(a, b);
  }

  /** `b` alone is a valid winner list for the roster `[a, a, b]`. */
  lemma DuplicateSeatWinners(a: string, b: string)
    requires IsPlayerId(b)
    ensures WinnersOf([a, a, b], [b]) == Ok([b])
  {
    StrippedIds([b]);
    DedupeOfDistinct([b]);
    assert forall x :: x in [b] ==> x in [a, a, b];
  }

  /** The roster `[a, a, b]` survives trimming unchanged and has two
      distinct names. */
  lemma DuplicateSeatRoster(a: string, b: string)
    requires IsPlayerId(a) && IsPlayerId(b) && a != b
    ensures StrippedNames([a, a, b]) == [a, a, b]
    ensures Dedupe([a, a, b]) == [a, b]
  {
    DuplicateSeatStripped(a, b);
    DuplicateSeatDistinct(a, b);
  }

  lemma DuplicateSeatStripped(a: string, b: string)
    requires IsPlayerId(a) && IsPlayerId(b)
    ensures StrippedNames([a, a, b]) == [a, a, b]
  {
    StrippedIds([a, a, b]);
  }

  /** Names that are already player ids are kept as they are. */
  lemma {:induction false} StrippedIds(names: seq<string>)
    requires forall i :: 0 <= i < |names| ==> IsPlayerId(names[i])
    ensures StrippedNames(names) == names
  {
    if names != [] {
      var init := names[..|names| - 1];
      StrippedIds(init);
      assert names == init + [names[|names| - 1]];
    }
  }

  lemma DuplicateSeatDistinct(a: string, b: string)
    requires a != b
    ensures Dedupe([a, a, b]) == [a, b]
  {
    assert [a, a][..1] == [a];
    assert Dedupe([a, a]) == [a];
    assert [a, a, b][..2] == [a, a];
  }

  /** Every check of `calculate_net` passes on the duplicate-seat game. */
  lemma DuplicateSeatNet(a: string, b: string, price: int, bonus: int)
    requires IsPlayerId(b) && price > 0 && bonus > 0
    ensures NetOf([a, a, b], GameSettings(price, bonus), [], [b]) ==
            Ok(NetValue([a, a, b], GameSettings(price, bonus), [], [b]))
  {
    UniqueNamesOfIds([b]);
    FirstMissingAt([b], [a, a, b], 1);
  }

  /** The nets of the duplicate-seat game: `-price` for the repeated player
      and `2 * price` for the card winner, who takes the pot of three seats. */
  lemma DuplicateSeatBalance(a: string, b: string, price: int, bonus: int, n: Net)
    requires a != b && n == NetValue([a, a, b], GameSettings(price, bonus), [], [b])
    requires n.keys == [a, b]
    ensures Balance(n) == price
  {
    var players := [a, a, b];
    var settings := GameSettings(price, bonus);
    var pot := price * |players|;
    assert pot / 1 == pot && pot % 1 == 0;
    assert Payout(pot, 1, 0) == pot;
    assert CardShare(pot, [b], 1, a) == 0;
    assert CardShare(pot, [b], 1, b) == pot;
    assert Get(n, a) == -price;
    assert Get(n, b) == -price + pot;
    var items := Items(n);
    assert items == [Entry(a, -price), Entry(b, -price + pot)];
    assert Sum(items) == -price + (-price + pot) + Sum(items[2..]);
  }

  // ----- the session store -----

  /** Every stored session is consistent under its own id, and ids run from
      1 to the number handed out. */
  predicate StoreValid(issued: nat, sessions: map<int, Session>) {
    forall id :: id in sessions ==> 1 <= id <= issued && SessionValid(id, sessions[id])
  }

  /** Storing a consistent session under its id keeps the store consistent. */
  lemma StoreUpdate(issued: nat, sessions: map<int, Session>, id: int, s: Session, sessions1: map<int, Session>)
    requires StoreValid(issued, sessions) && 1 <= id <= issued && SessionValid(id, s)
    requires sessions1 == sessions[id := s]
    ensures StoreValid(issued, sessions1)
  {
  }

  /** Storing a consistent session under the next id keeps the store
      consistent; that id was free. */
  lemma StoreInsert(issued: nat, sessions: map<int, Session>, s: Session, sessions1: map<int, Session>)
    requires StoreValid(issued, sessions) && SessionValid(issued + 1, s)
    requires sessions1 == sessions[issued + 1 := s]
    ensures StoreValid(issued + 1, sessions1) && issued + 1 !in sessions
  {
  }

  /** A fresh session over a checked roster is consistent. */
  lemma NewSessionValid(id: int, players: seq<string>, cardPrice: int, lineBonus: int, now: Game.Timestamp)
    requires IsRoster(players) && cardPrice > 0 && lineBonus > 0
    ensures SessionValid(id, NewSession(id, players, cardPrice, lineBonus, now))
  {
  }

  /** `_session_or_404`. */
  function SessionOf(sessions: map<int, Session>, id: int): (r: Result<Session, SessionError>)
    ensures r.Ok? <==> id in sessions
    ensures r.Ok? ==> r.value == sessions[id]
    ensures r.Err? ==> r.error == SessionNotFound
  {
    if id in sessions then Ok(sessions[id]) else Err(SessionNotFound)
  }

  /** The winners a `line` or `card` request stores: the request model
      demands at least one entry, then the session must exist and the
      winners pass `_validate_winners`. */
  function WinnersRequest(sessions: map<int, Session>, id: int, winners: seq<string>): (r: Result<seq<string>, SessionError>)
    ensures winners == [] ==> r == Err(InvalidRequest)
    ensures winners != [] && id !in sessions ==> r == Err(SessionNotFound)
    ensures winners != [] && id in sessions ==> r == WinnersOf(sessions[id].players, winners)
  {
    if winners == [] then Err(InvalidRequest)
    else match SessionOf(sessions, id)
      case Err(e) => Err(e)
      case Ok(s) => WinnersOf(s.players, winners)
  }

  /** The active game with its line winners replaced. */
  function WithLineWinners(s: Session, ws: seq<string>): Session {
    s.(activeGame := s.activeGame.(lineWinners := ws))
  }

  /** The active game with its card winners replaced. */
  function WithCardWinners(s: Session, ws: seq<string>): Session {
    s.(activeGame := s.activeGame.(cardWinners := ws))
  }

  /** A winner update replaces the list: a later update discards an earlier
      one, and the other list, the roster and the history stay as they are. */
  lemma WinnersReplaced(s: Session, first: seq<string>, second: seq<string>)
    ensures WithLineWinners(WithLineWinners(s, first), second) == WithLineWinners(s, second)
    ensures WithCardWinners(WithCardWinners(s, first), second) == WithCardWinners(s, second)
    ensures WithLineWinners(s, first).activeGame.cardWinners == s.activeGame.cardWinners
    ensures WithCardWinners(s, first).activeGame.lineWinners == s.activeGame.lineWinners
  {
  }

  /** Validated winners keep a session consistent. */
  lemma WinnersKeepSession(id: int, s: Session, winners: seq<string>)
    requires SessionValid(id, s) && WinnersOf(s.players, winners).Ok?
    ensures SessionValid(id, WithLineWinners(s, WinnersOf(s.players, winners).value))
    ensures SessionValid(id, WithCardWinners(s, WinnersOf(s.players, winners).value))
  {
    var ws := WinnersOf(s.players, winners).value;
    assert forall i :: 0 <= i < |ws| ==> ws[i] in s.players;
  }

  /** The history entry `finish_session_game` appends. */
  function Finished(s: Session, net: Net, now: Game.Timestamp): GameResult
    requires WellFormed(net)
  {
    GameResult(s.activeGame.gameNumber, s.activeGame.lineWinners, s.activeGame.cardWinners,
               net, PlanOf(net).transfers, now)
  }

  /** Appending a consistent history entry keeps a session consistent. */
  lemma HistoryKeepsSession(id: int, s: Session, result: GameResult, s1: Session)
    requires SessionValid(id, s) && ResultValid(result)
    requires s1 == s.(history := s.history + [result])
    ensures SessionValid(id, s1)
  {
    assert forall k :: 0 <= k < |s.history| ==> s1.history[k] == s.history[k];
  }

  /** The active game `new_game_in_session` starts. */
  function NextGame(s: Session): (g: ActiveGame)
    ensures g.gameNumber == |s.history| + 1 && g.lineWinners == [] && g.cardWinners == []
  {
    ActiveGame(|s.history| + 1, [], [])
  }

  class SessionStore {
    /** How many ids `session_counter` has handed out. */
    var issued: nat
    /** `SESSIONS`. */
    var sessions: map<int, Session>

    predicate Valid()
      reads this
    {
      StoreValid(issued, sessions)
    }

    constructor()
      ensures Valid() && issued == 0 && sessions == map[]
    {
      issued, sessions := 0, map[];
    }

    /** `create_session`: check the request, take the next id and store a
        fresh session under it. */
    method CreateSession(players: seq<string>, cardPrice: int, lineBonus: int, now: Game.Timestamp)
      returns (r: Result<Session, SessionError>)
      requires Valid()
      modifies this
      ensures Valid()
      ensures r.Ok? <==> CreateCheck(players, cardPrice, lineBonus).Ok?
      ensures r.Err? ==> r.error == CreateCheck(players, cardPrice, lineBonus).error && unchanged(this)
      ensures r.Ok? ==> issued == old(issued) + 1 && issued !in old(sessions) &&
                        r.value == NewSession(issued, CreateCheck(players, cardPrice, lineBonus).value, cardPrice, lineBonus, now) &&
                        sessions == old(sessions)[issued := r.value]
    {
      if |players| < 2 || cardPrice <= 0 || lineBonus <= 0 {
        return Err(InvalidRequest);
      }
      var roster := Roster(players);
      if |roster| < 2 {
        return Err(TooFewSessionPlayers);
      }
      var id := issued + 1;
      var session := NewSession(id, roster, cardPrice, lineBonus, now);
      NewSessionValid(id, roster, cardPrice, lineBonus, now);
      StoreInsert(issued, sessions, session, sessions[id := session]);
      issued, sessions := id, sessions[id := session];
      return Ok(session);
    }

    /** `session_line`: validate the winners and replace the active game's
        line winners with them. */
    method SessionLine(id: int, winners: seq<string>) returns (r: Result<seq<string>, SessionError>)
      requires Valid()
      modifies this
      ensures Valid()
      ensures r == WinnersRequest(old(sessions), id, winners)
      ensures r.Err? ==> unchanged(this)
      ensures r.Ok? ==> id in old(sessions) && issued == old(issued) &&
                        sessions == old(sessions)[id := WithLineWinners(old(sessions)[id], r.value)]
    {
      if winners == [] {
        return Err(InvalidRequest);
      }
      var session := SessionOf(sessions, id);
      if session.Err? {
        return Err(session.error);
      }
      var s := session.value;
      r := ValidateWinners(s.players, winners);
      if r.Ok? {
        WinnersKeepSession(id, s, winners);
        StoreUpdate(issued, sessions, id, WithLineWinners(s, r.value), sessions[id := WithLineWinners(s, r.value)]);
        sessions := sessions[id := WithLineWinners(s, r.value)];
      }
    }

    /** `session_card`: validate the winners and replace the active game's
        card winners with them. */
    method SessionCard(id: int, winners: seq<string>) returns (r: Result<seq<string>, SessionError>)
      requires Valid()
      modifies this
      ensures Valid()
      ensures r == WinnersRequest(old(sessions), id, winners)
      ensures r.Err? ==> unchanged(this)
      ensures r.Ok? ==> id in old(sessions) && issued == old(issued) &&
                        sessions == old(sessions)[id := WithCardWinners(old(sessions)[id], r.value)]
    {
      if winners == [] {
        return Err(InvalidRequest);
      }
      var session := SessionOf(sessions, id);
      if session.Err? {
        return Err(session.error);
      }
      var s := session.value;
      r := ValidateWinners(s.players, winners);
      if r.Ok? {
        WinnersKeepSession(id, s, winners);
        StoreUpdate(issued, sessions, id, WithCardWinners(s, r.value), sessions[id := WithCardWinners(s, r.value)]);
        sessions := sessions[id := WithCardWinners(s, r.value)];
      }
    }

    /** `finish_session_game`: compute the net of the active game, plan its
        transfers and append the result to the history. The active game
        itself stays as it is. */
    method FinishSessionGame(id: int, now: Game.Timestamp) returns (r: Result<GameResult, SessionError>)
      requires Valid()
      modifies this
      ensures Valid()
      ensures id !in old(sessions) ==> r == Err(SessionNotFound)
      ensures id in old(sessions) ==> (r.Ok? <==> FinishNet(old(sessions)[id]).Ok?)
      ensures id in old(sessions) && r.Err? ==> r.error == FinishNet(old(sessions)[id]).error
      ensures r.Err? ==> unchanged(this)
      ensures r.Ok? ==> id in old(sessions) && issued == old(issued) &&
                        WellFormed(FinishNet(old(sessions)[id]).value) &&
                        r.value == Finished(old(sessions)[id], FinishNet(old(sessions)[id]).value, now) &&
                        Balance(r.value.net) == 0 &&
                        sessions == old(sessions)[id := old(sessions)[id].(history := old(sessions)[id].history + [r.value])]
    {
      var session := SessionOf(sessions, id);
      if session.Err? {
        return Err(session.error);
      }
      var s := session.value;
      assert s == sessions[id];
      var net := ComputeFinishNet(s);
      if net.Err? {
        return Err(net.error);
      }
      FinishNetSucceeds(id, s);
      var transfers := BuildTransfers(net.value);
      var result := GameResult(s.activeGame.gameNumber, s.activeGame.lineWinners, s.activeGame.cardWinners,
                               net.value, transfers, now);
      assert result == Finished(s, net.value, now);
      var s1 := s.(history := s.history + [result]);
      HistoryKeepsSession(id, s, result, s1);
      StoreUpdate(issued, sessions, id, s1, sessions[id := s1]);
      sessions := sessions[id := s1];
      return Ok(result);
    }

    /** `new_game_in_session`: start the next numbered game with no winners,
        keeping the history. */
    method NewGameInSession(id: int) returns (r: Result<ActiveGame, SessionError>)
      requires Valid()
      modifies this
      ensures Valid()
      ensures id !in old(sessions) ==> r == Err(SessionNotFound) && unchanged(this)
      ensures id in old(sessions) ==> r == Ok(NextGame(old(sessions)[id])) && issued == old(issued) &&
                                      sessions == old(sessions)[id := old(sessions)[id].(activeGame := r.value)]
    {
      var session := SessionOf(sessions, id);
      if session.Err? {
        return Err(session.error);
      }
      var s := session.value;
      var game := ActiveGame(|s.history| + 1, [], []);
      var s1 := s.(activeGame := game);
      StoreUpdate(issued, sessions, id, s1, sessions[id := s1]);
      sessions := sessions[id := s1];
      return Ok(game);
    }
  }

  /** The checks and the `calculate_net` call of `finish_session_game`. */
  method ComputeFinishNet(s: Session) returns (r: Result<Net, SessionError>)
    ensures r == FinishNet(s)
  {
    if s.activeGame.cardWinners == [] {
      return Err(CardWinnersRequired);
    }
    var settings := NewSettings(s.cardPrice, s.lineBonus);
    if settings.Err? {
      return Err(DomainFailed(settings.error));
    }
    var net := CalculateNet(s.players, settings.value, s.activeGame.lineWinners, s.activeGame.cardWinners);
    if net.Err? {
      return Err(DomainFailed(net.error));
    }
    return Ok(net.value);
  }
}
