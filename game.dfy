/** The game-event state machine of app/domain/game.py: validated events
    and the pure transition `apply_event` on a frozen game state. The
    settings, the name normalisation and `unique_preserve_order` of that
    file are the ones of module `Validation`. */
module Game {
  import opened Wrappers
  import opened Seqs
  import opened Text
  import opened Validation

  /** A point in time (`datetime`); only equality matters here. */
  type Timestamp = int

  /** A frozen `GameEvent` whose `__post_init__` has run: trimmed, distinct
      player ids. */
  datatype GameEvent = GameEvent(eventType: GameEventType, playerIds: seq<string>,
                                 occurredAt: Option<Timestamp>, sequence: Option<int>)

  /** The `GameEvent` constructor: every id is normalised (a blank one
      raises first), then an empty list and a repeated id are rejected. */
  function NewGameEvent(eventType: GameEventType, playerIds: seq<string>, occurredAt: Option<Timestamp>,
                        sequence: Option<int>): (r: Result<GameEvent, DomainError>)
    ensures !NoBlank(playerIds) ==> r == Err(BlankPlayerName)
    ensures NoBlank(playerIds) && playerIds == [] ==> r == Err(EmptyEvent)
    ensures NoBlank(playerIds) && playerIds != [] && !Distinct(StripAll(playerIds)) ==> r == Err(DuplicateEventPlayers)
    ensures r.Ok? <==> NoBlank(playerIds) && playerIds != [] && Distinct(StripAll(playerIds))
    ensures r.Ok? ==> r.value == GameEvent(eventType, StripAll(playerIds), occurredAt, sequence) &&
                      forall i :: 0 <= i < |r.value.playerIds| ==> IsPlayerId(r.value.playerIds[i])
  {
    var normalized := StripAll(playerIds);
    if !NoBlank(playerIds) then Err(BlankPlayerName)
    else if normalized == [] then Err(EmptyEvent)
    else if !Distinct(normalized) then Err(DuplicateEventPlayers)
    else
      StripAllAreIds(playerIds);
      Ok(GameEvent(eventType, normalized, occurredAt, sequence))
  }

  /** A frozen `GameState`. */
  datatype GameState = GameState(players: set<string>, events: seq<GameEvent>, finishedAt: Option<Timestamp>,
                                 winners: set<string>, lineWinners: set<string>)

  /** The state a game starts in. */
  function StartState(players: set<string>): (s: GameState)
    ensures s.players == players && s.events == [] && s.finishedAt == None
    ensures s.winners == {} && s.lineWinners == {}
  {
    GameState(players, [], None, {}, {})
  }

  /** The ids of an event that are not players of the game. */
  function UnknownIds(state: GameState, event: GameEvent): (u: set<string>)
    ensures forall p :: p in u <==> p in event.playerIds && p !in state.players
  {
    set p | p in event.playerIds && p !in state.players
  }

  /** `_ensure_players_exist`: an error naming every unknown id. */
  function EnsurePlayersExist(state: GameState, event: GameEvent): (r: Result<(), DomainError>)
    ensures r.Ok? <==> forall i :: 0 <= i < |event.playerIds| ==> event.playerIds[i] in state.players
    ensures r.Err? ==> r.error == UnknownPlayersInEvent(UnknownIds(state, event))
  {
    var unknown := UnknownIds(state, event);
    if unknown != {} then Err(UnknownPlayersInEvent(unknown))
    else
      assert forall i :: 0 <= i < |event.playerIds| ==> event.playerIds[i] !in unknown;
      Ok(())
  }

  /** The ids of a line event that have already closed a line. */
  function RepeatedLineClosers(state: GameState, event: GameEvent): (r: set<string>)
    ensures forall p :: p in r <==> p in event.playerIds && p in state.lineWinners
  {
    set p | p in event.playerIds && p in state.lineWinners
  }

  /** `state.finished_at or event.occurred_at or now`: a `datetime` is never
      false, so the first one that is set wins. */
  function FinishTime(state: GameState, event: GameEvent, now: Timestamp): (t: Timestamp)
    ensures state.finishedAt.Some? ==> t == state.finishedAt.value
    ensures state.finishedAt.None? && event.occurredAt.Some? ==> t == event.occurredAt.value
    ensures state.finishedAt.None? && event.occurredAt.None? ==> t == now
  {
    match state.finishedAt
    case Some(t) => t
    case None => match event.occurredAt
      case Some(t) => t
      case None => now
  }

  /** `apply_event`, with `datetime.utcnow()` passed in as `now`. */
  function ApplyEvent(state: GameState, event: GameEvent, now: Timestamp): (r: Result<GameState, DomainError>)
    ensures r.Ok? ==> r.value.players == state.players && r.value.events == state.events + [event]
  {
    match EnsurePlayersExist(state, event)
    case Err(e) => Err(e)
    case Ok(_) =>
      match event.eventType
      case LineClosed =>
        var repeated := RepeatedLineClosers(state, event);
        if repeated != {} then Err(LineAlreadyClosed(repeated))
        else Ok(state.(events := state.events + [event],
                       lineWinners := state.lineWinners + (set p | p in event.playerIds)))
      case CardClosed =>
        Ok(state.(events := state.events + [event],
                  winners := state.winners + (set p | p in event.playerIds),
                  finishedAt := Some(FinishTime(state, event, now))))
  }

  // ----- what apply_event guarantees -----

  /** Any event naming a player outside the roster is rejected, whatever
      its type, with all unknown ids. */
  lemma ApplyRejectsUnknown(state: GameState, event: GameEvent, now: Timestamp, i: nat)
    requires i < |event.playerIds| && event.playerIds[i] !in state.players
    ensures ApplyEvent(state, event, now) == Err(UnknownPlayersInEvent(UnknownIds(state, event)))
    ensures event.playerIds[i] in UnknownIds(state, event)
  {
  }

  /** A line closure fails exactly on an unknown id or an id that already
      closed a line; otherwise the closers join the line winners and
      nothing else but the event log changes. */
  lemma LineClosedOutcome(state: GameState, event: GameEvent, now: Timestamp)
    requires event.eventType == LineClosed
    ensures var r := ApplyEvent(state, event, now);
            r.Ok? <==> (forall i :: 0 <= i < |event.playerIds| ==> event.playerIds[i] in state.players) &&
                       (forall i :: 0 <= i < |event.playerIds| ==> event.playerIds[i] !in state.lineWinners)
    ensures var r := ApplyEvent(state, event, now);
            EnsurePlayersExist(state, event).Ok? && RepeatedLineClosers(state, event) != {} ==>
              r == Err(LineAlreadyClosed(RepeatedLineClosers(state, event)))
    ensures var r := ApplyEvent(state, event, now);
            r.Ok? ==> r.value.lineWinners == state.lineWinners + (set p | p in event.playerIds) &&
                      r.value.winners == state.winners && r.value.finishedAt == state.finishedAt
  {
    if forall i :: 0 <= i < |event.playerIds| ==> event.playerIds[i] !in state.lineWinners {
      assert RepeatedLineClosers(state, event) == {};
    } else {
      var i :| 0 <= i < |event.playerIds| && event.playerIds[i] in state.lineWinners;
      assert event.playerIds[i] in RepeatedLineClosers(state, event);
    }
  }

  /** A card closure fails exactly on an unknown id; otherwise the closers
      join the winners, the line winners stay, and the finish time is the
      one already recorded, else the event's, else `now`. */
  lemma CardClosedOutcome(state: GameState, event: GameEvent, now: Timestamp)
    requires event.eventType == CardClosed
    ensures var r := ApplyEvent(state, event, now);
            r.Ok? <==> forall i :: 0 <= i < |event.playerIds| ==> event.playerIds[i] in state.players
    ensures var r := ApplyEvent(state, event, now);
            r.Ok? ==> r.value.winners == state.winners + (set p | p in event.playerIds) &&
                      r.value.lineWinners == state.lineWinners &&
                      r.value.finishedAt == Some(if state.finishedAt.Some? then state.finishedAt.value
                                                 else if event.occurredAt.Some? then event.occurredAt.value
                                                 else now)
  {
  }

  /** Winners and line winners are players, and a game with a card winner
      has a finish time. */
  predicate Valid(s: GameState) {
    s.winners <= s.players && s.lineWinners <= s.players && (s.winners != {} ==> s.finishedAt.Some?)
  }

  lemma StartStateValid(players: set<string>)
    ensures Valid(StartState(players))
  {
  }

  lemma {:induction false} ApplyEventValid(state: GameState, event: GameEvent, now: Timestamp)
    requires Valid(state) && ApplyEvent(state, event, now).Ok?
    ensures Valid(ApplyEvent(state, event, now).value)
  {
    var ids := set p | p in event.playerIds;
    assert ids <= state.players by {
      forall p | p in ids ensures p in state.players {
        var i :| 0 <= i < |event.playerIds| && event.playerIds[i] == p;
      }
    }
  }

  /** A run of events, each applied with its own clock reading; the first
      failure stops the run. */
  function ApplyAll(state: GameState, steps: seq<(GameEvent, Timestamp)>): (r: Result<GameState, DomainError>)
    decreases |steps|
  {
    if steps == [] then Ok(state)
    else match ApplyEvent(state, steps[0].0, steps[0].1)
      case Err(e) => Err(e)
      case Ok(next) => ApplyAll(next, steps[1..])
  }

  /** The events of a run, in order. */
  function EventsOf(steps: seq<(GameEvent, Timestamp)>): (r: seq<GameEvent>)
    ensures |r| == |steps| && forall i :: 0 <= i < |steps| ==> r[i] == steps[i].0
  {
    if steps == [] then [] else [steps[0].0] + EventsOf(steps[1..])
  }

  /** A successful run keeps the roster and the validity, logs exactly its
      events, and never moves a finish time once one is recorded. */
  lemma {:induction false} ApplyAllKeeps(state: GameState, steps: seq<(GameEvent, Timestamp)>)
    requires Valid(state) && ApplyAll(state, steps).Ok?
    ensures var s := ApplyAll(state, steps).value;
            Valid(s) && s.players == state.players && s.events == state.events + EventsOf(steps) &&
            (state.finishedAt.Some? ==> s.finishedAt == state.finishedAt) &&
            state.winners <= s.winners && state.lineWinners <= s.lineWinners
    decreases |steps|
  {
    if steps != [] {
      var event, now := steps[0].0, steps[0].1;
      var next := ApplyEvent(state, event, now).value;
      ApplyEventKeeps(state, event, now);
      ApplyAllKeeps(next, steps[1..]);
      assert ApplyAll(state, steps) == ApplyAll(next, steps[1..]);
      assert EventsOf(steps) == [event] + EventsOf(steps[1..]);
      AppendAssoc(state.events, [event], EventsOf(steps[1..]));
    }
  }

  /** One successful transition keeps the validity, only adds winners and
      line winners, and keeps a recorded finish time. */
  lemma ApplyEventKeeps(state: GameState, event: GameEvent, now: Timestamp)
    requires Valid(state) && ApplyEvent(state, event, now).Ok?
    ensures var s := ApplyEvent(state, event, now).value;
            Valid(s) && s.players == state.players && s.events == state.events + [event] &&
            (state.finishedAt.Some? ==> s.finishedAt == state.finishedAt) &&
            state.winners <= s.winners && state.lineWinners <= s.lineWinners
  {
    ApplyEventValid(state, event, now);
  }

  // ----- the scenarios of tests/test_game_domain.py -----

  /** Trimming leaves a name without surrounding whitespace as it is. */
  lemma StripTrimmed(name: string)
    requires name != [] && !IsSpace(name[0]) && !IsSpace(name[|name| - 1])
    ensures Strip(name) == name
  {
    assert SkipSpace(name, 0) == 0;
    assert BackSpace(name, 0, |name|) == |name|;
  }

  /** The event of the line test passes the constructor unchanged. */
  lemma LineEventBuilt()
    ensures NewGameEvent(LineClosed, ["p1", "p2"], None, None) == Ok(GameEvent(LineClosed, ["p1", "p2"], None, None))
  {
    StripTrimmed("p1");
    StripTrimmed("p2");
    assert StripAll(["p1", "p2"]) == ["p1", "p2"];
  }

  /** Two players close the line together; one of them cannot close it
      again. */
  lemma LineClosedOncePerPlayer(now: Timestamp)
    ensures var e := NewGameEvent(LineClosed, ["p1", "p2"], None, None);
            e.Ok? && var s := ApplyEvent(StartState({"p1", "p2"}), e.value, now);
            s.Ok? && s.value.lineWinners == {"p1", "p2"} &&
            ApplyEvent(s.value, GameEvent(LineClosed, ["p2"], None, None), now) == Err(LineAlreadyClosed({"p2"}))
  {
    LineEventBuilt();
    var e := GameEvent(LineClosed, ["p1", "p2"], None, None);
    var s0 := StartState({"p1", "p2"});
    assert (set p | p in e.playerIds) == {"p1", "p2"};
    var s := GameState({"p1", "p2"}, [e], None, {}, {"p1", "p2"});
    assert UnknownIds(s0, e) == {} && RepeatedLineClosers(s0, e) == {};
    assert EnsurePlayersExist(s0, e) == Ok(());
    assert s0.(events := s0.events + [e], lineWinners := s0.lineWinners + (set p | p in e.playerIds)) == s;
    assert ApplyEvent(s0, e, now) == Ok(s);
    var again := GameEvent(LineClosed, ["p2"], None, None);
    assert RepeatedLineClosers(s, again) == {"p2"};
  }

  /** Two card closures: all closers are winners and the first finish time
      stays. */
  lemma CardClosedKeepsFirstFinish(t: Timestamp, now: Timestamp)
    ensures var first := GameEvent(CardClosed, ["p1", "p2"], Some(t), Some(10));
            var second := GameEvent(CardClosed, ["p3"], Some(t), Some(10));
            var r := ApplyAll(StartState({"p1", "p2", "p3"}), [(first, now), (second, now)]);
            r.Ok? && r.value.winners == {"p1", "p2", "p3"} && r.value.finishedAt == Some(t)
  {
    var first := GameEvent(CardClosed, ["p1", "p2"], Some(t), Some(10));
    var second := GameEvent(CardClosed, ["p3"], Some(t), Some(10));
    var s0 := StartState({"p1", "p2", "p3"});
    assert (set p | p in first.playerIds) == {"p1", "p2"};
    assert (set p | p in second.playerIds) == {"p3"};
    var s1 := GameState({"p1", "p2", "p3"}, [first], Some(t), {"p1", "p2"}, {});
    var s2 := GameState({"p1", "p2", "p3"}, [first, second], Some(t), {"p1", "p2", "p3"}, {});
    assert UnknownIds(s0, first) == {} && UnknownIds(s1, second) == {};
    assert EnsurePlayersExist(s0, first) == Ok(()) && EnsurePlayersExist(s1, second) == Ok(());
    assert FinishTime(s0, first, now) == t && FinishTime(s1, second, now) == t;
    assert s0.(events := s0.events + [first], winners := s0.winners + {"p1", "p2"}, finishedAt := Some(t)) == s1;
    assert s1.(events := s1.events + [second], winners := s1.winners + {"p3"}, finishedAt := Some(t)) == s2;
    assert ApplyEvent(s0, first, now) == Ok(s1);
    assert ApplyEvent(s1, second, now) == Ok(s2);
    var steps := [(first, now), (second, now)];
    assert ApplyAll(s2, []) == Ok(s2);
    assert ApplyAll(s1, [(second, now)]) == Ok(s2);
    assert steps[1..] == [(second, now)];
  }

  /** An event naming a player outside the roster fails. */
  lemma UnknownPlayerRejected(now: Timestamp)
    ensures ApplyEvent(StartState({"known"}), GameEvent(CardClosed, ["unknown"], None, None), now).Err?
  {
    ApplyRejectsUnknown(StartState({"known"}), GameEvent(CardClosed, ["unknown"], None, None), now, 0);
  }
}
