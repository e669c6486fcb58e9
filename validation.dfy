/** The validation vocabulary that app/domain.py and app/domain/game.py both
    define, word for word: the `DomainValidationError` messages, the event
    types, `GameSettings`, `normalize_player` and `unique_preserve_order`.
    It is defined once here and used by both. */
module Validation {
  import opened Wrappers
  import opened Seqs
  import opened Text

  datatype GameEventType = LineClosed | CardClosed

  /** One constructor per `DomainValidationError` message; names in a message
      are carried as data (a set where the source prints a sorted list). */
  datatype DomainError =
    | NonPositiveCardPrice
    | NonPositiveLineBonus
    | BlankPlayerName
    | EmptyEvent
    | DuplicateEventPlayers
    | TooFewPlayers
    | NoCardWinner
    | UnknownLineWinner(name: string)
    | DuplicateCardWinners
    | UnknownCardWinner(name: string)
    | UnknownPlayersInEvent(names: set<string>)
    | LineAlreadyClosed(names: set<string>)
    | CardAlreadyClosed(names: set<string>)
    | GameNotFound
    | GameAlreadyFinished
    | UnknownPlayer(name: string)
    | TooFewUniquePlayers
    | GameNotFinished

  /** Prices in kopecks. */
  datatype GameSettings = GameSettings(cardPrice: int, lineBonus: int)

  /** The frozen dataclass constructor with its `__post_init__` checks. */
  function NewSettings(cardPrice: int, lineBonus: int): (r: Result<GameSettings, DomainError>)
    ensures r.Ok? <==> cardPrice > 0 && lineBonus > 0
    ensures r.Ok? ==> r.value == GameSettings(cardPrice, lineBonus)
    ensures cardPrice <= 0 ==> r == Err(NonPositiveCardPrice)
    ensures cardPrice > 0 && lineBonus <= 0 ==> r == Err(NonPositiveLineBonus)
  {
    if cardPrice <= 0 then Err(NonPositiveCardPrice)
    else if lineBonus <= 0 then Err(NonPositiveLineBonus)
    else Ok(GameSettings(cardPrice, lineBonus))
  }

  /** A name that is trimmed and not empty. */
  predicate IsPlayerId(name: string) {
    name != [] && Strip(name) == name
  }

  function NormalizePlayer(name: string): (r: Result<string, DomainError>)
    ensures r.Ok? <==> Strip(name) != []
    ensures r.Ok? ==> r.value == Strip(name) && IsPlayerId(r.value)
    ensures r.Err? ==> r.error == BlankPlayerName
  {
    var value := Strip(name);
    StripIdempotent(name);
    if value == [] then Err(BlankPlayerName) else Ok(value)
  }

  function StripAll(names: seq<string>): (r: seq<string>)
    ensures |r| == |names| && forall i :: 0 <= i < |names| ==> r[i] == Strip(names[i])
  {
    seq(|names|, i requires 0 <= i < |names| => Strip(names[i]))
  }

  predicate NoBlank(names: seq<string>) {
    forall i :: 0 <= i < |names| ==> Strip(names[i]) != []
  }

  lemma StripAllAreIds(names: seq<string>)
    requires NoBlank(names)
    ensures forall x :: x in StripAll(names) ==> IsPlayerId(x)
  {
    forall x | x in StripAll(names) ensures IsPlayerId(x) {
      var j :| 0 <= j < |names| && StripAll(names)[j] == x;
      StripIdempotent(names[j]);
    }
  }

  /** What `unique_preserve_order` returns or raises: the trimmed names without
      repeats in first-occurrence order, or an error if some name is blank. */
  function UniqueNames(names: seq<string>): (r: Result<seq<string>, DomainError>)
    ensures r.Err? <==> !NoBlank(names)
    ensures r.Err? ==> r.error == BlankPlayerName
    ensures r.Ok? ==> Distinct(r.value) && forall i :: 0 <= i < |r.value| ==> IsPlayerId(r.value[i])
    ensures r.Ok? ==> forall i :: 0 <= i < |names| ==> Strip(names[i]) in r.value
    ensures r.Ok? ==> forall i :: 0 <= i < |r.value| ==> r.value[i] in StripAll(names)
  {
    if !NoBlank(names) then Err(BlankPlayerName)
    else
      var d := Dedupe(StripAll(names));
      StripAllAreIds(names);
      Ok(d)
  }

  /** A blank name anywhere makes the whole roster invalid. */
  lemma UniqueNamesBlank(names: seq<string>, i: nat)
    requires i < |names| && Strip(names[i]) == []
    ensures UniqueNames(names) == Err(BlankPlayerName)
  {
  }

  /** Extending a valid roster by one non-blank name adds its trimmed form
      at the end unless it is already there. */
  lemma UniqueNamesStep(names: seq<string>, i: nat)
    requires i < |names| && UniqueNames(names[..i]).Ok? && Strip(names[i]) != []
    ensures var d := UniqueNames(names[..i]).value;
            UniqueNames(names[..i + 1]) == Ok(if Strip(names[i]) in d then d else d + [Strip(names[i])])
  {
    var pre, next := names[..i], names[..i + 1];
    assert next == pre + [names[i]];
    assert NoBlank(next) by {
      forall k | 0 <= k < |next| ensures Strip(next[k]) != [] {
        if k < i { assert next[k] == pre[k]; }
      }
    }
    assert StripAll(next) == StripAll(pre) + [Strip(names[i])];
    DedupeSnoc(StripAll(pre), Strip(names[i]));
  }

  /** The loop of `unique_preserve_order` with its `seen` set and `result`
      list (app/domain.py:46-54, the same code as app/domain/game.py:62-70). */
  method UniquePreserveOrder(players: seq<string>) returns (r: Result<seq<string>, DomainError>)
    ensures r == UniqueNames(players)
  {
    var seen: set<string> := {};
    var result: seq<string> := [];
    for i := 0 to |players|
      invariant UniqueNames(players[..i]) == Ok(result)
      invariant forall x :: x in seen <==> x in result
    {
      var normalized := NormalizePlayer(players[i]);
      if normalized.Err? {
        UniqueNamesBlank(players, i);
        return Err(normalized.error);
      }
      var np := normalized.value;
      UniqueNamesStep(players, i);
      if np !in seen {
        seen := seen + {np};
        result := result + [np];
      }
    }
    assert players[..|players|] == players;
    return Ok(result);
  }

  /** Normalising an already normalised roster changes nothing. */
  lemma UniqueNamesIdempotent(names: seq<string>)
    requires UniqueNames(names).Ok?
    ensures UniqueNames(UniqueNames(names).value) == UniqueNames(names)
  {
    var u := UniqueNames(names).value;
    assert StripAll(u) == u;
    DedupeOfDistinct(u);
  }

  /** The result keeps the first occurrences of the trimmed names in order. */
  lemma UniqueNamesOrder(names: seq<string>)
    requires UniqueNames(names).Ok?
    ensures var u := UniqueNames(names).value;
            forall i, j :: 0 <= i < j < |u| ==>
              IndexOf(StripAll(names), u[i]) < IndexOf(StripAll(names), u[j])
  {
    DedupeFirstOccurrenceOrder(StripAll(names));
  }

  /** On a list of already trimmed, distinct, non-blank names the
      normalisation is the identity. */
  lemma UniqueNamesOfIds(names: seq<string>)
    requires Distinct(names) && forall i :: 0 <= i < |names| ==> IsPlayerId(names[i])
    ensures UniqueNames(names) == Ok(names)
  {
    assert StripAll(names) == names;
    DedupeOfDistinct(names);
  }
}
