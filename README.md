# Lotto settlement, modelled in Dafny

The lotto back end tracks games among a fixed roster of players. Every
player buys a card for `card_price` kopecks. A player who closes a line
collects `line_bonus` kopecks from each other player. The players who close
a card split the pot of all card prices. Afterwards the back end turns the
per-player nets into a list of debtor-to-creditor transfers. This project
models the code that does this, and proves what it computes:

- **Variant A**, app/domain.py (module `Domain`). `calculate_net` charges
  every seat the card price, moves the line bonus once per line-winner
  occurrence, and splits the pot with `divmod`. The remainder kopecks go to
  the first card winners in card-winner order. `build_transfers` runs the
  two-pointer sweep over creditors and debtors in the net's insertion
  order. `CalculateNet` and `BuildTransfers` are the loops; `NetOf` and
  `PlanOf` state their results in closed form.
- **Variant B**, app/domain/settlement.py (module `Settlement`).
  `calculate_settlement` takes one line winner and allows zero prices. It
  silently drops repeated card winners and gives the remainder kopecks in
  roster order. `calculate_transfers` sorts creditors and debtors by name
  and raises when they do not balance.
- **The two-pointer sweep** that both variants perform (module `Ledger`).
  `Sweep` is its reference definition. `SweepLoop` is the in-place loop
  over the two lists, proved to compute it. Conservation, exhaustion,
  positivity and order are proved about `Sweep`.
- **The game state machine**, app/domain/game.py (module `Game`).
  `apply_event` is a pure transition on a frozen `GameState`.
- **The validation vocabulary** that app/domain.py and app/domain/game.py
  both define word for word (module `Validation`): the
  `DomainValidationError` messages, `GameSettings`, `normalize_player` and
  `unique_preserve_order`.
- **The service-level game lifecycle**, app/service.py (module `Service`).
  `LottoService` is a class whose fields are the repository's tables: the
  game records, the last row id and the stored results. Winners are
  appended as `append_winners` does (app/repository.py:75-90). A stored
  result comes back ordered by player name, as `get_result` reads it.
- **The in-memory sessions** of app/main.py (module `Sessions`).
  `SessionStore` is a class holding the session counter and the
  `SESSIONS` dict. It covers winner validation, replace-not-append winner
  updates, finishing into the history, and new-game numbering. The store
  keeps each player once: `create_session` as written keeps a repeated
  name, and the net of such a session does not sum to zero (see
  "## Findings"). `CreateCheckAsWritten` and `FinishNetAsWritten` state
  what the code as written does.
- **The voice command parser**, app/services/command_parser.py (module
  `CommandParser`). It covers text normalisation, prefix-command
  extraction, the `normalized_to_original` index, top-k matching, and the
  threshold and ambiguity rules. `str.lower`, the `\w` character class and
  the `difflib` similarity ratio are function parameters. The score is
  typed 0..100.

Support modules: `Wrappers` (`Option`, and `Result`, whose `Err` stands for
a raised exception), `Seqs` (`Distinct`, `Dedupe`, `IndexOf`, `Count`, sums
over a key list) and `Text` (Python's `str.strip` whitespace set and
code-point string order).

Two behaviours of the code a reader might not expect:

- `calculate_net` in app/domain.py does not reject a roster that repeats a
  player; it only needs two seats.
- `build_transfers` sweeps in the net's insertion order, not sorted by name;
  only variant B sorts.

## Model

| member | source | states |
|---|---|---|
| Validation.NewSettings | app/domain.py:22-26 | Settings are accepted exactly when both prices are positive. A non-positive card price is reported before a non-positive line bonus. app/domain/game.py:18-22 is the same code. |
| Validation.NormalizePlayer | app/domain.py:39-43 | Succeeds exactly when the stripped name is non-empty and returns that stripped name. Otherwise it raises the blank-name error. |
| Validation.UniqueNames | app/domain.py:46-54 | Fails exactly when some name is blank. Otherwise the result is duplicate-free and trimmed, holds the stripped form of every input, and holds nothing else. |
| Validation.UniquePreserveOrder | app/domain.py:46-54 | The `seen`/`result` loop returns `UniqueNames`, including the error at the first blank name. app/domain/game.py:62-70 is the same loop. |
| Validation.UniqueNamesBlank | app/domain.py:49-50 | One blank name anywhere makes the whole call fail. |
| Validation.UniqueNamesStep | app/domain.py:50-53 | One more non-blank name appends its stripped form exactly when it has not been seen. |
| Validation.UniqueNamesIdempotent | app/domain.py:46-54 | Applying the function to its own result returns the same result. |
| Validation.UniqueNamesOrder | app/domain.py:46-54 | The result lists the names in the order of their first occurrence in the stripped input. |
| Validation.UniqueNamesOfIds | app/domain/game.py:62-70 | On already trimmed, distinct, non-blank names the function is the identity. |
| Domain.NewGameEvent | app/domain.py:34-36 | An event is built exactly when its player list is non-empty. |
| Domain.NetOf | app/domain.py:63-66 | Fewer than two seats fail first, then an empty card-winner list. On success the keys are the distinct players in first-seat order. |
| Domain.NetValue | app/domain.py:68-89 | Every player's net is the closed-form amount: the card price, plus the line bonuses, plus the card payouts. |
| Domain.NetOfSucceeds | app/domain.py:63-89 | Succeeds exactly when there are two seats and a card winner, the line winners are known, and the card winners are non-blank, distinct after trimming and known. |
| Domain.NetOfUnknownWinner | app/domain.py:71-73 | The first line winner who is not a player is the one reported. |
| Domain.NetOfUnknownCardWinner | app/domain.py:86-88 | The first card winner who is not a player is the one reported, under its stripped name. |
| Domain.NetOfDuplicateCardWinner | app/domain.py:81-83 | Card winners that repeat after trimming are rejected. |
| Domain.NetOfAmounts | app/domain.py:68-89 | On success each player's net is `NetAmount` over the normalised card winners. |
| Domain.NetOfKnownWinners | app/domain.py:71-89 | On success every line winner and every card winner is a player, and there is at least one card winner. |
| Domain.LineGainClosedForm | app/domain.py:71-78 | Each line-winner occurrence, repeats included, adds `bonus*(N-1)` to the winner. It takes `bonus` from each seat of every other player. |
| Domain.LineDeltaSum | app/domain.py:74-78 | With distinct players one line win moves no money in or out. |
| Domain.LineGainSum | app/domain.py:71-78 | With distinct players all the line wins together sum to zero. |
| Domain.CardShareOf | app/domain.py:85-89 | The card winner at index `idx` receives `pot div k`, plus one kopeck exactly when `idx < pot mod k`. A player who is not a card winner receives nothing. |
| Domain.CardShareSum | app/domain.py:85-89 | The first `m` payouts add up to `m` shares plus one kopeck for each of them below the remainder. |
| Domain.CardShareTotal | app/domain.py:80-89 | All the card payouts together are exactly the pot. |
| Domain.StakeSum | app/domain.py:68-78 | The card prices and the line bonuses together sum to minus the pot. |
| Domain.NetAmountSum | app/domain.py:68-89 | Over distinct players the closed-form nets sum to zero. |
| Domain.NetZeroSum | app/domain.py:68-89 | With distinct players the net returned by `calculate_net` sums to exactly zero. |
| Domain.ChargedAll | app/domain.py:74-77 | Once the whole roster has been charged, each seat of a non-winner has paid the bonus once and the winner has paid nothing. |
| Domain.ChargingStep | app/domain.py:74-77 | Seat `j` pays the bonus unless it is the winner's seat. |
| Domain.ChargingEnd | app/domain.py:78 | After the loop the winner collects `bonus*(N-1)`, which completes the line win. |
| Domain.PayingStep | app/domain.py:89 | The winner at `idx` receives its share plus, below the remainder, one kopeck more. |
| Domain.ChargeLineWin | app/domain.py:74-78 | Charging one line win takes the nets from the state before that win to the state after it. |
| Domain.ChargeLineWinners | app/domain.py:68-78 | The line-bonus loop returns the staked nets, or raises at the first unknown line winner. |
| Domain.PayCardWinners | app/domain.py:85-89 | The card-payout loop pays every winner its share and its kopeck, or raises at the first unknown card winner. |
| Domain.CalculateNet | app/domain.py:57-91 | The method runs the checks and loops in the source's order and returns exactly `NetOf`. |
| Domain.BuildTransfers | app/domain.py:94-115 | The method lists creditors and debtors in insertion order and returns the transfers of their sweep. |
| Domain.TransfersSettle | app/domain.py:94-115 | On a zero-sum net each player receives its positive net and pays its negative net. So received minus paid reproduces every balance. |
| Domain.TransfersVolume | app/domain.py:94-115 | On a zero-sum net the total transferred equals the total credit, which also equals the total debt. |
| Domain.TransferParties | app/domain.py:100-113 | Every transfer is positive and goes from a player with a negative net to a player with a positive net. |
| Domain.TransfersInListOrder | app/domain.py:95-113 | Creditors are paid, and debtors pay, in the order the net lists them, none skipped: from one transfer to the next, the creditor is the same or the next one in the list, and likewise the debtor. |
| Ledger.Items | app/domain.py:95-96 | The entries are the net's keys in insertion order, each with its amount. |
| Ledger.Creditors | app/domain.py:95 | Keeps only the positive entries. |
| Ledger.Debtors | app/domain.py:96 | Keeps only the negative entries, with their amounts negated. |
| Ledger.AmountInCreditors | app/domain.py:95 | A player's credit is its net when that net is positive, and zero otherwise. |
| Ledger.AmountInDebtors | app/domain.py:96 | A player's debt is minus its net when that net is negative, and zero otherwise. |
| Ledger.SumCreditorsDebtors | app/domain.py:95-96 | Total credit minus total debt is the sum of the net. |
| Ledger.CreditorsDistinct | app/domain.py:95 | The creditor list names each player at most once. |
| Ledger.DebtorsDistinct | app/domain.py:96 | The debtor list names each player at most once. |
| Ledger.Sweep | app/domain.py:100-113 | At the end at least one list is used up, and the leftovers are still positive. Every transfer is positive. |
| Ledger.SweepLength | app/domain.py:100-113 | Non-empty lists produce at most `#creditors + #debtors - 1` transfers: every step uses up at least one entry. |
| Ledger.SweepStep | app/domain.py:101-113 | One step: the head debtor pays the head creditor the smaller amount, and whichever side reaches zero is dropped. |
| Ledger.SweepLoop | app/domain.py:98-113 | The in-place loop over the two lists returns exactly `Sweep`'s transfers. It reports which list was used up. |
| Ledger.SweepAtStep | app/domain/settlement.py:98-113 | Overwriting the two head entries and advancing whichever reached zero leaves the remaining sweep unchanged. |
| Ledger.ReduceInPlace | app/domain.py:106-113 | Overwriting an entry in place and advancing past zero gives the same list as dropping the paid amount from the head. |
| Ledger.SweepConserves | app/domain.py:100-113 | For every player, what it received plus its leftover credit is its credit. Likewise, what it paid plus its leftover debt is its debt. |
| Ledger.SweepVolume | app/domain.py:100-113 | Total transferred plus the leftover credit is the total credit. Likewise for the total debt. |
| Ledger.SweepExhausts | app/domain/settlement.py:97-116 | Both lists are used up exactly when total credit equals total debt. |
| Ledger.SweepSettles | app/domain.py:100-113 | With balanced lists every creditor receives exactly its credit and every debtor pays exactly its debt. |
| Ledger.SweepListed | app/domain.py:101-104 | Every transfer is from a listed debtor to a listed creditor. |
| Ledger.SweepCreditorOrder | app/domain.py:110-111 | Two consecutive transfers go to the same creditor or to the next one in the list: the creditor pointer never moves back and skips no one. |
| Ledger.SweepDebtorOrder | app/domain.py:112-113 | Two consecutive transfers come from the same debtor or from the next one in the list: the debtor pointer never moves back and skips no one. |
| Ledger.SortByName | app/domain/settlement.py:84-91 | The result is sorted by name and is a permutation of the input. |
| Ledger.SortByNameKeeps | app/domain/settlement.py:84-91 | Sorting keeps positivity, the total, each player's amount, and distinct names. |
| Ledger.PermutationSum | app/domain/settlement.py:84-91 | A permutation has the same total and the same amount for every player. |
| Settlement.DeduplicatePreserveOrder | app/domain/settlement.py:121-128 | The `seen`-set loop returns exactly `Dedupe` of its input. |
| Settlement.SettlementOf | app/domain/settlement.py:25-42 | Errors come in the source's order: empty players, a negative price, an unknown line winner, empty card winners. On success the keys are the players, `pot == N*card_price` and `line_payouts_total == (N-1)*line_bonus`. |
| Settlement.SettlementNet | app/domain/settlement.py:47-66 | Keys are the players. Each net is the card price, plus the line term, plus the share and the remainder kopeck. |
| Settlement.SettlementValue | app/domain/settlement.py:44-75 | The returned dict's net, `pot` and `line_payouts_total` are exactly these values. |
| Settlement.SettlementSucceeds | app/domain/settlement.py:25-42 | Succeeds exactly when there are players, the prices are non-negative, the line winner is a player, there is a card winner, the players are distinct, and every card winner is a player. |
| Settlement.SettlementDuplicatePlayers | app/domain/settlement.py:34-36 | A roster with a repeated player is rejected. |
| Settlement.SettlementUnknownCardWinner | app/domain/settlement.py:38-42 | Any card winner outside the roster is rejected. |
| Settlement.SettlementIgnoresRepeatedWinners | app/domain/settlement.py:38-39 | Repeating a card winner changes nothing: the result is the same as with the deduplicated list. |
| Settlement.SettlementNets | app/domain/settlement.py:47-66 | Each player pays the card price. The line winner gains `(N-1)*bonus` and everyone else loses `bonus`. Each card winner receives `pot div k`, and the extra kopeck is 0 or 1 and only goes to card winners. |
| Settlement.ExtraAt | app/domain/settlement.py:59-66 | A player gets a remainder kopeck exactly when it is a card winner and fewer than `remainder` card winners precede it in roster order. |
| Settlement.RemainderInPlayerOrder | app/domain/settlement.py:20-22 | The remainder kopecks go in roster order: if a later card winner gets one, so does every earlier card winner. |
| Settlement.RemainderCount | app/domain/settlement.py:59-66 | Exactly `remainder` kopecks are handed out. |
| Settlement.RankMonotone | app/domain/settlement.py:61-64 | The count of card winners met so far never decreases along the roster. |
| Settlement.RankCard | app/domain/settlement.py:61-64 | The running count equals the number of distinct card winners among the first `k` players. |
| Settlement.WinnersCounted | app/domain/settlement.py:61-66 | Over the whole roster the running count reaches the number of card winners. |
| Settlement.ShareSum | app/domain/settlement.py:56-57 | The shares paid to the first `k` players are `share` times the card winners among them. |
| Settlement.ExtraSum | app/domain/settlement.py:59-66 | The remainder kopecks of the first `k` players are the smaller of `remainder` and the card winners among them. |
| Settlement.LineTermSum | app/domain/settlement.py:49-53 | The line bonus moves no money in or out. |
| Settlement.StakeLineSum | app/domain/settlement.py:47-53 | The card prices and the line terms together sum to minus the pot. |
| Settlement.CardPartSum | app/domain/settlement.py:55-66 | All the shares and remainder kopecks together are `share*k + remainder`, which is the pot. |
| Settlement.SettlementBalanced | app/domain/settlement.py:47-66 | The net sums to zero. |
| Settlement.SettlementZeroSum | app/domain/settlement.py:68-75 | On success the net sums to zero and the returned transfers are what `calculate_transfers` returns for it. |
| Settlement.ChargeLineBonus | app/domain/settlement.py:47-53 | The loop leaves each player at minus the card price plus its line term, and returns `(N-1)*bonus`. |
| Settlement.AddShare | app/domain/settlement.py:56-57 | Each card winner gains `share`; nobody else changes. |
| Settlement.DistributeRemainder | app/domain/settlement.py:59-66 | The counting loop with its `break` adds exactly `Extra` to every player. |
| Settlement.NetByPlayer | app/domain/settlement.py:47-66 | The three loops together compute exactly `SettlementNet`. |
| Settlement.NetByPlayerValue | app/domain/settlement.py:47-66 | A map holding the charged, shared and remainder amounts is `SettlementNet`. |
| Settlement.CalculateSettlement | app/domain/settlement.py:8-75 | The method returns exactly `SettlementOf`, errors included. |
| Settlement.Settle | app/domain/settlement.py:44-75 | On validated inputs it returns `SettlementValue`. |
| Settlement.TransfersOf | app/domain/settlement.py:115-116 | The only error is the imbalance error. |
| Settlement.CalculateTransfers | app/domain/settlement.py:78-118 | The sorted lists and the loop return exactly `TransfersOf`. |
| Settlement.TransfersOfBalanced | app/domain/settlement.py:115-116 | It raises exactly when the net does not sum to zero. |
| Settlement.SortedPlanExhausts | app/domain/settlement.py:97-116 | Both sorted lists are used up exactly when total credit equals total debt. |
| Settlement.SortedTransfersSettle | app/domain/settlement.py:84-113 | On a zero-sum net each player receives its positive net and pays its negative net. |
| Settlement.SortedPlanSettles | app/domain/settlement.py:84-113 | Per-player received and paid amounts equal the player's credit and debt. |
| Settlement.SortedTransferParties | app/domain/settlement.py:97-113 | Every transfer is positive and goes from a negative net to a positive net. |
| Settlement.SortedNamesOrder | app/domain/settlement.py:84-91 | In a list sorted by name, a later entry never has a smaller name. |
| Settlement.SortedTransfersByName | app/domain/settlement.py:84-113 | Consecutive transfers go to creditors, and come from debtors, in non-decreasing name order. |
| Game.NewGameEvent | app/domain/game.py:37-43 | A blank id is raised first, then an empty list, then a repeated id after trimming. The event is built exactly when no id is blank, there is at least one id, and the trimmed ids are distinct. |
| Game.StartState | app/domain/game.py:46-52 | A new game has no events, no finish time and no winners. |
| Game.UnknownIds | app/domain/game.py:102 | The unknown ids are exactly the event's ids that are not players. |
| Game.EnsurePlayersExist | app/domain/game.py:101-105 | Passes exactly when every id is a player. Otherwise it reports the set of unknown ids. |
| Game.RepeatedLineClosers | app/domain/game.py:78 | The repeated closers are exactly the event's ids that already closed a line. |
| Game.FinishTime | app/domain/game.py:90 | The existing finish time is kept. Otherwise the event's time is used, and otherwise now. |
| Game.ApplyEvent | app/domain/game.py:73-96 | A successful transition keeps the roster and appends exactly the event to `events`. |
| Game.ApplyRejectsUnknown | app/domain/game.py:75 | An event naming any non-player is rejected, whatever its type. |
| Game.LineClosedOutcome | app/domain/game.py:77-87 | A line closure succeeds exactly when all ids are players and none has already closed a line. A repeat closer raises. On success `line_winners` becomes the union, and `winners` and `finished_at` are unchanged. |
| Game.CardClosedOutcome | app/domain/game.py:89-96 | A card closure succeeds exactly when all ids are players. `winners` becomes the union, `line_winners` is unchanged, and the first finish time wins. |
| Game.StartStateValid | app/domain/game.py:46-52 | A new game satisfies the state invariant: winners and line winners are players. |
| Game.ApplyEventValid | app/domain/game.py:73-96 | A successful transition preserves the state invariant. |
| Game.ApplyEventKeeps | app/domain/game.py:83-96 | A successful transition keeps the roster and the finish time once set, appends the event, and only widens the winner sets. |
| Game.ApplyAllKeeps | app/domain/game.py:73-96 | Over any run of successful events the roster is kept, the events are the run's events in order, the first finish time stays, and the winner sets only grow. |
| Game.EventsOf | app/domain/game.py:85 | The list of events a run appends, in order. |
| Game.LineEventBuilt | app/domain/game.py:37-43 | A two-player line event is built unchanged. |
| Game.LineClosedOncePerPlayer | app/domain/game.py:77-81 | After p1 and p2 close the line, p2 closing it again raises. |
| Game.CardClosedKeepsFirstFinish | app/domain/game.py:89-96 | A second card closure adds its winner and keeps the first finish time. |
| Game.UnknownPlayerRejected | app/domain/game.py:101-105 | An event naming a stranger is rejected. |
| Service.StartCheck | app/service.py:19-23 | A blank name fails first, then fewer than two unique players, then the settings. Otherwise it returns the normalised roster. |
| Service.CheckStart | app/service.py:19-23 | The method returns `StartCheck`. |
| Service.StartedRecordValid | app/service.py:19-24 | The stored record is valid. It holds every trimmed input name, in first-occurrence order. |
| Service.CheckWinners | app/service.py:34-49 | Passes exactly when every winner is a player and none has already closed this event type. |
| Service.CheckWinnersLoop | app/service.py:34-49 | The per-winner loop and the intersection checks return `CheckWinners`. |
| Service.EventWinners | app/service.py:30-49 | A finished game fails first, then a blank name. Otherwise the deduplicated winners are checked against the record. |
| Service.EventAccepted | app/service.py:26-51 | An event is accepted exactly when the game is open, no name is blank, every deduplicated winner is a player, and none has already closed. The winners are then the deduplicated names. |
| Service.EventUnknownPlayer | app/service.py:34-36 | The first deduplicated winner who is not a player is the one reported. |
| Service.EventAlreadyClosed | app/service.py:38-49 | A repeat closer raises the line or card error, carrying the set of repeated names. |
| Service.CheckEvent | app/service.py:30-49 | The method returns `EventWinners`. |
| Service.EventAppends | app/repository.py:79-90 | Appending keeps the record valid and extends exactly the matching winner list. The other list, the roster and the finish state are unchanged. |
| Service.FinishCheck | app/service.py:57-69 | A finished game fails. Invalid settings raise. Otherwise the result is `calculate_net` on the record. |
| Service.CheckFinish | app/service.py:57-69 | The method returns `FinishCheck`. |
| Service.FinishSucceeds | app/service.py:53-69 | On a valid open record finishing fails only without a card winner. The net lists the roster and sums to zero. |
| Service.FinishedRejects | app/service.py:30-31 | Once a game is finished, both `finish_game` and `add_event` fail. |
| Service.ByName | app/repository.py:105-109 | The stored net is read back with the same amounts, its keys in name order. |
| Service.SettlementOf | app/service.py:79-86 | A missing game fails, and so does a game without a stored result. Otherwise the transfers are rebuilt from the stored net in name order. |
| Service.SettlementReproducesNet | app/service.py:86 | The rebuilt transfers give every player exactly its stored net. |
| Service.SettlementOfFinished | app/service.py:79-86 | For a finished game of a valid store, the settlement exists, sums to zero and reproduces every net. |
| Service.StartKeepsStore | app/repository.py:50-59 | Inserting a new game under the next row id keeps the store invariant. |
| Service.AddKeepsStore | app/repository.py:75-90 | Rewriting an open game keeps the store invariant. |
| Service.FinishKeepsStore | app/service.py:71-72 | Marking a game finished and saving its net keeps the store invariant. |
| Service.LottoService.constructor | app/service.py:16-17 | The store starts empty. |
| Service.LottoService.StartGame | app/service.py:19-24 | Fails exactly as `StartCheck` does and then changes nothing. On success it stores the normalised record under the next id. |
| Service.LottoService.AddEvent | app/service.py:26-51 | A missing game fails; otherwise it fails exactly as `EventWinners` does, with no store change. On success only that game changes, by appending the winners. |
| Service.LottoService.FinishGame | app/service.py:53-77 | Fails exactly as `FinishCheck` does, with no store change. On success it marks the game finished, saves the net, and returns it with its `build_transfers`. |
| Service.LottoService.GetSettlement | app/service.py:79-86 | Returns `SettlementOf` on the current store. |
| Sessions.StrippedNames | app/main.py:171 | The result holds every non-blank name's stripped form, and only trimmed non-blank names. |
| Sessions.ScanMeaning | app/main.py:261-273 | The loop fails exactly when a non-blank name is not a player, and reports the first such name. Otherwise it returns the stripped non-blank names once each, in order. |
| Sessions.ScanStops | app/main.py:268-269 | Once the loop has raised, later winners do not matter. |
| Sessions.WinnersOf | app/main.py:261-276 | Succeeds exactly when some non-blank name remains and all of them are players. It then returns them deduplicated, in first-occurrence order. An unknown name is reported before the empty check. |
| Sessions.WinnersShape | app/main.py:261-276 | The returned winners are distinct trimmed names and cover every non-blank input. |
| Sessions.ValidateWinners | app/main.py:261-276 | The `seen`/`normalized` loop returns `WinnersOf`. |
| Sessions.Roster | app/main.py:171-172 | The roster is duplicate-free and trimmed. It holds every non-blank name and nothing outside the stored list. |
| Sessions.CreateCheckAsWritten | app/main.py:171-173 | As written, a request is accepted exactly when it has at least two entries, both prices are positive and the stripped names hold at least two distinct ones. Too few distinct names fails with "at least two unique players required". The stored roster is the stripped list with repeats kept, every entry a trimmed non-blank name. |
| Sessions.CreateCheck | app/main.py:171-173 | Accepts and rejects exactly the same requests, but stores the deduplicated roster. A request-model violation is reported first. |
| Sessions.FinishNet | app/main.py:212-224 | Fails without card winners. Otherwise the net is `calculate_net` on the session and its active game. |
| Sessions.FinishNetAsWritten | app/main.py:212-224 | On a roster as `create_session` stores it (trimmed, non-blank, at least two distinct names, repeats kept) with validated winners, finishing fails exactly when there is no card winner. The net lists each distinct player once. It sums to zero when no name repeats. |
| Sessions.FinishNetSucceeds | app/main.py:212-224 | In a consistent session, finishing fails only without a card winner. The net lists every player once and sums to zero. |
| Sessions.DuplicateSeatUnbalanced | app/main.py:171-175 | A roster `[a, a, b]` is accepted, winner `b` passes, and the computed net sums to one card price instead of zero. |
| Sessions.SessionOf | app/main.py:254-258 | An unknown session id fails with not-found; otherwise the stored session is returned. |
| Sessions.WinnersRequest | app/main.py:192-205 | An empty request fails the request model, an unknown session fails with not-found, and otherwise the result is `WinnersOf`. |
| Sessions.WinnersReplaced | app/main.py:196-204 | Setting winners replaces the list: the second setting wins, and the other list is untouched. |
| Sessions.WinnersKeepSession | app/main.py:196-204 | Storing validated winners keeps the session invariant. |
| Sessions.HistoryKeepsSession | app/main.py:233 | Appending a valid result keeps the session invariant. |
| Sessions.NextGame | app/main.py:240-245 | The new game is numbered `len(history)+1` and has empty winner lists. |
| Sessions.StoreInsert | app/main.py:175-176 | Inserting a valid session under the next counter value keeps the store invariant, and that id was free. |
| Sessions.NewSessionValid | app/main.py:176-188 | A new session on a valid roster satisfies the session invariant. |
| Sessions.SessionStore.constructor | app/main.py:32-33 | The counter starts before 1 and the store is empty. |
| Sessions.SessionStore.CreateSession | app/main.py:169-189 | Fails exactly as `CreateCheck` does, with no change. On success it issues the next id (1, 2, 3, …) and stores game 1 with no winners and an empty history. The stored roster is the deduplicated one. |
| Sessions.SessionStore.SessionLine | app/main.py:192-197 | Returns `WinnersRequest`. On success it replaces only that session's line winners. |
| Sessions.SessionStore.SessionCard | app/main.py:200-205 | Returns `WinnersRequest`. On success it replaces only that session's card winners. |
| Sessions.SessionStore.FinishSessionGame | app/main.py:208-234 | Fails exactly as `FinishNet` does, with no change. On success it appends exactly one history entry. Because the stored roster has no repeats, that entry's net sums to zero. |
| Sessions.SessionStore.NewGameInSession | app/main.py:237-246 | An unknown id fails with no change. Otherwise it installs `NextGame` and leaves the history unchanged. |
| Sessions.ComputeFinishNet | app/main.py:212-224 | The method returns `FinishNet`. |
| CommandParser.Collapse | app/services/command_parser.py:202 | The result is `Squeeze` of the input: every other character is kept in order, a whitespace character right after whitespace is dropped, and any other whitespace becomes one space. So each maximal whitespace run becomes one space. No two whitespace characters remain adjacent. |
| CommandParser.NormalizeTextShape | app/services/command_parser.py:199-203 | The output has no leading or trailing whitespace, no two adjacent whitespace characters, and no "ё". |
| CommandParser.NormalizeFixedPoint | app/services/command_parser.py:199-203 | Text already in normal form and lower case is left unchanged. |
| CommandParser.NormalizeIdempotent | app/services/command_parser.py:199-203 | Normalising twice equals normalising once, provided lower-casing fixes the output. |
| CommandParser.GroupIsGreedySplit | app/services/command_parser.py:57-58 | The group exists exactly when some whitespace-then-group split of the rest matches. It is that split with the longest group. |
| CommandParser.ExtractCommand | app/services/command_parser.py:116-122 | The line pattern is tried before the card pattern. A command is found exactly when one of them matches, and the name is the stripped group. |
| CommandParser.PrefixesExclusive | app/services/command_parser.py:56-59 | No text starts with both prefixes. |
| CommandParser.NamedPlayers | app/services/command_parser.py:125 | Keeps exactly the roster names that are not blank. |
| CommandParser.IndexMapMeaning | app/services/command_parser.py:132-134 | The index maps every normalised name to the last roster name that normalises to it. |
| CommandParser.BuildIndex | app/services/command_parser.py:132-136 | The loop builds exactly that index, with its keys in first-insertion order. |
| CommandParser.SortByScore | app/services/command_parser.py:185 | The result is ordered by descending score. |
| CommandParser.SortByScorePermutation | app/services/command_parser.py:185 | Sorting is a permutation. |
| CommandParser.SortByScoreStable | app/services/command_parser.py:185 | Sorting is stable: entries with equal scores keep their order. |
| CommandParser.PrefixTop | app/services/command_parser.py:186 | The Python slice `[:limit]` keeps the first `limit` entries, negative limits included. |
| CommandParser.ExtractMatchesShape | app/services/command_parser.py:180-186 | At most `max_ambiguous_candidates` entries, by descending score, each a roster key with its own score. |
| CommandParser.ExtractMatchesBest | app/services/command_parser.py:180-186 | The first match has the best score of all names, and anything cut off scores no higher than the last kept. |
| CommandParser.WithinReach | app/services/command_parser.py:154-159 | Keeps exactly the matches at or above the threshold and within the delta of the best. |
| CommandParser.Decide | app/services/command_parser.py:139-178 | The outcome is OK, not-found or ambiguous. OK carries a name and a confidence. The others carry an error. |
| CommandParser.DecideRecognized | app/services/command_parser.py:145-178 | OK names the best match, with its score, at or above the threshold, and no other match is within reach. |
| CommandParser.MatchOf | app/services/command_parser.py:124-178 | An empty roster gives not-found with its message. The result has the shape of `Decide`. |
| CommandParser.MatchPlayer | app/services/command_parser.py:124-178 | The method returns `MatchOf`. |
| CommandParser.MatchNotFound | app/services/command_parser.py:125-152 | Not-found exactly when the roster is blank, there is no match, or the best score is below the threshold. |
| CommandParser.MatchLowConfidence | app/services/command_parser.py:147-152 | Below the threshold, every top match is a candidate, carrying its score and its original roster name. |
| CommandParser.MatchAmbiguous | app/services/command_parser.py:154-172 | Ambiguous exactly when more than one match is within reach. Exactly those matches are then listed, with their scores. |
| CommandParser.MatchRecognized | app/services/command_parser.py:174-178 | OK returns an original non-blank roster name whose score is the confidence, at or above the threshold. No roster name scores higher. |
| CommandParser.MatchRecognizedLast | app/services/command_parser.py:132-134 | The name returned is the last roster spelling with that normal form. |
| CommandParser.MatchRecognizedUnrivalled | app/services/command_parser.py:154-161 | With an OK result, no other top match is both above the threshold and within the delta. |
| CommandParser.ParseOf | app/services/command_parser.py:64-104 | Unknown command exactly when no pattern matches, with its message. An empty name gives `EMPTY_NAME`. Otherwise the status, name, confidence, candidates and error are those of the match, with the pattern's event type. |
| CommandParser.Parse | app/services/command_parser.py:64-104 | The method returns `ParseOf`. |
| CommandParser.PayloadText | app/services/command_parser.py:108-113 | A string is used as is. A dict gives `text` if non-empty, else `transcript`, else `""`. Anything else gives `""`. |
| CommandParser.ParseWhisperOutput | app/services/command_parser.py:106-114 | Parses the unwrapped text. |
| Text.Strip | app/domain.py:40 | The result has no leading or trailing whitespace. |
| Text.StripIdempotent | app/domain.py:40 | Stripping twice equals stripping once. |
| Text.StripIsSlice | app/domain.py:40 | The result is a slice of the input with only whitespace cut away on either side. |
| Text.LexLeqTotal | app/domain/settlement.py:84-91 | Name order is total, which the sort relies on. |
| Text.LexLeqTransitive | app/domain/settlement.py:84-91 | Name order is transitive. |
| Seqs.Dedupe | app/domain/settlement.py:121-128 | Duplicate-free, holding exactly the elements of the input. |
| Seqs.DedupeSnoc | app/domain/settlement.py:125-127 | One more element is appended exactly when it is new. |
| Seqs.DedupeFirstOccurrenceOrder | app/domain/settlement.py:121-128 | The result keeps first occurrences in order. |
| Seqs.DedupeLength | app/domain/settlement.py:34-36 | The length is unchanged exactly when the input was already distinct. |
| Seqs.DedupeIdempotent | app/domain/settlement.py:121-128 | Deduplicating twice equals deduplicating once. |

## Left out

- Sessions.SessionStore.CreateSession, Sessions.SessionStore.FinishSessionGame:
  the store keeps the deduplicated roster (`CreateCheck`), where
  app/main.py:171 and :178 store the stripped list with repeats kept. The
  zero-sum ensures of `FinishSessionGame` does not hold of app/main.py
  when the roster repeats a name (`DuplicateSeatUnbalanced`). What the
  code as written does is stated by `CreateCheckAsWritten` and
  `FinishNetAsWritten`.
- SQL storage (app/repository.py, app/storage/) is replaced by in-memory
  maps. The JSON encoding, the `AUTOINCREMENT` row ids beyond "the next id",
  and the float columns are not modelled.
- `get_stats`, `get_games_count` and `get_global_balance` are not modelled:
  they are SQL aggregation over the result table.
- HTTP: the FastAPI routers, the `frontend()` page, frontend/main.js and the
  status codes. Errors are `Result` values. `SessionError` records which
  handler check failed; the request-model constraints of app/main.py:17-24
  are one `InvalidRequest` error.
- app/services/transcription_service.py and app/api/schemas.py are not part
  of this model. They are a network client and Pydantic models with rouble
  floats.
- `get_session` (app/main.py:249-251) is `SessionOf` and has no method of
  its own.
- Clocks: `datetime.utcnow()` and `datetime.now()` are passed in as a
  `Timestamp` parameter.
- `str.lower`, the Unicode `\w` class and `SequenceMatcher.ratio` are
  function parameters, so the model says nothing about their behaviour.
  `NormalizeIdempotent` needs lower-casing to fix its own output. The
  confidence is the integer score, not its `float` conversion.
- `ParseResult.to_dict` and the `float` confidence values are not modelled.
- CommandParser.ParseWhisperOutput: a dict entry that is present but is not
  a string is not modelled. `str()` of such a value is not modelled.
- CommandParser.ExtractMatches: `list.sort` works in place on a Python
  list. It is modelled as a stable bucket sort on values; the order it
  produces is the same.
- Game.ApplyEvent: the "unsupported event type" branch (app/domain/game.py:98)
  cannot be reached, because the event type has two constructors.
- Error messages that list names (`", ".join(sorted(...))`) carry the set
  of names. The rendered string is not modelled.
- Domain.TransfersInListOrder: the order is stated against the creditor and
  debtor lists (`Creditors(Items(n))`, `Debtors(Items(n))`), not lifted to
  the positions of the net's keys.
- Import wiring: app/domain/__init__.py imports names that
  app/domain/settlement.py does not define, and the `app/domain/` package
  shadows `app/domain.py`. Each file is modelled from its own text. The
  service uses `calculate_net`, `build_transfers` and
  `unique_preserve_order` of app/domain.py, and the `GameEvent` of
  app/domain/game.py (it reads `event_type` and `player_ids`).
- tests/test_api.py:36 expects 3000 kopecks where `calculate_net` computes
  2500. No property is drawn from that line.
- The storage layer's concurrency (`check_same_thread=False`) is not
  modelled.

## Findings

| source | as written | input that shows it | evidently intended | confidence | as-written member | corrected member |
|---|---|---|---|---|---|---|
| app/main.py:171-175 | `create_session` only checks `len(set(players)) >= 2` and stores the stripped list with repeats kept. `calculate_net` then charges a repeated player once but counts every seat in the pot and in the line charges. | players `[a, a, b]`, any positive prices, card winner `b`, no line winner: the net sums to one card price, not zero | store each name once (the "unique players" the check counts), so the nets sum to zero | not executed | Sessions.DuplicateSeatUnbalanced | Sessions.CreateCheck |
