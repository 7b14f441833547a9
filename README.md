# Date-duel bot: the game engine in Dafny

This project models the game engine of a chat bot in which a player is shown a
historical event and guesses its year. The engine (`GuessGame`) keeps a catalog
of events in load order, a cache of the players it has touched and, behind it,
the player store. Each player is a small state machine. The player is idle when
`current_event` is `None` and in a round when it holds an event id.

- `play` picks the first event, in catalog order, that the player has not
  guessed. When every event is guessed, it empties the guessed list first.
  The picked event becomes the current one.
- `guess` counts an attempt. The right year scores 10 points and ends the
  round. A wrong year costs 1 point, and the reply says whether the event
  happened earlier or later.
- `surrender` ends the round, costs 10 points and does not mark the event as
  guessed.
- `cancel` ends the round and changes nothing else.
- `get_player` is a cache-through lookup in front of the store. Closing the
  game writes the cache to the store.

Modules:

- `Wrappers` (`wrappers.dfy`): `Option` and `Result`.
- `Decimal` (`decimal.dfy`): Python's `str` of an integer, which the event
  explanation uses, together with its inverse.
- `Models` (`models.dfy`): the `HistoricalEvent` value, the stored
  `PlayerRecord` document, and the `Player` class whose fields the engine
  updates in place.
- `Game` (`game.dfy`): the `GuessGame` class, and the pure functions that
  specify it: catalog lookup `Find`, event selection `FirstUnguessed`/`Select`,
  and the round invariant `RoundConsistent`.

A Python exception is modelled as an `Err` result that leaves the state as the
exception leaves it:

- `ObjectDoesNotExists` from the store becomes `PlayerNotFound`.
- A `KeyError` from `events[player.current_event]` becomes `EventKeyMissing`.
  This happens when the player is idle, or when the current id is not in the
  catalog.
- The unbounded recursion of event selection over an empty catalog becomes
  `EmptyCatalog`. In Python this ends in a `RecursionError`, raised after the
  guessed list has been emptied.

The invariant kept for every player is `RoundConsistent`: a player in a round
holds a catalog id that is not in its guessed list. `Play` establishes it.
`Guess`, `Surrender` and `Cancel` preserve it. For a consistent player in a
round, `Guess` and `Surrender` never fail.

A guess of 1990 for an event of 1991 is answered "later": game.py:60-63
answer "earlier" only when the guess is after the true year. `Game.Scenario`
walks through this case.

## Model

| member | source | states |
|---|---|---|
| `Decimal.Digits` | src/models.py:68 | the text of a non-negative year is a non-empty run of decimal digits with no leading zero, except "0" itself |
| `Decimal.Show` | src/models.py:68 | `str(date)` is a non-empty run of integer characters from which `Parse` reads back exactly the date, so the year in an explanation is exact |
| `Decimal.ShowInjective` | src/models.py:68 | two different years never print alike |
| `Models.HistoricalEvent.Explain` | src/models.py:66-68 | the explanation of an event splits back into exactly its year and its event text |
| `Models.ExplanationRoundTrip` | src/models.py:68 | the text built as the year, " г. - ", the event text and "." splits back into exactly that year and text |
| `Models.ExplainDependsOnlyOnDateAndEvent` | src/models.py:66-68 | two events explain alike if and only if they share year and event text; category, description and image path play no part |
| `Models.Player.constructor` | src/models.py:28-32 | a new player has the given id, no current event, no guessed events, 0 attempts and score 0 |
| `Models.Player.FromRecord` | src/dao.py:99-104 | a player loaded from the store carries exactly the stored document's fields |
| `Models.Player.InGame` | src/models.py:34-36 | the player is in the game exactly when the current event holds an id, id 0 included |
| `Game.Find` | src/game.py:49 | the dictionary lookup `events[id]`: an entry with that id, and none only when no entry has that id |
| `Game.FindEntry` | src/game.py:15 | with distinct ids, looking up an entry's id gives that entry back |
| `Game.FirstUnguessed` | src/game.py:33-35 | the position of the first event in catalog order whose id is not guessed; every earlier one is guessed; none only when all are guessed |
| `Game.Select` | src/game.py:32-37 | the chosen event is in the catalog and not in the resulting guessed list; the list is kept unless every event was guessed, in which case it is emptied; nothing is chosen only for an empty catalog; after the list is emptied the first catalog event is chosen |
| `Game.SelectStable` | src/game.py:39-44 | selecting again from what a selection left behind gives the same event and list, so two plays in a row offer the same event |
| `Game.UnguessedIsStillOffered` | src/game.py:33-37 | while some event is unguessed the list is not emptied and the chosen event is no later than it in catalog order, so a surrendered event is offered again |
| `Game.GuessGame.constructor` | src/game.py:13-17 | a game over a catalog with distinct ids and a store keyed by id starts with an empty cache |
| `Game.GuessGame.Exit` | src/game.py:22-23 | closing writes every cached player's document under its id over the store, so a later lookup sees exactly what it saw before |
| `Game.GuessGame.GetPlayer` | src/game.py:25-30 | a cache hit returns the cached player and leaves the cache alone; a miss loads a fresh player equal to the stored document and caches it; a missing document fails with the cache unchanged |
| `Game.GuessGame.GetEventForPlayer` | src/game.py:32-37 | the loop with its early return and the retry after emptying the guessed list choose exactly `Select`'s event and leave exactly its list |
| `Game.GuessGame.Play` | src/game.py:39-44 | the player is loaded and cached; guessed list as `Select` leaves it; the selected event becomes the current one and is returned; attempts and score unchanged; the result satisfies the round invariant |
| `Game.GuessGame.Guess` | src/game.py:46-63 | on a missing key nothing changes; otherwise attempts + 1; the right year appends the id, ends the round, adds 10 and returns the event; a wrong year subtracts 1, keeps round and list, and answers "earlier" when the guess is later than the year and "later" otherwise; the round invariant is preserved |
| `Game.GuessGame.Surrender` | src/game.py:65-70 | on a missing key nothing changes; otherwise it returns the current event, ends the round, subtracts 10, and keeps the guessed list and attempts, so the event stays unguessed |
| `Game.GuessGame.Cancel` | src/game.py:72-74 | the round ends, and guessed list, attempts and score are unchanged; the player is cached under its id |

## Left out

- The chat transport, command handlers and reply texts of src/bot.py are not
  part of this model. This includes the caller's check that a guess lies in
  [0, 2023] and the `/stat` average, which is floating-point division with
  Python's `round`.
- Player creation in the store (`PlayerDao.create` and its idempotence) is a
  database wrapper and is not modelled. The store appears only as a map of
  documents that feeds `GetPlayer` and receives `Exit`'s writes.
- The MongoDB driver, connection and configuration (src/dao.py, src/database.py,
  src/config.py) are external. The catalog and the store are given to the
  constructor instead of being loaded from the database.
- `HistoricalEvent.get_image_file` is a filesystem lookup and is not modelled.
- `__enter__` only returns the game, so it has no counterpart.
- The catalog dictionary is modelled as a sequence with distinct ids in
  insertion order. Ids are distinct because they are the store's primary keys.
- `Models.Player.InGame`: Python's `isinstance(current_event, int)` would also
  accept a boolean. `Option<int>` cannot hold one, so that case is not modelled.
- Concurrent handlers sharing the cache are not modelled: every operation is
  sequential.
- `Game.GuessGame.GetEventForPlayer`: the endless recursion over an empty
  catalog is cut off after one step and reported as `EmptyCatalog`. The model
  keeps the guessed list emptied, as Python leaves it when it gives up.
