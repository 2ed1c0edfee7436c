# Ligretto game state and room-search sagas, in Dafny

This project models two pure pieces of the Ligretto card game.

- **The backend game service.** It creates, starts, joins and ends games that live in a store keyed by game id. Each operation reads one game, applies a record transform and writes the result back. The store is modelled as `map<string, Game>`. A game holds:
  - its players, keyed by colour;
  - the playground's decks;
  - the configured number of cards per player.
- **The client's room sagas.** They handle room search, room creation, joining a room and server room broadcasts. The model treats them as one event-step function over a per-client state. That state holds:
  - the pending search token;
  - the room list on screen;
  - the current search text.

Modules:

- `Wrappers` (`wrappers.dfy`): `Option`.
- `GameTypes` (`game_types.dfy`): `Deck`, `Player`, `Playground`, `Config` and `Game`. It also defines three predicates:
  - `KeyedByColor`: every key is the colour of its player;
  - `IsReset`: a player holds no cards and both stacks are face up;
  - `SameIdentity`: two players agree on every field that is not a pile.
- `GameService` (`game_service.dfy`): the transforms `StartedGame`, `WithPlayer` and `ResetPlayer`. It also holds the store operations `CreateGame`, `StartGame`, `AddPlayer`, `GetGame` and `EndGame`, plus the loop `StartPlayers`, which builds a started players map key by key the way the service does.
- `RoomFilter` (`room_filter.dfy`): `Room`, a substring test `Includes` that behaves like JavaScript's `String.prototype.includes`, and the broadcast filter `FilterRooms`.
- `RoomsSagas` (`rooms_sagas.dfy`): the events, the outputs, `Step` and its fold `Run`, and lemmas about event traces.

Every saga is registered with `takeLatest`. So a new search cancels the previous search's waiter. The model therefore keeps at most one pending token, and a new search replaces it. A search-finish event commits its rooms only when its token equals the pending token, and then it clears that token. A result for a superseded search is dropped. The doc comment of the search saga (sagas.ts:18-25) says the same: the old saga disappears. Without this cancellation, a late result for an earlier search would still commit last. `LateResultOfSupersededSearch` shows that it does not: search "foo", then search "bar", then the result for "bar" arrives, then the late result for "foo". The client ends up showing the rooms for "bar", not the rooms for "foo".

The redux slice is not part of this model. Its reducers are modelled as follows:
- `searchRoomsAction` stores the criteria as the current search text, which is what `selectSearch` reads;
- `setRoomsAction` replaces the room list on screen;
- `updateRoomsAction` replaces the room list on screen.

## Model

| member | source | states |
|---|---|---|
| GameService.CreateGame | apps/ligretto-backend/src/entities/game/game.service.ts:7-21 | createGame adds exactly the new id to the store. The new game has no players, no playground decks and cardsCount 3. Every game already stored is unchanged |
| GameService.GetGame | apps/ligretto-backend/src/entities/game/game.service.ts:63-65 | getGame is a plain lookup in the store: it returns the stored game, and writing that snapshot back leaves the store unchanged. Its property after a create is stated in GetAfterCreate |
| GameService.GetAfterCreate | apps/ligretto-backend/src/entities/game/game.service.ts:63-65 | getGame right after createGame returns a game with no players, no decks and cardsCount 3 |
| GameService.ResetPlayer | apps/ligretto-backend/src/entities/game/game.service.ts:28-40 | The rewritten player has an empty hand and two empty face-up stacks. Its colour and every other non-pile field are kept |
| GameService.StartedGame | apps/ligretto-backend/src/entities/game/game.service.ts:23-48 | Starting a game keeps the same set of player colours, so the player count is unchanged. Every player is reset and keeps its identity. The playground decks are emptied and config is kept |
| GameService.StartPlayers | apps/ligretto-backend/src/entities/game/game.service.ts:25-41 | The for-in loop over the player keys yields a map with exactly the original keys. Each entry is the reset version of the player stored under that key |
| GameService.StartGameTransform | apps/ligretto-backend/src/entities/game/game.service.ts:24-47 | The loop-built start transform yields exactly the game StartedGame describes |
| GameService.StartGame | apps/ligretto-backend/src/entities/game/game.service.ts:23-49 | startGame resets the players of the named game and clears its decks. It keeps that game's config and player keys, the store's keys and every other game |
| GameService.StartedGameIdempotent | apps/ligretto-backend/src/entities/game/game.service.ts:27-47 | Starting a started game changes nothing |
| GameService.StartedGameKeepsKeyedByColor | apps/ligretto-backend/src/entities/game/game.service.ts:27-29 | If every key equals its player's colour before a start, that still holds after it |
| GameService.WithPlayer | apps/ligretto-backend/src/entities/game/game.service.ts:52-60 | After the add-player transform, the players' colours are the old ones plus the new player's colour. That colour maps to the new player. Every other colour keeps its player. Playground and config are unchanged |
| GameService.AddPlayer | apps/ligretto-backend/src/entities/game/game.service.ts:51-61 | addPlayer upserts the player into the named game and leaves every other game as it was |
| GameService.WithPlayerUpsert | apps/ligretto-backend/src/entities/game/game.service.ts:55-58 | Adding two players with the same colour gives the same game as adding only the second. The player count grows by one only if that colour was new |
| GameService.WithPlayerIdempotent | apps/ligretto-backend/src/entities/game/game.service.ts:55-58 | Adding the same player twice gives the same game as adding it once |
| GameService.WithPlayerCommutes | apps/ligretto-backend/src/entities/game/game.service.ts:51-61 | Two players of different colours, added one after the other in either order, give the same game, and both are present. Serialised updates lose neither |
| GameService.WithPlayerKeepsKeyedByColor | apps/ligretto-backend/src/entities/game/game.service.ts:55-58 | If every key equals its player's colour before an add, that still holds after it |
| GameService.EndGame | apps/ligretto-backend/src/entities/game/game.service.ts:67-73 | endGame removes exactly the named id from the store. Every other stored game is unchanged |
| GameService.CreateAfterEnd | apps/ligretto-backend/src/entities/game/game.service.ts:69-72 | After endGame the id is free, and creating it again stores a fresh empty game |
| RoomFilter.IncludesIffOccurs | apps/ligretto-recovery/src/ducks/rooms/sagas.ts:50 | The substring scan succeeds exactly when the search text occurs at some offset of the name. The empty search text matches every name |
| RoomFilter.FilterRooms | apps/ligretto-recovery/src/ducks/rooms/sagas.ts:50 | The broadcast filter keeps only rooms whose name contains the search text. It keeps every input room that matches, and it invents no room |
| RoomFilter.FilterIsSubsequence | apps/ligretto-recovery/src/ducks/rooms/sagas.ts:50 | The filtered list is an order-preserving subsequence of the broadcast list |
| RoomFilter.FilterCount | apps/ligretto-recovery/src/ducks/rooms/sagas.ts:50 | A matching room appears in the filtered list as often as it appears in the input. A non-matching room does not appear at all |
| RoomFilter.FilterIdempotent | apps/ligretto-recovery/src/ducks/rooms/sagas.ts:50 | Filtering twice by the same text equals filtering once |
| RoomsSagas.Step | apps/ligretto-recovery/src/ducks/rooms/sagas.ts:29-69 | See the note after this table |
| RoomsSagas.CommitsOnlyPendingToken | apps/ligretto-recovery/src/ducks/rooms/sagas.ts:29-38 | Between searches, every committed result carries the token that was pending, at most one result is committed, and none is committed when nothing is pending |
| RoomsSagas.StaleResultsIgnored | apps/ligretto-recovery/src/ducks/rooms/sagas.ts:31-36 | While token t is pending, any number of results with other tokens leave the state unchanged and put nothing |
| RoomsSagas.SupersededSearchNeverCommits | apps/ligretto-recovery/src/ducks/rooms/sagas.ts:62-63 | takeLatest cancels the earlier waiter. After a search for a is followed by a search for b, every result committed before the next search is b's. Nothing for a is ever committed |
| RoomsSagas.DuplicateResultIgnored | apps/ligretto-recovery/src/ducks/rooms/sagas.ts:33-35 | A matching result is shown and ends the wait. A duplicate result for the same token then commits nothing |
| RoomsSagas.LateResultOfSupersededSearch | apps/ligretto-recovery/src/ducks/rooms/sagas.ts:18-25 | Search "foo", search "bar", the result for "bar", then the late result for "foo": only "bar" is committed and its rooms stay on screen |

What `RoomsSagas.Step` states, event by event:

- **Search:** puts exactly one request, whose search field is the criteria. The criteria replaces the pending token.
- **Search result for the pending token:** is committed and clears the token.
- **Any other search result:** is a no-op.
- **Create and connect:** forward their payload unchanged and leave the state, including the pending token, as it was.
- **Broadcast:** shows exactly the matching rooms, in order, each as many times as it appears in the broadcast, and keeps the pending token.
- **Join error:** navigates to the rooms page.
- **Create success:** navigates to the game page of the created game.

## Left out

- The game repository (`game.repo`) is not part of this model. The store is a map. An operation on an existing game requires the id to be present, and `CreateGame` requires it to be absent. The repository's NotFound and AlreadyExists errors are not modelled.
- Concurrency, `async`/Promise plumbing and serialisation of store updates are left out. Operations apply one at a time. `WithPlayerCommutes` states only what serialisation buys.
- `getResult` is an empty placeholder, so the result of `EndGame` is the unit value `()`.
- The redux-saga runtime, inversify injection and the redux slice and selectors are left out. The assumed reducer behaviour is listed above.
- Router effects (`replace`, `push`, `generatePath`) become the outputs `Replace(RoomsPage)` and `Push(GamePage(id))`. Route strings are not modelled.
- The fields of the player record other than its colour and piles are an opaque `otherFields` map, because the player type is not part of this model. Room fields other than `uuid` and `name`, and the create and connect payloads, are opaque too.
- `OpponentCards.tsx` and `MenuItem.tsx` are pure rendering with no logic, so they are not modelled.
