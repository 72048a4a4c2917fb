# Guessing-game room server, modelled in Dafny

This project models the in-memory room orchestrator of a real-time location-guessing game server (`server/index.js`):

- the `rooms` table;
- the socket handlers that change it: `createRoom`, `joinRoom`, `toggleReady`, `startGame`, `makeGuess`, `requestNextRound` and `disconnect`;
- `startGameLogic`;
- the round score formula;
- the choice of a round's location (`shuffleArray` and `findNewLocation`).

The files are:

- `wrappers.dfy`: an `Option` type.
- `js_object.dfy`: plain JavaScript objects used as dictionaries (`Dict`).
  - It fixes the order in which `for..in`, `Object.keys` and `Object.values` visit their keys.
  - That order is: array-index keys first, in ascending numeric order, then the other keys in insertion order (ECMAScript, section 10.1.11.1).
  - Room codes are up to four base-36 characters and can be all digits, so the order matters for the `for..in` scan of `disconnect`.
  - The order of `players` decides who succeeds a departing host.
- `scoring.dfy`: the score `max(0, 5000 - floor(distance / 5))`.
  - The distance is taken in whole metres.
  - A lemma ties this to the formula on the real-valued distance.
- `locations.dfy`: location choice.
  - The in-place Fisher–Yates shuffle runs on an `array`.
  - `findNewLocation` runs its bounded sampling loop.
  - `Math.random()` is an injected sequence of draws in [0, 1).
  - The city-boundary test and the Street View imagery lookup are oracle parameters.
- `rooms.dfy`: the class `GameServer`.
  - It holds the field `rooms: Dict<Room>`.
  - It has one method per handler. Each handler is one atomic step.
  - The location an `await`ed `findNewLocation` would deliver is passed in as `loc`.
  - Broadcasts come back as a list of emissions. Database updates come back as a list of score increments.

`GameServer.Valid` is the table invariant, and every handler preserves it:

- every room has 1 to 8 players;
- the host is one of them;
- each player is stored under its own socket id, with a non-negative score.

Every handler also keeps every player's score from decreasing (`ScoresKept`), except `CreateRoom` on a colliding code, which replaces the old room and its scores.

In these places the code has no guard, and the model follows the code:

- `startGame` does not require the room to be in its lobby, so a host can restart a running game.
- `makeGuess` checks neither the round nor that the caller is a player.
- `requestNextRound` has no state guard. Each request after the last round raises the round again, re-sends `gameOver` and re-sends the database updates, so `currentRound` can exceed `rounds + 1`.
- `disconnect` leaves the leaver's guess in `guesses`, so the guesses' keys need not be players.
- A failed location lookup in `startGameLogic` is reported to the whole room, not only to the caller.
- `makeGuess` throws when every player has guessed but no location was ever set: the score computation reads a missing `currentLocation`.
- Neither `startGameLogic` nor `requestNextRound` clears `guesses`. When the host moves on before everyone has guessed, the earlier guesses carry into the new round: those players' new guesses are ignored, and the round completes by scoring the old guesses against the new location.
- `disconnect` never re-checks whether a round is complete. When the last player without a guess leaves, every remaining player's `makeGuess` returns early, so no player of the room can complete the round. Only a `makeGuess` from a socket outside the roster, which the handler accepts, completes it.

## Model

| member | source | states |
|---|---|---|
| Scoring.RoundScore | server/index.js:249 | The round score is between 0 and 5000. It is 5000 exactly when the guess is less than 5 m off, and 0 exactly from 25 km on. |
| Scoring.ScoreNonIncreasing | server/index.js:249 | A guess further away never scores more than a nearer one. |
| Scoring.ScoreStep | server/index.js:249 | Each further 5 metres costs exactly one point, until the score reaches zero. |
| Scoring.FloorOfFifth | server/index.js:249 | For a non-negative real distance, `floor(distance / 5)` equals the whole metres divided by 5. |
| Scoring.ScoreForDistance | server/index.js:249 | The formula on a non-negative real distance gives a score between 0 and 5000. |
| Scoring.RealScoreAgrees | server/index.js:248-249 | The formula on the real-valued distance gives the same score as the integer model on the distance's whole metres. |
| Locations.PickIndex | server/index.js:128 | `Math.floor(Math.random() * (i + 1))` is an index from 0 to i. |
| Locations.Swap | server/index.js:129 | The destructuring swap exchanges positions i and j and leaves every other position and the length unchanged. |
| Locations.SwapPermutes | server/index.js:129 | A swap is a permutation. |
| Locations.ShuffleSteps | server/index.js:127-130 | The passes of the shuffle loop from index i down to 1 keep the length. |
| Locations.Shuffled | server/index.js:126-132 | The shuffled list has the input's length. |
| Locations.ShuffleStepsPermutes | server/index.js:127-130 | Any number of remaining passes of the loop yields a permutation of the list in hand, whatever the draws. |
| Locations.ShuffledPermutes | server/index.js:126-132 | `shuffleArray` returns a permutation of its input, whatever the draws. |
| Locations.SwapElements | server/index.js:129 | Swapping in place leaves the array equal to the swapped sequence. |
| Locations.ShuffleArray | server/index.js:126-132 | The array after the in-place loop is the shuffle of its old contents under the draws. |
| Locations.Candidate | server/index.js:137-138 | The random point of an attempt, built from two consecutive draws, lies inside the city's bounding box. |
| Locations.Accepted | server/index.js:139-142 | An attempt succeeds when its point passes the city-boundary test and the imagery lookup answers "OK". |
| Locations.Fallback | server/index.js:145 | `locations[0]`: present exactly when the list is non-empty, and then one of its elements. |
| Locations.FindNewLocation | server/index.js:134-146 | Hotspot mode: no sampling; the result is the first element of the shuffled list, present exactly when the list is non-empty and always one of its elements. Random mode: 1 to 50 attempts; every attempt before the last failed the city test or the imagery lookup; the result is the last candidate if that one passed both, and otherwise 50 attempts were made and the result is `locations[0]`. |
| JsObject.ArrayIndex | server/index.js:291 | A key counts as an array index only when it is a canonical decimal numeral (no leading zero) of at most 2^32 - 2. |
| JsObject.InsertAscending | server/index.js:291 | Inserting an array-index key into an ascending run keeps it ascending and adds exactly that key. |
| JsObject.IndexKeys | server/index.js:291 | The array-index keys are visited in ascending numeric order. |
| JsObject.OtherKeys | server/index.js:291 | The keys visited after the array-index keys include no array index. |
| JsObject.IndexKeysCount | server/index.js:291 | The ascending part holds every array-index key as often as it was inserted, and no other key. |
| JsObject.OtherKeysCount | server/index.js:291 | The insertion-ordered part holds every other key as often as it was inserted, and no array-index key. |
| JsObject.PropertyOrder | server/index.js:291 | The order in which `for..in` and `Object.keys` visit an object's keys: the array-index keys ascending, then the other keys in insertion order. It has as many keys as were inserted. |
| JsObject.PropertyOrderPermutes | server/index.js:291 | The visiting order of `for..in` and `Object.keys` is a permutation of the inserted keys. |
| JsObject.PropertyOrderShape | server/index.js:291 | In the visiting order, all array-index keys come first, ascending, and then all other keys. |
| JsObject.PropertyOrderNoIndices | server/index.js:301 | When no key is an array index, as with socket ids, `Object.keys` returns the keys in insertion order. |
| JsObject.DistinctMultiplicity | server/index.js:301 | A key list has no repetitions exactly when no key occurs twice in it. |
| JsObject.PermutationKeepsDistinct | server/index.js:301 | Reordering a key list without repetitions cannot create one. |
| JsObject.Without | server/index.js:294 | Deleting a key keeps every other key. |
| JsObject.WithoutCutsOut | server/index.js:294 | Deleting a key cuts its position out of the insertion order and leaves the others in their order. |
| JsObject.DistinctCut | server/index.js:294 | Cutting one key out keeps the order free of repetitions and one shorter. |
| JsObject.IndexOf | server/index.js:294 | The position of a key's first occurrence. |
| JsObject.Dict.Put | server/index.js:211 | `obj[key] = value` sets the entry. An existing key keeps its place; a new key is appended to the insertion order. |
| JsObject.Dict.PutValid | server/index.js:211 | Assigning keeps the dictionary well formed and adds one entry exactly when the key is new. |
| JsObject.Dict.PutPut | server/index.js:182-194 | A second assignment to the same key overrides the first and leaves the order as after the first. |
| JsObject.Dict.Delete | server/index.js:294 | `delete obj[key]` removes the entry and its position, keeps the rest in order and shrinks the size by one. Deleting a missing key changes nothing. |
| JsObject.Dict.Keys | server/index.js:301 | `Object.keys` lists exactly the present keys, once each, and has the object's size. |
| JsObject.EmptyDict | server/index.js:108 | `{}` is a well-formed dictionary with no entries. |
| Rooms.NameTaken | server/index.js:206 | Some player of the room has the given name. |
| Rooms.AllReady | server/index.js:231 | Every player of the room is ready. |
| Rooms.AllGuessed | server/index.js:243 | Every player of the room has a recorded guess. |
| Rooms.HasPlayer | server/index.js:293 | The room at the code exists and the socket is one of its players. |
| Rooms.NewRoom | server/index.js:182-188 | A new room has the creator as its only player and host, with score 0 and already ready. It is at round 0 with no location and no guesses, and it satisfies the room invariant. |
| Rooms.PutRoom | server/index.js:108 | Storing a valid room that keeps every score keeps the table valid and keeps every score. |
| Rooms.ReplaceRoom | server/index.js:182 | Overwriting a code with a valid room keeps the table valid. The scores are kept when the code was new. |
| Rooms.DeleteRoom | server/index.js:296 | Deleting a room keeps the table valid and no remaining score decreases. |
| Rooms.RoundScores | server/index.js:246-249 | The round results have an entry for exactly the current players, each at most 5000 points. |
| Rooms.WithRoundScores | server/index.js:250 | Each player's score grows by exactly that player's round score and never shrinks. The roster, its order and its well-formedness are kept. |
| Rooms.Increments | server/index.js:264-275 | The game-over database updates: no more than the players, each with a non-empty name and a positive amount. Every player with a name and a positive score has its update in the list; `Rooms.IncrementsExactlyOnce` counts how often. |
| Rooms.IncrementsExactlyOnce | server/index.js:264-267 | Each update occurs in the list exactly as many times as there are players with a non-empty name and a positive score whose update it is, so no player is credited twice and none is missed. |
| Rooms.IncrementsComeFromPlayers | server/index.js:264-267 | Every database update carries some player's name and that player's current score. |
| Rooms.FirstRoomWith | server/index.js:291-293 | The room the `disconnect` scan stops at holds the socket. |
| Rooms.FirstRoomWithFinds | server/index.js:291-293 | The scan finds no room exactly when no scanned room holds the socket. Otherwise the room it finds is one of the scanned rooms and holds the socket. |
| Rooms.FirstRoomWithIsFirst | server/index.js:291-307 | No room scanned before the one found holds the socket, so the `break` stops at the first. |
| Rooms.DisconnectFindsRoom | server/index.js:291-293 | A disconnect finds a room exactly when some room of the table holds the socket. |
| Rooms.AwardRound | server/index.js:246-252 | The `forEach` over the players yields exactly the round scores, and the players with those scores added. |
| Rooms.RoundAwarded | server/index.js:246-252 | Once every player has been visited, the loop's maps are the round scores and the updated players. |
| Rooms.CollectIncrements | server/index.js:264-275 | The loop over `Object.values(room.players)` collects exactly the game-over database updates, in visiting order. |
| Rooms.FindRoom | server/index.js:291-293 | The `for..in` scan returns the first room, in property order, whose players include the socket. |
| Rooms.GameServer.constructor | server/index.js:108 | The table starts empty and valid. |
| Rooms.GameServer.StartGameLogic | server/index.js:148-159 | A missing room: nothing happens. Otherwise the round becomes 1. A found location is stored and `gameStarted` is broadcast; without one the room gets an error and keeps its old location. Nothing else changes, and the table stays valid. |
| Rooms.GameServer.CreateRoom | server/index.js:178-196 | The code is mapped to a new room with the caller as its only, ready, host, and every other room is untouched. A colliding code overwrites the old room in place; a new code is appended. The caller gets `lobbyCreated` with the lobby. A single-player room then starts at once, as `startGameLogic` does. |
| Rooms.GameServer.JoinRoom | server/index.js:198-218 | These are tested in order: a missing room, a room of 8 or more players, a room past round 0. Each gets its error and leaves the table unchanged. A name already in the room gets `lobbyCreated` without a change. Otherwise exactly the caller is appended, with score 0 and not ready, and `lobbyCreated` and `playerJoined` are sent. |
| Rooms.GameServer.ToggleReady | server/index.js:220-226 | When the caller plays in the room, only its ready flag flips and `playerReady` is broadcast. Otherwise nothing changes and nothing is sent. |
| Rooms.GameServer.StartGame | server/index.js:228-237 | A missing room or a non-host caller changes nothing and sends nothing. When the host calls and every player is ready, the room starts as in `startGameLogic`. Otherwise the host gets "Not all players are ready." and nothing changes. |
| Rooms.GameServer.MakeGuess | server/index.js:239-256 | A missing room, or a caller that already has a guess, changes nothing. Otherwise exactly this guess is added. Once every player has a guess, each player's score grows by its round score, `roundResult` is broadcast and the guesses are cleared. If no location was ever set, the call throws with the guess recorded and no score changed. Every score is kept from decreasing. |
| Rooms.GameServer.RequestNextRound | server/index.js:258-287 | A missing room or a non-host caller changes nothing. The host's request raises the round by exactly 1. Past `rounds`, `gameOver` is broadcast and the database updates are `Increments` of the players in `Object.values` order, one per player with a name and a positive score (`Rooms.IncrementsExactlyOnce`). Otherwise a found location replaces the current one and is broadcast, and without one the room gets an error. |
| Rooms.GameServer.Disconnect | server/index.js:289-310 | The caller is removed from the first room, in `for..in` order, that holds it, and no other room changes. A room left empty is deleted. Otherwise the host is kept, or, if the host left, replaced by the first remaining player in `Object.keys` order; `playerLeft` is broadcast. With no such room nothing changes. The table stays valid, so the host is always a player. |

## Left out

- HTTP routes, CORS, JWT and bcrypt authentication and the server lifecycle (server/index.js:27-101, 161-173, 313 on): plumbing with no room logic. server/database.js is not part of this model.
- The database writes themselves are external I/O. `requestNextRound` returns the list of updates instead; their asynchronous failures are not modelled.
- socket.io room membership (`socket.join`) is broadcast plumbing. Emissions are modelled only by audience (caller or room) and payload.
- `getDistanceInMeters`: the haversine formula in floating point is not modelled. The distance is an oracle yielding whole metres, and `Scoring.RealScoreAgrees` shows that truncating the real distance does not change the score.
- The city-boundary polygon test and the Street View metadata request are foreign calls, modelled as oracle predicates. A network error counts as "no imagery", as the empty `catch` does.
- `Math.random` is an injected sequence of draws in [0, 1). `generateRoomCode`'s formatting of a random float is not modelled: the code is an input to `CreateRoom`, and a collision overwrites the old room as in the source.
- Asynchronous interleaving across the `await`s in `startGameLogic`, `createRoom` and `requestNextRound` is not modelled. Each handler is one atomic step, with the location already chosen (`loc`).
- A client-sent room code that names an inherited object member (`constructor`, `toString`, `__proto__`) is not modelled. In the source the lookup then finds a non-room, and `joinRoom`, `toggleReady` and `makeGuess` throw a TypeError (server/index.js:202, 222, 241); the model treats such a code as a missing room.
- Malformed payloads are not modelled: a missing or non-object `guess`, missing `gameSettings`, and a non-numeric `rounds` (compared with JavaScript coercion in the source).
- Rooms.RoundScores: the results map holds only each player's score. The echoed guess and the `toFixed(2)` kilometre string of the source's results are left out.
- Rooms.GameServer.MakeGuess: what the process does after the TypeError (an uncaught exception) is not modelled, only that it happens, with the guess recorded and no score changed.
- Rooms.GameServer.JoinRoom: requires `NamedAs`, meaning a socket that already plays somewhere plays under the caller's name. This holds because a connection's name is the user fixed at handshake (server/index.js:169).
- Locations.ShuffleArray: its ensures ties the array to `Shuffled`. That the result is a permutation is stated by `Locations.ShuffledPermutes`, not in the method's own ensures.
- Locations.FindNewLocation: in hotspot mode the list is copied into an array and shuffled in place. The uniformity of the shuffle is a property of the random source and is not stated.
- Logging (`console.log`, `console.error`) is not modelled.
