/**
 * The in-memory room table of the game server and its socket event handlers:
 * createRoom, joinRoom, toggleReady, startGame, makeGuess, requestNextRound
 * and disconnect. Each handler runs as one atomic step; the location a
 * handler would await is passed in as `loc`, already chosen by
 * Locations.FindNewLocation. Broadcasts are returned as a list of emissions.
 */
module Rooms {
  import opened Wrappers
  import opened JsObject
  import opened Locations
  import Scoring

  type SocketId = string
  type RoomCode = string

  /** `gameSettings.type`: "singleplayer", or anything else. */
  datatype GameType = Singleplayer | Multiplayer

  datatype GameSettings = GameSettings(gameType: GameType, mode: Mode, rounds: int)

  datatype Player = Player(id: SocketId, name: string, score: int, ready: bool)

  /** A room: `currentLocation` is absent until a round first finds a location. */
  datatype Room = Room(host: SocketId, players: Dict<Player>, gameSettings: GameSettings,
                       currentRound: int, currentLocation: Option<Location>,
                       guesses: map<SocketId, Location>)

  const MaxPlayers: nat := 8

  const RoomNotFound := "Room not found."
  const RoomFull := "Room is full."
  const AlreadyStarted := "Game has already started."
  const NotAllReady := "Not all players are ready."
  const NoStartLocation := "Failed to find a starting location."
  const NoNextLocation := "Could not find a new location."

  datatype Event =
    | LobbyCreated(code: RoomCode, room: Room)
    | PlayerJoined(players: Dict<Player>)
    | PlayerReady(players: Dict<Player>)
    | GameStarted(code: RoomCode, round: int, totalRounds: int, location: Location,
                  players: Dict<Player>, host: SocketId, gameSettings: GameSettings)
    | RoundResult(scores: map<SocketId, nat>, players: Dict<Player>, actualLocation: Location)
    | NewLocation(location: Location, round: int)
    | GameOver(finalScores: Dict<Player>)
    | PlayerLeft(players: Dict<Player>, newHost: SocketId)
    | Error(message: string)

  /** `socket.emit` goes to the calling connection, `io.to(code).emit` to everyone in the room. */
  datatype Audience = Caller | Everyone(code: RoomCode)

  datatype Emit = Emit(to: Audience, event: Event)

  /** One `UPDATE users SET total_score = total_score + amount WHERE username = name`. */
  datatype ScoreIncrement = ScoreIncrement(name: string, amount: int)

  /** What every room in the table satisfies between events. */
  ghost predicate RoomValid(r: Room) {
    && r.players.Valid()
    && 1 <= r.players.Size() <= MaxPlayers
    && r.host in r.players.entries
    && (forall id | id in r.players.entries :: r.players.entries[id].id == id && r.players.entries[id].score >= 0)
    && r.currentRound >= 0
  }

  /** Every room of the table is valid, and the table is a well-formed dictionary. */
  ghost predicate TableValid(rooms: Dict<Room>) {
    rooms.Valid() && forall c | c in rooms.entries :: RoomValid(rooms.entries[c])
  }

  /** No player in the room before and after lost points. */
  ghost predicate RoomScoresKept(before: Room, after: Room) {
    forall id | id in before.players.entries && id in after.players.entries ::
      before.players.entries[id].score <= after.players.entries[id].score
  }

  /** No player present in a room before and after lost points. */
  ghost predicate ScoresKept(before: Dict<Room>, after: Dict<Room>) {
    forall c | c in before.entries && c in after.entries :: RoomScoresKept(before.entries[c], after.entries[c])
  }

  lemma PutRoom(rooms: Dict<Room>, code: RoomCode, r: Room)
    requires TableValid(rooms) && RoomValid(r)
    requires code in rooms.entries ==> RoomScoresKept(rooms.entries[code], r)
    ensures TableValid(rooms.Put(code, r)) && ScoresKept(rooms, rooms.Put(code, r))
  {
  }

  lemma ReplaceRoom(rooms: Dict<Room>, code: RoomCode, r: Room)
    requires TableValid(rooms) && RoomValid(r)
    ensures TableValid(rooms.Put(code, r))
    ensures code !in rooms.entries ==> ScoresKept(rooms, rooms.Put(code, r))
  {
  }

  lemma DeleteRoom(rooms: Dict<Room>, code: RoomCode)
    requires TableValid(rooms)
    ensures TableValid(rooms.Delete(code)) && ScoresKept(rooms, rooms.Delete(code))
  {
  }

  /**
   * A connection's display name is the authenticated user fixed at handshake,
   * so wherever the socket `sid` already plays, it plays under `name`.
   */
  ghost predicate NamedAs(rooms: Dict<Room>, sid: SocketId, name: string) {
    forall c | c in rooms.entries && sid in rooms.entries[c].players.entries :: rooms.entries[c].players.entries[sid].name == name
  }

  /** `Object.values(room.players).some(p => p.name === name)` */
  predicate NameTaken(players: Dict<Player>, name: string) {
    exists id | id in players.entries :: players.entries[id].name == name
  }

  /** `Object.values(room.players).every(p => p.ready)` */
  predicate AllReady(players: Dict<Player>) {
    forall id | id in players.entries :: players.entries[id].ready
  }

  /** `Object.keys(room.players).every(pId => room.guesses[pId])` */
  predicate AllGuessed(players: Dict<Player>, guesses: map<SocketId, Location>) {
    forall id | id in players.entries :: id in guesses
  }

  /** The room `createRoom` puts in the table: the creator alone, as host, already ready. */
  function NewRoom(sid: SocketId, name: string, settings: GameSettings): (r: Room)
    ensures RoomValid(r) && r.host == sid && r.players.keys == [sid]
    ensures r.players.entries[sid] == Player(sid, name, 0, true)
    ensures r.currentRound == 0 && r.currentLocation == None && r.guesses == map[]
  {
    Room(sid, EmptyDict<Player>().Put(sid, Player(sid, name, 0, true)), settings, 0, None, map[])
  }

  /** The points each player earns for the round, keyed by socket id. */
  function RoundScores(players: Dict<Player>, guesses: map<SocketId, Location>, actual: Location,
                       distance: (Location, Location) -> nat): (scores: map<SocketId, nat>)
    requires AllGuessed(players, guesses)
    ensures scores.Keys == players.entries.Keys
    ensures forall id | id in scores :: scores[id] <= Scoring.MaxScore
  {
    map id | id in players.entries :: Scoring.RoundScore(distance(guesses[id], actual))
  }

  /** The players after each one's round points are added to their score. */
  function WithRoundScores(players: Dict<Player>, scores: map<SocketId, nat>): (after: Dict<Player>)
    requires players.entries.Keys <= scores.Keys
    ensures after.keys == players.keys && after.entries.Keys == players.entries.Keys
    ensures players.Valid() ==> after.Valid()
    ensures forall id | id in players.entries ::
      after.entries[id] == players.entries[id].(score := players.entries[id].score + scores[id])
      && after.entries[id].score >= players.entries[id].score
  {
    Dict(players.keys, map id | id in players.entries :: players.entries[id].(score := players.entries[id].score + scores[id]))
  }

  /**
   * The score updates sent to the database at game over, in `Object.values`
   * order `ks`: one for each player with a non-empty name and a positive score.
   */
  function Increments(ks: seq<SocketId>, entries: map<SocketId, Player>): (incs: seq<ScoreIncrement>)
    requires forall i | 0 <= i < |ks| :: ks[i] in entries
    ensures |incs| <= |ks|
    ensures forall inc | inc in incs :: |inc.name| > 0 && inc.amount > 0
    ensures forall i | 0 <= i < |ks| && |entries[ks[i]].name| > 0 && entries[ks[i]].score > 0 ::
              ScoreIncrement(entries[ks[i]].name, entries[ks[i]].score) in incs
  {
    if ks == [] then []
    else
      var p := entries[ks[|ks| - 1]];
      var front := Increments(ks[..|ks| - 1], entries);
      assert forall i | 0 <= i < |ks| - 1 :: ks[..|ks| - 1][i] == ks[i];
      if |p.name| > 0 && p.score > 0 then front + [ScoreIncrement(p.name, p.score)] else front
  }

  /** How many of the players in `ks` are owed the update `inc`: a non-empty name, a positive score, and `inc` is their update. */
  function Payers(ks: seq<SocketId>, entries: map<SocketId, Player>, inc: ScoreIncrement): nat
    requires forall i | 0 <= i < |ks| :: ks[i] in entries
  {
    if ks == [] then 0
    else
      var p := entries[ks[|ks| - 1]];
      var owed := if |p.name| > 0 && p.score > 0 && inc == ScoreIncrement(p.name, p.score) then 1 else 0;
      assert forall i | 0 <= i < |ks| - 1 :: ks[..|ks| - 1][i] == ks[i];
      Payers(ks[..|ks| - 1], entries, inc) + owed
  }

  /** Each update is sent exactly as many times as there are players owed it, so no player is credited twice. */
  lemma {:induction false} IncrementsExactlyOnce(ks: seq<SocketId>, entries: map<SocketId, Player>, inc: ScoreIncrement)
    requires forall i | 0 <= i < |ks| :: ks[i] in entries
    ensures multiset(Increments(ks, entries))[inc] == Payers(ks, entries, inc)
  {
    if ks != [] {
      var front := ks[..|ks| - 1];
      assert forall i | 0 <= i < |front| :: front[i] == ks[i];
      IncrementsExactlyOnce(front, entries, inc);
    }
  }

  /** Every update is the current score of one of the players, under that player's name. */
  lemma {:induction false} IncrementsComeFromPlayers(ks: seq<SocketId>, entries: map<SocketId, Player>, inc: ScoreIncrement)
    requires forall i | 0 <= i < |ks| :: ks[i] in entries
    requires inc in Increments(ks, entries)
    ensures exists i | 0 <= i < |ks| :: inc == ScoreIncrement(entries[ks[i]].name, entries[ks[i]].score)
  {
    var front := ks[..|ks| - 1];
    assert forall i | 0 <= i < |front| :: front[i] == ks[i];
    if inc in Increments(front, entries) {
      IncrementsComeFromPlayers(front, entries, inc);
      var i :| 0 <= i < |front| && inc == ScoreIncrement(entries[front[i]].name, entries[front[i]].score);
      assert ks[i] == front[i];
    } else {
      var last := |ks| - 1;
      assert inc == ScoreIncrement(entries[ks[last]].name, entries[ks[last]].score);
    }
  }

  /** `room.players[sid]` holds a player. */
  predicate HasPlayer(entries: map<RoomCode, Room>, code: RoomCode, sid: SocketId) {
    code in entries && sid in entries[code].players.entries
  }

  /** The room the `for..in` scan of `disconnect` stops at: the first in `order` holding `sid`. */
  function FirstRoomWith(order: seq<RoomCode>, entries: map<RoomCode, Room>, sid: SocketId): (r: Option<RoomCode>)
    ensures r.Some? ==> HasPlayer(entries, r.value, sid)
  {
    if order == [] then None
    else if HasPlayer(entries, order[0], sid) then Some(order[0])
    else FirstRoomWith(order[1..], entries, sid)
  }

  /** The scan finds nothing exactly when no room of `order` holds the socket, and what it finds holds it. */
  lemma {:induction false} FirstRoomWithFinds(order: seq<RoomCode>, entries: map<RoomCode, Room>, sid: SocketId)
    ensures var r := FirstRoomWith(order, entries, sid);
      (r.None? <==> forall i | 0 <= i < |order| :: !HasPlayer(entries, order[i], sid))
      && (r.Some? ==> r.value in order && HasPlayer(entries, r.value, sid))
  {
    if order != [] && !HasPlayer(entries, order[0], sid) {
      FirstRoomWithFinds(order[1..], entries, sid);
      assert forall i | 1 <= i < |order| :: order[1..][i - 1] == order[i];
    }
  }

  /** No room before the one found holds the socket. */
  lemma {:induction false} FirstRoomWithIsFirst(order: seq<RoomCode>, entries: map<RoomCode, Room>, sid: SocketId)
    requires FirstRoomWith(order, entries, sid).Some?
    ensures exists i | 0 <= i < |order| ::
              order[i] == FirstRoomWith(order, entries, sid).value
              && forall j | 0 <= j < i :: !HasPlayer(entries, order[j], sid)
  {
    if !HasPlayer(entries, order[0], sid) {
      FirstRoomWithIsFirst(order[1..], entries, sid);
      var i :| 0 <= i < |order[1..]| && order[1..][i] == FirstRoomWith(order[1..], entries, sid).value
               && forall j | 0 <= j < i :: !HasPlayer(entries, order[1..][j], sid);
      assert order[i + 1] == FirstRoomWith(order, entries, sid).value;
      assert forall j | 1 <= j < i + 1 :: order[j] == order[1..][j - 1];
    } else {
      assert order[0] == FirstRoomWith(order, entries, sid).value;
    }
  }

  /** A disconnect finds a room exactly when some room of the table holds the socket. */
  lemma DisconnectFindsRoom(rooms: Dict<Room>, sid: SocketId)
    requires rooms.Valid()
    ensures FirstRoomWith(rooms.Keys(), rooms.entries, sid).Some?
            <==> exists c | c in rooms.entries :: sid in rooms.entries[c].players.entries
  {
    var order := rooms.Keys();
    FirstRoomWithFinds(order, rooms.entries, sid);
    if c :| c in rooms.entries && sid in rooms.entries[c].players.entries {
      var i :| 0 <= i < |order| && order[i] == c;
      assert HasPlayer(rooms.entries, order[i], sid);
    }
  }

  /**
   * The `forEach` of `makeGuess` once every player has guessed: visits the
   * players in the order `ks` (their `Object.keys` order), adds each one's
   * round score and collects the results.
   */
  method AwardRound(ks: seq<SocketId>, players: Dict<Player>, guesses: map<SocketId, Location>, actual: Location,
                    distance: (Location, Location) -> nat)
    returns (after: Dict<Player>, results: map<SocketId, nat>)
    requires Distinct(ks) && forall id :: id in ks <==> id in players.entries
    requires AllGuessed(players, guesses)
    ensures results == RoundScores(players, guesses, actual, distance)
    ensures after == WithRoundScores(players, results)
  {
    var entries := players.entries;
    results := map[];
    for i := 0 to |ks|
      invariant entries.Keys == players.entries.Keys && results.Keys <= players.entries.Keys
      invariant forall j | 0 <= j < i :: ks[j] in results
      invariant forall j | i <= j < |ks| :: ks[j] !in results
      invariant forall id | id in results :: results[id] == Scoring.RoundScore(distance(guesses[id], actual))
      invariant forall id | id in entries ::
        entries[id] == if id in results then players.entries[id].(score := players.entries[id].score + results[id])
                       else players.entries[id]
    {
      var id := ks[i];
      var score := Scoring.RoundScore(distance(guesses[id], actual));
      var p := entries[id];
      entries := entries[id := p.(score := p.score + score)];
      results := results[id := score];
    }
    assert results.Keys == players.entries.Keys by {
      forall id | id in players.entries ensures id in results {
        var j :| 0 <= j < |ks| && ks[j] == id;
      }
    }
    RoundAwarded(players, guesses, actual, distance, entries, results);
    after := Dict(players.keys, entries);
  }

  /** Once every player is scored, the loop's maps are the round's scores and the players after them. */
  lemma RoundAwarded(players: Dict<Player>, guesses: map<SocketId, Location>, actual: Location,
                     distance: (Location, Location) -> nat, entries: map<SocketId, Player>, results: map<SocketId, nat>)
    requires AllGuessed(players, guesses)
    requires entries.Keys == players.entries.Keys && results.Keys == players.entries.Keys
    requires forall id | id in results :: results[id] == Scoring.RoundScore(distance(guesses[id], actual))
    requires forall id | id in entries ::
      entries[id] == players.entries[id].(score := players.entries[id].score + results[id])
    ensures results == RoundScores(players, guesses, actual, distance)
    ensures Dict(players.keys, entries) == WithRoundScores(players, results)
  {
    var scores := RoundScores(players, guesses, actual, distance);
    assert forall id | id in scores :: results[id] == scores[id];
    assert forall id | id in entries :: entries[id] == WithRoundScores(players, results).entries[id];
  }

  /**
   * The `forEach` of `requestNextRound` at game over: the database updates,
   * visiting the players in the order `ks` (their `Object.values` order).
   */
  method CollectIncrements(ks: seq<SocketId>, entries: map<SocketId, Player>) returns (increments: seq<ScoreIncrement>)
    requires forall i | 0 <= i < |ks| :: ks[i] in entries
    ensures increments == Increments(ks, entries)
  {
    increments := [];
    for i := 0 to |ks|
      invariant increments == Increments(ks[..i], entries)
    {
      var p := entries[ks[i]];
      assert ks[..i + 1][..i] == ks[..i];
      if |p.name| > 0 && p.score > 0 {
        increments := increments + [ScoreIncrement(p.name, p.score)];
      }
    }
    assert ks[..|ks|] == ks;
  }

  /** The `for..in` scan of `disconnect` over the room codes in `order`: the first room holding `sid`. */
  method FindRoom(order: seq<RoomCode>, entries: map<RoomCode, Room>, sid: SocketId) returns (found: Option<RoomCode>)
    requires forall i | 0 <= i < |order| :: order[i] in entries
    ensures found == FirstRoomWith(order, entries, sid)
  {
    var i := 0;
    while i < |order|
      invariant 0 <= i <= |order|
      invariant FirstRoomWith(order[i..], entries, sid) == FirstRoomWith(order, entries, sid)
    {
      if sid in entries[order[i]].players.entries {
        return Some(order[i]);
      }
      assert order[i..][1..] == order[i + 1..];
      i := i + 1;
    }
    found := None;
  }

  /** The room table with the socket handlers that change it. */
  class GameServer {
    var rooms: Dict<Room>

    ghost predicate Valid()
      reads this
    {
      TableValid(rooms)
    }

    constructor ()
      ensures Valid() && rooms == EmptyDict()
    {
      rooms := EmptyDict();
    }

    /**
     * `startGameLogic(code)`: round 1 begins whether or not a location was
     * found; the location replaces the current one only if there is one.
     */
    method StartGameLogic(code: RoomCode, loc: Option<Location>) returns (out: seq<Emit>)
      requires Valid()
      modifies this
      ensures Valid() && ScoresKept(old(rooms), rooms)
      ensures code !in old(rooms.entries) ==> rooms == old(rooms) && out == []
      ensures code in old(rooms.entries) ==>
        var r := old(rooms.entries[code]);
        var started := r.(currentRound := 1, currentLocation := if loc.Some? then loc else r.currentLocation);
        && rooms == old(rooms).Put(code, started)
        && out == if loc.Some?
                  then [Emit(Everyone(code), GameStarted(code, 1, r.gameSettings.rounds, loc.value,
                                                         r.players, r.host, r.gameSettings))]
                  else [Emit(Everyone(code), Error(NoStartLocation))]
    {
      if code !in rooms.entries {
        return [];
      }
      var room := rooms.entries[code];
      room := room.(currentRound := 1);
      if loc.Some? {
        room := room.(currentLocation := loc);
        out := [Emit(Everyone(code), GameStarted(code, 1, room.gameSettings.rounds, loc.value,
                                                 room.players, room.host, room.gameSettings))];
      } else {
        out := [Emit(Everyone(code), Error(NoStartLocation))];
      }
      PutRoom(rooms, code, room);
      rooms := rooms.Put(code, room);
    }

    /**
     * `createRoom`: a room with the caller as its only, ready, host. A code
     * already in use is overwritten, room and all. A single-player room starts
     * at once.
     */
    method CreateRoom(code: RoomCode, sid: SocketId, name: string, settings: GameSettings, loc: Option<Location>)
      returns (out: seq<Emit>)
      requires Valid()
      modifies this
      ensures Valid()
      ensures code !in old(rooms.entries) ==> ScoresKept(old(rooms), rooms) && rooms.keys == old(rooms.keys) + [code]
      ensures code in old(rooms.entries) ==> rooms.keys == old(rooms.keys)
      ensures forall c | c in old(rooms.entries) && c != code :: c in rooms.entries && rooms.entries[c] == old(rooms.entries[c])
      ensures var lobby := NewRoom(sid, name, settings);
        if settings.gameType == Singleplayer then
          var started := lobby.(currentRound := 1, currentLocation := loc);
          && rooms == old(rooms).Put(code, started)
          && out == [Emit(Caller, LobbyCreated(code, lobby))]
                    + if loc.Some?
                      then [Emit(Everyone(code), GameStarted(code, 1, settings.rounds, loc.value, lobby.players, sid, settings))]
                      else [Emit(Everyone(code), Error(NoStartLocation))]
        else
          rooms == old(rooms).Put(code, lobby) && out == [Emit(Caller, LobbyCreated(code, lobby))]
      ensures code in rooms.entries && rooms.entries[code].host == sid && rooms.entries[code].players.keys == [sid]
    {
      var lobby := NewRoom(sid, name, settings);
      ReplaceRoom(rooms, code, lobby);
      rooms := rooms.Put(code, lobby);
      out := [Emit(Caller, LobbyCreated(code, lobby))];
      if settings.gameType == Singleplayer {
        ghost var before := rooms;
        var started := StartGameLogic(code, loc);
        old(rooms).PutPut(code, lobby, lobby.(currentRound := 1, currentLocation := loc));
        assert rooms == before.Put(code, lobby.(currentRound := 1, currentLocation := loc));
        out := out + started;
      }
    }

    /**
     * `joinRoom`: rejected when the room is missing, full (8 players) or past
     * the lobby, tested in that order; a name already in the room gets the
     * room back without a change; otherwise the caller is added, not ready.
     */
    method JoinRoom(code: RoomCode, sid: SocketId, name: string) returns (out: seq<Emit>)
      requires Valid() && NamedAs(rooms, sid, name)
      modifies this
      ensures Valid() && ScoresKept(old(rooms), rooms)
      ensures code !in old(rooms.entries) ==> rooms == old(rooms) && out == [Emit(Caller, Error(RoomNotFound))]
      ensures code in old(rooms.entries) ==>
        var r := old(rooms.entries[code]);
        if r.players.Size() >= MaxPlayers then
          rooms == old(rooms) && out == [Emit(Caller, Error(RoomFull))]
        else if r.currentRound > 0 then
          rooms == old(rooms) && out == [Emit(Caller, Error(AlreadyStarted))]
        else if NameTaken(r.players, name) then
          rooms == old(rooms) && out == [Emit(Caller, LobbyCreated(code, r))]
        else
          var joined := r.(players := r.players.Put(sid, Player(sid, name, 0, false)));
          && rooms == old(rooms).Put(code, joined)
          && out == [Emit(Caller, LobbyCreated(code, joined)), Emit(Everyone(code), PlayerJoined(joined.players))]
      ensures code in old(rooms.entries) && rooms != old(rooms) ==>
        sid !in old(rooms.entries[code].players.entries)
        && rooms.entries[code].players.keys == old(rooms.entries[code].players.keys) + [sid]
        && rooms.entries[code].players.entries == old(rooms.entries[code].players.entries)[sid := Player(sid, name, 0, false)]
    {
      if code !in rooms.entries {
        return [Emit(Caller, Error(RoomNotFound))];
      }
      var room := rooms.entries[code];
      if room.players.Size() >= MaxPlayers {
        return [Emit(Caller, Error(RoomFull))];
      }
      if room.currentRound > 0 {
        return [Emit(Caller, Error(AlreadyStarted))];
      }
      if NameTaken(room.players, name) {
        return [Emit(Caller, LobbyCreated(code, room))];
      }
      room := room.(players := room.players.Put(sid, Player(sid, name, 0, false)));
      PutRoom(rooms, code, room);
      rooms := rooms.Put(code, room);
      out := [Emit(Caller, LobbyCreated(code, room)), Emit(Everyone(code), PlayerJoined(room.players))];
    }

    /** `toggleReady`: flips the caller's ready flag; nothing happens if the caller is not in the room. */
    method ToggleReady(code: RoomCode, sid: SocketId) returns (out: seq<Emit>)
      requires Valid()
      modifies this
      ensures Valid() && ScoresKept(old(rooms), rooms)
      ensures if HasPlayer(old(rooms.entries), code, sid) then
          var r := old(rooms.entries[code]);
          var p := r.players.entries[sid];
          var players := r.players.Put(sid, p.(ready := !p.ready));
          rooms == old(rooms).Put(code, r.(players := players)) && out == [Emit(Everyone(code), PlayerReady(players))]
        else
          rooms == old(rooms) && out == []
    {
      if code in rooms.entries && sid in rooms.entries[code].players.entries {
        var room := rooms.entries[code];
        var p := room.players.entries[sid];
        room := room.(players := room.players.Put(sid, p.(ready := !p.ready)));
        PutRoom(rooms, code, room);
        rooms := rooms.Put(code, room);
        out := [Emit(Everyone(code), PlayerReady(room.players))];
      } else {
        out := [];
      }
    }

    /**
     * `startGame`: only the host's request counts, and only when every player
     * is ready; the room's round is not checked.
     */
    method StartGame(code: RoomCode, sid: SocketId, loc: Option<Location>) returns (out: seq<Emit>)
      requires Valid()
      modifies this
      ensures Valid() && ScoresKept(old(rooms), rooms)
      ensures code !in old(rooms.entries) || old(rooms.entries[code].host) != sid ==> rooms == old(rooms) && out == []
      ensures code in old(rooms.entries) && old(rooms.entries[code].host) == sid ==>
        var r := old(rooms.entries[code]);
        if AllReady(r.players) then
          var started := r.(currentRound := 1, currentLocation := if loc.Some? then loc else r.currentLocation);
          && rooms == old(rooms).Put(code, started)
          && out == if loc.Some?
                    then [Emit(Everyone(code), GameStarted(code, 1, r.gameSettings.rounds, loc.value,
                                                           r.players, r.host, r.gameSettings))]
                    else [Emit(Everyone(code), Error(NoStartLocation))]
        else
          rooms == old(rooms) && out == [Emit(Caller, Error(NotAllReady))]
    {
      if code in rooms.entries && rooms.entries[code].host == sid {
        if AllReady(rooms.entries[code].players) {
          out := StartGameLogic(code, loc);
        } else {
          out := [Emit(Caller, Error(NotAllReady))];
        }
      } else {
        out := [];
      }
    }

    /**
     * `makeGuess`: records the caller's first guess of the round (the caller
     * need not be a player, nor the game started). Once every player has a
     * guess, each player's score grows by the round score of their distance,
     * the results go to the room and the guesses are cleared. When no location
     * was ever set the score computation throws (`threw`) before any score
     * changes, leaving the guess recorded.
     */
    method MakeGuess(code: RoomCode, sid: SocketId, guess: Location, distance: (Location, Location) -> nat)
      returns (out: seq<Emit>, threw: bool)
      requires Valid()
      modifies this
      ensures Valid() && ScoresKept(old(rooms), rooms)
      ensures code !in old(rooms.entries) || sid in old(rooms.entries[code].guesses) ==>
        rooms == old(rooms) && out == [] && !threw
      ensures code in old(rooms.entries) && sid !in old(rooms.entries[code].guesses) ==>
        var r := old(rooms.entries[code]);
        var guesses := r.guesses[sid := guess];
        if !AllGuessed(r.players, guesses) || r.currentLocation.None? then
          rooms == old(rooms).Put(code, r.(guesses := guesses)) && out == []
          && threw == AllGuessed(r.players, guesses)
        else
          var scores := RoundScores(r.players, guesses, r.currentLocation.value, distance);
          var players := WithRoundScores(r.players, scores);
          && rooms == old(rooms).Put(code, r.(players := players, guesses := map[]))
          && out == [Emit(Everyone(code), RoundResult(scores, players, r.currentLocation.value))]
          && !threw
    {
      if code !in rooms.entries || sid in rooms.entries[code].guesses {
        return [], false;
      }
      var room := rooms.entries[code];
      room := room.(guesses := room.guesses[sid := guess]);
      if !AllGuessed(room.players, room.guesses) {
        PutRoom(rooms, code, room);
        rooms := rooms.Put(code, room);
        return [], false;
      }
      if room.currentLocation.None? {
        PutRoom(rooms, code, room);
        rooms := rooms.Put(code, room);
        return [], true;
      }
      var actual := room.currentLocation.value;
      var players, results := AwardRound(room.players.Keys(), room.players, room.guesses, actual, distance);
      room := room.(players := players, guesses := map[]);
      PutRoom(rooms, code, room);
      rooms := rooms.Put(code, room);
      out := [Emit(Everyone(code), RoundResult(results, players, actual))];
      threw := false;
    }

    /**
     * `requestNextRound`: the host's request raises the round by exactly one,
     * whatever the round was. Past the last round the game is over and every
     * player with a name and a positive score is sent to the database
     * (`increments`), again on each further request; otherwise the new
     * location, if one was found, replaces the current one.
     */
    method RequestNextRound(code: RoomCode, sid: SocketId, loc: Option<Location>)
      returns (out: seq<Emit>, increments: seq<ScoreIncrement>)
      requires Valid()
      modifies this
      ensures Valid() && ScoresKept(old(rooms), rooms)
      ensures code !in old(rooms.entries) || old(rooms.entries[code].host) != sid ==>
        rooms == old(rooms) && out == [] && increments == []
      ensures code in old(rooms.entries) && old(rooms.entries[code].host) == sid ==>
        var r := old(rooms.entries[code]);
        var round := r.currentRound + 1;
        if round > r.gameSettings.rounds then
          && rooms == old(rooms).Put(code, r.(currentRound := round))
          && out == [Emit(Everyone(code), GameOver(r.players))]
          && increments == Increments(r.players.Keys(), r.players.entries)
        else
          && rooms == old(rooms).Put(code, r.(currentRound := round,
                                               currentLocation := if loc.Some? then loc else r.currentLocation))
          && out == (if loc.Some? then [Emit(Everyone(code), NewLocation(loc.value, round))]
                     else [Emit(Everyone(code), Error(NoNextLocation))])
          && increments == []
      ensures code in old(rooms.entries) && old(rooms.entries[code].host) == sid ==>
        code in rooms.entries && rooms.entries[code].currentRound == old(rooms.entries[code].currentRound) + 1
    {
      increments := [];
      if code !in rooms.entries || rooms.entries[code].host != sid {
        return [], [];
      }
      var room := rooms.entries[code];
      room := room.(currentRound := room.currentRound + 1);
      assert room == old(rooms.entries[code]).(currentRound := old(rooms.entries[code]).currentRound + 1);
      if room.currentRound > room.gameSettings.rounds {
        increments := CollectIncrements(room.players.Keys(), room.players.entries);
        out := [Emit(Everyone(code), GameOver(room.players))];
      } else if loc.Some? {
        room := room.(currentLocation := loc);
        out := [Emit(Everyone(code), NewLocation(loc.value, room.currentRound))];
      } else {
        out := [Emit(Everyone(code), Error(NoNextLocation))];
      }
      assert rooms == old(rooms);
      PutRoom(rooms, code, room);
      rooms := rooms.Put(code, room);
    }

    /**
     * `disconnect`: the caller leaves the first room, in `for..in` order, that
     * holds it. A room left empty is deleted; when the host left, the first
     * remaining player in `Object.keys` order becomes host. The leaver's guess
     * is not removed.
     */
    method Disconnect(sid: SocketId) returns (out: seq<Emit>)
      requires Valid()
      modifies this
      ensures Valid() && ScoresKept(old(rooms), rooms)
      ensures FirstRoomWith(old(rooms).Keys(), old(rooms.entries), sid).None? ==> rooms == old(rooms) && out == []
      ensures FirstRoomWith(old(rooms).Keys(), old(rooms.entries), sid).Some? ==>
        var c := FirstRoomWith(old(rooms).Keys(), old(rooms.entries), sid).value;
        var r := old(rooms.entries[c]);
        var players := r.players.Delete(sid);
        if players.Size() == 0 then
          rooms == old(rooms).Delete(c) && out == []
        else
          var host := if sid == r.host then players.Keys()[0] else r.host;
          rooms == old(rooms).Put(c, r.(players := players, host := host))
          && out == [Emit(Everyone(c), PlayerLeft(players, host))]
    {
      var found := FindRoom(rooms.Keys(), rooms.entries, sid);
      if found.None? {
        return [];
      }
      FirstRoomWithFinds(rooms.Keys(), rooms.entries, sid);
      var c := found.value;
      var room := rooms.entries[c];
      var players := room.players.Delete(sid);
      if players.Size() == 0 {
        DeleteRoom(rooms, c);
        rooms := rooms.Delete(c);
        out := [];
      } else {
        var host := room.host;
        if sid == room.host {
          host := players.Keys()[0];
        }
        PutRoom(rooms, c, room.(players := players, host := host));
        rooms := rooms.Put(c, room.(players := players, host := host));
        out := [Emit(Everyone(c), PlayerLeft(players, host))];
      }
    }
  }
}