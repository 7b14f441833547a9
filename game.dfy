/**
  The per-player game engine. It holds the catalog of events in load order,
  a cache of the players it has touched and, standing for the player store,
  the documents saved so far. A player is idle when `currentEvent` is `None`
  and in a round when it holds an event id; `Play`, `Guess`, `Surrender` and
  `Cancel` move a player between the two.
*/
module Game {
  import opened Wrappers
  import opened Models

  /** What an operation raises instead of returning. */
  datatype GameError =
    | PlayerNotFound(playerId: int)   // the store has no document for the player
    | EventKeyMissing(key: Option<int>)  // the catalog has no entry under the current event
    | EmptyCatalog                    // there is no event to offer

  /** The reply to a guess: a message and, when the year was right, the event. */
  datatype GuessReply = GuessReply(message: string, solved: Option<HistoricalEvent>)

  const GuessedMessage := "Ты угадал, ура!"
  const EarlierMessage := "Это произошло раньше."
  const LaterMessage := "Это произошло позже."

  /** Points for a right year, lost for a wrong one, and lost by surrendering. */
  const CorrectReward := 10
  const WrongPenalty := 1
  const SurrenderPenalty := 10

  predicate DistinctIds(events: seq<HistoricalEvent>) {
    forall i, j :: 0 <= i < j < |events| ==> events[i].id != events[j].id
  }

  /** Stored documents are filed under their own id. */
  predicate KeyedById(store: map<int, PlayerRecord>) {
    forall k :: k in store ==> store[k].id == k
  }

  /** The catalog entry with the given id, if any: the dictionary lookup `events[key]`. */
  function Find(events: seq<HistoricalEvent>, id: int): (r: Option<HistoricalEvent>)
    ensures r.Some? ==> r.value in events && r.value.id == id
    ensures r.None? <==> forall i :: 0 <= i < |events| ==> events[i].id != id
  {
    if events == [] then None
    else if events[0].id == id then Some(events[0])
    else Find(events[1..], id)
  }

  /** With distinct ids, looking up an entry's id gives back that entry. */
  lemma FindEntry(events: seq<HistoricalEvent>, i: nat)
    requires DistinctIds(events) && i < |events|
    ensures Find(events, events[i].id) == Some(events[i])
  {
  }

  /** The position of the first event, in catalog order, whose id is not guessed. */
  function FirstUnguessed(events: seq<HistoricalEvent>, guessed: seq<int>): (r: Option<nat>)
    ensures r.Some? ==> r.value < |events| && events[r.value].id !in guessed
    ensures r.Some? ==> forall j :: 0 <= j < r.value ==> events[j].id in guessed
    ensures r.None? ==> forall j :: 0 <= j < |events| ==> events[j].id in guessed
  {
    if events == [] then None
    else if events[0].id !in guessed then Some(0)
    else match FirstUnguessed(events[1..], guessed)
      case None => None
      case Some(k) => Some(k + 1)
  }

  /** The event chosen for a player and the guessed list the player is left with. */
  datatype Selection = Selection(event: Option<HistoricalEvent>, guessed: seq<int>)

  /**
    Event selection: the first unguessed event, keeping the guessed list; when
    every event is guessed, the list is emptied first and the first event is
    chosen; with no events at all the list is emptied and nothing is chosen.
  */
  function Select(events: seq<HistoricalEvent>, guessed: seq<int>): (s: Selection)
    ensures s.event.Some? <==> |events| > 0
    ensures s.event.Some? ==> s.event.value in events && s.event.value.id !in s.guessed
    ensures s.guessed == guessed <==>
      (exists i :: 0 <= i < |events| && events[i].id !in guessed) || guessed == []
    ensures s.guessed != guessed ==> s.guessed == [] && forall i :: 0 <= i < |events| ==> events[i].id in guessed
    ensures |events| > 0 && (forall i :: 0 <= i < |events| ==> events[i].id in guessed) ==> s.event == Some(events[0])
  {
    match FirstUnguessed(events, guessed)
    case Some(i) => Selection(Some(events[i]), guessed)
    case None => Selection(if |events| > 0 then Some(events[0]) else None, [])
  }

  /** Selecting again from what a selection left behind gives the same event and list:
      asking to play twice without answering shows the same event. */
  lemma SelectStable(events: seq<HistoricalEvent>, guessed: seq<int>)
    ensures Select(events, Select(events, guessed).guessed) == Select(events, guessed)
  {
  }

  /** While some event is unguessed, selection keeps the guessed list and picks an event
      no later than it in catalog order; so a surrendered event stays on offer. */
  lemma UnguessedIsStillOffered(events: seq<HistoricalEvent>, guessed: seq<int>, i: nat)
    requires i < |events| && events[i].id !in guessed
    ensures FirstUnguessed(events, guessed).Some? && FirstUnguessed(events, guessed).value <= i
    ensures Select(events, guessed) == Selection(Some(events[FirstUnguessed(events, guessed).value]), guessed)
  {
  }

  /** A player in a round holds a catalog id that it has not guessed yet. */
  predicate RoundConsistent(events: seq<HistoricalEvent>, p: PlayerRecord) {
    p.currentEvent.Some? ==>
      Find(events, p.currentEvent.value).Some? && p.currentEvent.value !in p.guessedEvents
  }

  class GuessGame {
    const events: seq<HistoricalEvent>
    var players: map<int, Player>
    var store: map<int, PlayerRecord>

    ghost predicate Valid()
      reads this, players.Values
    {
      DistinctIds(events) && KeyedById(store) &&
      forall k :: k in players ==> players[k].id == k
    }

    /** The record a lookup of `playerId` sees: the cached player, else the stored document. */
    ghost function Lookup(playerId: int): (r: Option<PlayerRecord>)
      reads this, players.Values
    {
      if playerId in players then Some(players[playerId].Record())
      else if playerId in store then Some(store[playerId])
      else None
    }

    /** A game over catalog `events` and the documents in `store`, with an empty cache. */
    constructor (events: seq<HistoricalEvent>, store: map<int, PlayerRecord>)
      requires DistinctIds(events) && KeyedById(store)
      ensures Valid()
      ensures this.events == events && this.store == store && players == map[]
    {
      this.events := events;
      this.store := store;
      players := map[];
    }

    /** The cached documents, which closing the game writes to the store. */
    function Flushed(): (m: map<int, PlayerRecord>)
      reads this, players.Values
    {
      map k | k in players :: players[k].Record()
    }

    /** Closing the game: every cached player is saved under its id, replacing the old document. */
    method Exit()
      requires Valid()
      modifies this`store
      ensures Valid()
      ensures store == old(store) + old(Flushed())
      ensures forall k :: k in players ==> k in store && store[k] == players[k].Record()
      ensures forall k :: Lookup(k) == old(Lookup(k))
    {
      store := store + Flushed();
    }

    /** Cache-through lookup: the cached player, else one loaded from the store and cached. */
    method GetPlayer(playerId: int) returns (r: Result<Player, GameError>)
      requires Valid()
      modifies this`players
      ensures Valid()
      ensures playerId in old(players) ==> r == Ok(old(players)[playerId]) && players == old(players)
      ensures playerId !in old(players) && playerId in store ==>
        r.Ok? && fresh(r.value) && r.value.Record() == store[playerId] &&
        players == old(players)[playerId := r.value]
      ensures playerId !in old(players) && playerId !in store ==>
        r == Err(PlayerNotFound(playerId)) && players == old(players)
      ensures r.Ok? ==> playerId in players && players[playerId] == r.value && r.value.id == playerId
      ensures Lookup(playerId) == old(Lookup(playerId))
    {
      if playerId in players {
        return Ok(players[playerId]);
      }
      if playerId !in store {
        return Err(PlayerNotFound(playerId));
      }
      var player := new Player.FromRecord(store[playerId]);
      players := players[playerId := player];
      r := Ok(player);
    }

    /** Picks the player's next event, emptying the guessed list first when every event is guessed. */
    method GetEventForPlayer(player: Player) returns (event: Option<HistoricalEvent>)
      modifies player`guessedEvents
      ensures Selection(event, player.guessedEvents) == Select(events, old(player.guessedEvents))
      decreases |player.guessedEvents|
    {
      var i := 0;
      while i < |events|
        invariant 0 <= i <= |events|
        invariant forall j :: 0 <= j < i ==> events[j].id in player.guessedEvents
      {
        if events[i].id !in player.guessedEvents {
          return Some(events[i]);
        }
        i := i + 1;
      }
      player.guessedEvents := [];
      if |events| == 0 {
        // Python's `_get_event_for_player` recurses without end here, until a `RecursionError`
        return None;
      }
      assert events[0].id in old(player.guessedEvents);
      event := GetEventForPlayer(player);
    }

    /** Starts a round: the selected event becomes the player's current event. */
    method Play(playerId: int) returns (r: Result<HistoricalEvent, GameError>)
      requires Valid()
      modifies this`players, if playerId in players then {players[playerId]} else {}
      ensures Valid()
      ensures old(Lookup(playerId)).None? ==> r == Err(PlayerNotFound(playerId)) && players == old(players)
      ensures old(Lookup(playerId)).Some? ==>
        playerId in players && players[playerId].id == playerId &&
        (playerId in old(players) ==> players == old(players)) &&
        (playerId !in old(players) ==> fresh(players[playerId]) && players == old(players)[playerId := players[playerId]])
      ensures old(Lookup(playerId)).Some? ==>
        var before := old(Lookup(playerId)).value;
        var after := players[playerId];
        var s := Select(events, before.guessedEvents);
        after.guessedEvents == s.guessed &&
        after.attempts == before.attempts && after.score == before.score &&
        (s.event.None? ==> r == Err(EmptyCatalog) && after.currentEvent == before.currentEvent) &&
        (s.event.Some? ==> r == Ok(s.event.value) && after.currentEvent == Some(s.event.value.id))
      ensures r.Ok? ==> r.value in events && RoundConsistent(events, players[playerId].Record())
    {
      var got := GetPlayer(playerId);
      if got.Err? {
        return Err(got.error);
      }
      var player := got.value;
      var event := GetEventForPlayer(player);
      if event.None? {
        return Err(EmptyCatalog);
      }
      player.currentEvent := Some(event.value.id);
      players := players[player.id := player];
      assert event.value in events;
      var i :| 0 <= i < |events| && events[i] == event.value;
      FindEntry(events, i);
      r := Ok(event.value);
    }

    /**
      A guess at the current event's year. Every guess counts an attempt; the
      right year scores and ends the round, a wrong one costs a point and hints
      at the direction.
    */
    method Guess(player: Player, date: int) returns (r: Result<GuessReply, GameError>)
      requires Valid()
      modifies this`players, player
      ensures Valid()
      ensures
        var key := old(player.currentEvent);
        var found := if key.Some? then Find(events, key.value) else None;
        (found.None? ==>
          r == Err(EventKeyMissing(key)) && players == old(players) &&
          player.Record() == old(player.Record())) &&
        (found.Some? ==>
          var e := found.value;
          players == old(players)[player.id := player] &&
          player.attempts == old(player.attempts) + 1 &&
          (date == e.date ==>
            r == Ok(GuessReply(GuessedMessage, Some(e))) &&
            player.currentEvent == None &&
            player.guessedEvents == old(player.guessedEvents) + [e.id] &&
            player.score == old(player.score) + CorrectReward) &&
          (date != e.date ==>
            r == Ok(GuessReply(if date > e.date then EarlierMessage else LaterMessage, None)) &&
            player.currentEvent == old(player.currentEvent) &&
            player.guessedEvents == old(player.guessedEvents) &&
            player.score == old(player.score) - WrongPenalty))
      ensures old(RoundConsistent(events, player.Record())) ==> RoundConsistent(events, player.Record())
      ensures old(RoundConsistent(events, player.Record())) && old(player.InGame()) ==> r.Ok?
    {
      if player.currentEvent.None? {
        return Err(EventKeyMissing(None));
      }
      var found := Find(events, player.currentEvent.value);
      if found.None? {
        return Err(EventKeyMissing(player.currentEvent));
      }
      var event := found.value;
      player.attempts := player.attempts + 1;
      if event.date == date {
        player.guessedEvents := player.guessedEvents + [player.currentEvent.value];
        player.currentEvent := None;
        player.score := player.score + CorrectReward;
        players := players[player.id := player];
        return Ok(GuessReply(GuessedMessage, Some(event)));
      } else {
        player.score := player.score - WrongPenalty;
        players := players[player.id := player];
        if date > event.date {
          return Ok(GuessReply(EarlierMessage, None));
        } else {
          return Ok(GuessReply(LaterMessage, None));
        }
      }
    }

    /**
      Giving up a round: the player loses points and learns the answer; the
      event is not marked as guessed, so it can be offered again.
    */
    method Surrender(player: Player) returns (r: Result<HistoricalEvent, GameError>)
      requires Valid()
      modifies this`players, player
      ensures Valid()
      ensures
        var key := old(player.currentEvent);
        var found := if key.Some? then Find(events, key.value) else None;
        (found.None? ==>
          r == Err(EventKeyMissing(key)) && players == old(players) &&
          player.Record() == old(player.Record())) &&
        (found.Some? ==>
          r == Ok(found.value) &&
          players == old(players)[player.id := player] &&
          player.currentEvent == None &&
          player.score == old(player.score) - SurrenderPenalty &&
          player.guessedEvents == old(player.guessedEvents) &&
          player.attempts == old(player.attempts))
      ensures old(RoundConsistent(events, player.Record())) ==> RoundConsistent(events, player.Record())
      ensures old(RoundConsistent(events, player.Record())) && r.Ok? ==>
        r.value.id !in player.guessedEvents
    {
      if player.currentEvent.None? {
        return Err(EventKeyMissing(None));
      }
      var found := Find(events, player.currentEvent.value);
      if found.None? {
        return Err(EventKeyMissing(player.currentEvent));
      }
      player.currentEvent := None;
      player.score := player.score - SurrenderPenalty;
      players := players[player.id := player];
      r := Ok(found.value);
    }

    /** Leaving a round: only the current event is cleared. */
    method Cancel(player: Player)
      requires Valid()
      modifies this`players, player
      ensures Valid()
      ensures players == old(players)[player.id := player]
      ensures player.currentEvent == None
      ensures player.guessedEvents == old(player.guessedEvents)
      ensures player.attempts == old(player.attempts) && player.score == old(player.score)
      ensures RoundConsistent(events, player.Record())
    {
      player.currentEvent := None;
      players := players[player.id := player];
    }
  }

  /**
    Two events, 1991 and 1812, and a new player: playing offers the first;
    1990 is answered with "later" (the event happened after the guess) at a
    cost of one point; 1991 solves it.
  */
  method Scenario() {
    var first := HistoricalEvent(1, "politics", "first event", 1991, None, None);
    var second := HistoricalEvent(2, "war", "second event", 1812, None, None);
    var game := new GuessGame([first, second], map[7 := PlayerRecord(7, None, [], 0, 0)]);
    var started := game.Play(7);
    assert started == Ok(first);
    var player := game.players[7];
    assert player.currentEvent == Some(1);
    assert Find(game.events, 1) == Some(first);
    var reply := game.Guess(player, 1990);
    assert reply == Ok(GuessReply(LaterMessage, None));
    assert player.score == -1 && player.attempts == 1;
    reply := game.Guess(player, 1991);
    assert reply == Ok(GuessReply(GuessedMessage, Some(first)));
    assert player.score == 9 && player.attempts == 2;
    assert player.guessedEvents == [1] && player.currentEvent == None;
  }

  /** A player who solved the first event is offered the second; surrendering leaves it on offer. */
  method SurrenderScenario() {
    var first := HistoricalEvent(1, "politics", "first event", 1991, None, None);
    var second := HistoricalEvent(2, "war", "second event", 1812, None, None);
    var game := new GuessGame([first, second], map[7 := PlayerRecord(7, None, [1], 1, 10)]);
    var started := game.Play(7);
    assert FirstUnguessed(game.events, [1]) == Some(1);
    assert started == Ok(second);
    var player := game.players[7];
    assert Find(game.events, 2) == Some(second);
    var answer := game.Surrender(player);
    assert answer == Ok(second) && player.score == 0 && player.guessedEvents == [1];
    started := game.Play(7);
    assert started == Ok(second);
  }

  /** A player who solved every event has the list emptied and is offered the first again. */
  method ResetScenario() {
    var first := HistoricalEvent(1, "politics", "first event", 1991, None, None);
    var second := HistoricalEvent(2, "war", "second event", 1812, None, None);
    var game := new GuessGame([first, second], map[7 := PlayerRecord(7, None, [2, 1], 2, 20)]);
    var started := game.Play(7);
    assert FirstUnguessed(game.events, [2, 1]) == None;
    var player := game.players[7];
    assert started == Ok(first) && player.guessedEvents == [] && player.currentEvent == Some(1);
    assert player.score == 20 && player.attempts == 2;
  }
}
