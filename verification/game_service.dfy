/**
  The game service: each operation reads one game from the store, applies a
  pure transform to it and writes the result back. The store is a map from
  game id to game; an operation on an existing game requires its id to be
  present, and creating a game requires the id to be free.
 */
module GameService {
  import opened GameTypes

  type GameId = string

  type Store = map<GameId, Game>

  /** What ending a game reports: the result computation is an empty placeholder. */
  type GameResult = ()

  /** Number of cards dealt to each player in a new game. */
  const DefaultCardsCount: int := 3

  /** The game every new id starts from. */
  const EmptyGame: Game := Game(map[], Playground([]), Config(DefaultCardsCount))

  // ---------------------------------------------------------------------------
  // Transforms on one game

  /** The player with its hand and both stacks emptied and turned face up. */
  function ResetPlayer(p: Player): (q: Player)
    ensures IsReset(q)
    ensures SameIdentity(q, p)
  {
    p.(cards := [], stackDeck := OpenEmptyDeck, stackOpenDeck := OpenEmptyDeck)
  }

  /** The transform applied when a game starts. */
  function StartedGame(g: Game): (r: Game)
    ensures r.players.Keys == g.players.Keys
    ensures |r.players| == |g.players|
    ensures forall c :: c in r.players ==>
              IsReset(r.players[c]) && SameIdentity(r.players[c], g.players[c])
    ensures r.playground.decks == []
    ensures r.config == g.config
  {
    var players := map c | c in g.players :: ResetPlayer(g.players[c]);
    assert players.Keys == g.players.Keys;
    Game(players, Playground([]), g.config)
  }

  /**
    The players map of a started game, built one key at a time as the
    service does when it walks over the players of the stored game.
   */
  method StartPlayers(players: map<Color, Player>) returns (started: map<Color, Player>)
    ensures started.Keys == players.Keys
    ensures forall c :: c in started ==>
              IsReset(started[c]) && SameIdentity(started[c], players[c])
  {
    started := map[];
    var rest := players.Keys;
    while rest != {}
      invariant rest <= players.Keys
      invariant started.Keys == players.Keys - rest
      invariant forall c :: c in started ==>
                  IsReset(started[c]) && SameIdentity(started[c], players[c])
      decreases rest
    {
      var c :| c in rest;
      started := started[c := ResetPlayer(players[c])];
      rest := rest - {c};
    }
  }

  /** The start transform as the service runs it: the loop, then the record rewrite. */
  method StartGameTransform(g: Game) returns (r: Game)
    ensures r == StartedGame(g)
  {
    var players := StartPlayers(g.players);
    r := Game(players, Playground([]), g.config);
    PlayersDeterminedByReset(r.players, StartedGame(g).players, g.players);
  }

  /** Two maps that both reset every player of `source`, key for key, are equal. */
  lemma PlayersDeterminedByReset(a: map<Color, Player>, b: map<Color, Player>,
                                 source: map<Color, Player>)
    requires a.Keys == source.Keys && b.Keys == source.Keys
    requires forall c :: c in a ==> IsReset(a[c]) && SameIdentity(a[c], source[c])
    requires forall c :: c in b ==> IsReset(b[c]) && SameIdentity(b[c], source[c])
    ensures a == b
  {
  }

  /** The transform applied when a player joins: an upsert keyed by the player's colour. */
  function WithPlayer(g: Game, p: Player): (r: Game)
    ensures r.players.Keys == g.players.Keys + {p.color}
    ensures r.players[p.color] == p
    ensures forall c :: c in g.players && c != p.color ==> r.players[c] == g.players[c]
    ensures r.playground == g.playground
    ensures r.config == g.config
  {
    g.(players := g.players[p.color := p])
  }

  // ---------------------------------------------------------------------------
  // Service operations on the store

  /** Stores a fresh empty game under `id`. */
  function CreateGame(s: Store, id: GameId): (r: Store)
    requires id !in s
    ensures r.Keys == s.Keys + {id}
    ensures r[id].players == map[]
    ensures r[id].playground.decks == []
    ensures r[id].config.cardsCount == 3
    ensures forall k :: k in s ==> r[k] == s[k]
  {
    s[id := EmptyGame]
  }

  /** Resets every player of the game `id` and clears its playground. */
  function StartGame(s: Store, id: GameId): (r: Store)
    requires id in s
    ensures r.Keys == s.Keys
    ensures r[id].players.Keys == s[id].players.Keys
    ensures forall c :: c in r[id].players ==>
              IsReset(r[id].players[c]) && SameIdentity(r[id].players[c], s[id].players[c])
    ensures r[id].playground.decks == []
    ensures r[id].config == s[id].config
    ensures forall k :: k in s && k != id ==> r[k] == s[k]
  {
    s[id := StartedGame(s[id])]
  }

  /** Upserts `p` into the game `id` under its colour. */
  function AddPlayer(s: Store, id: GameId, p: Player): (r: Store)
    requires id in s
    ensures r.Keys == s.Keys
    ensures r[id].players.Keys == s[id].players.Keys + {p.color}
    ensures r[id].players[p.color] == p
    ensures forall c :: c in s[id].players && c != p.color ==>
              r[id].players[c] == s[id].players[c]
    ensures r[id].playground == s[id].playground
    ensures r[id].config == s[id].config
    ensures forall k :: k in s && k != id ==> r[k] == s[k]
  {
    s[id := WithPlayer(s[id], p)]
  }

  /** A read-only snapshot of the stored game `id`: writing it back changes nothing. */
  function GetGame(s: Store, id: GameId): (g: Game)
    requires id in s
    ensures s[id := g] == s
  {
    s[id]
  }

  /** Computes the (empty) result, then removes the game `id` from the store. */
  function EndGame(s: Store, id: GameId): (r: (Store, GameResult))
    requires id in s
    ensures id !in r.0
    ensures r.0.Keys == s.Keys - {id}
    ensures forall k :: k in r.0 ==> r.0[k] == s[k]
  {
    var result := ();
    (s - {id}, result)
  }

  // ---------------------------------------------------------------------------
  // Properties relating several operations

  /** Reading a game right after creating it yields the empty game. */
  lemma GetAfterCreate(s: Store, id: GameId)
    requires id !in s
    ensures var g := GetGame(CreateGame(s, id), id);
            g.players == map[] && g.playground.decks == [] && g.config.cardsCount == 3
  {
  }

  /** Adding two players of the same colour keeps one entry, holding the second. */
  lemma WithPlayerUpsert(g: Game, p: Player, q: Player)
    requires p.color == q.color
    ensures WithPlayer(WithPlayer(g, p), q) == WithPlayer(g, q)
    ensures |WithPlayer(WithPlayer(g, p), q).players| ==
            |g.players| + (if p.color in g.players then 0 else 1)
  {
  }

  /** Adding the same player twice is the same as adding it once. */
  lemma WithPlayerIdempotent(g: Game, p: Player)
    ensures WithPlayer(WithPlayer(g, p), p) == WithPlayer(g, p)
  {
  }

  /**
    Adding players of different colours one after the other, in either
    order, keeps both: once the store serialises the updates, neither is lost.
   */
  lemma WithPlayerCommutes(g: Game, p: Player, q: Player)
    requires p.color != q.color
    ensures WithPlayer(WithPlayer(g, p), q) == WithPlayer(WithPlayer(g, q), p)
    ensures var r := WithPlayer(WithPlayer(g, p), q);
            r.players[p.color] == p && r.players[q.color] == q
  {
  }

  /** Starting a game twice yields the same game as starting it once. */
  lemma StartedGameIdempotent(g: Game)
    ensures StartedGame(StartedGame(g)) == StartedGame(g)
  {
  }

  /** Adding a player keeps every key equal to its player's colour. */
  lemma WithPlayerKeepsKeyedByColor(g: Game, p: Player)
    requires KeyedByColor(g.players)
    ensures KeyedByColor(WithPlayer(g, p).players)
  {
  }

  /** Starting a game keeps every key equal to its player's colour. */
  lemma StartedGameKeepsKeyedByColor(g: Game)
    requires KeyedByColor(g.players)
    ensures KeyedByColor(StartedGame(g).players)
  {
  }

  /** Ending a game frees its id: creating it again yields a fresh empty game. */
  lemma CreateAfterEnd(s: Store, id: GameId)
    requires id in s
    ensures var t := EndGame(s, id).0;
            id !in t && CreateGame(t, id)[id] == EmptyGame
  {
  }
}
