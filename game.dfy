/** The objects of the program: the globals, `JogoCadeiras`, `Jogador` and
    `Controlador`. A method with a matching function in module Rules is proved
    to move the objects' abstract view (`View()`) exactly as that function says;
    the others (`NewRound`, `PauseMusic` of `ChairsGame`, `ReleaseEliminated`,
    `ResetRound`, `ResetPlayersForRound`) state their effect directly. */
module Game {
  import opened Rules
  import opened Semaphores

  /** `TOTAL_JOGADORES`, the compile-time number of players. */
  const TotalPlayers: int := 4

  /** The process-wide globals of the program. */
  class Shared {
    /** The number of players the program was built for. */
    const totalPlayers: int
    /** `semaforo_cadeiras`, the chair pool. */
    const pool: Semaphore
    /** `musica_em_pausa`. */
    var musicPaused: bool
    /** `contador_cadeira`, the number of the next chair to be announced. */
    var seatCounter: int

    constructor (totalPlayers: int)
      requires totalPlayers >= 1
      ensures this.totalPlayers == totalPlayers && fresh(pool)
      ensures View() == Globals(totalPlayers - 1, 1, false)
    {
      this.totalPlayers := totalPlayers;
      pool := new Semaphore(totalPlayers - 1);
      musicPaused := false;
      seatCounter := 1;
    }

    ghost function View(): (v: Globals)
      reads this, pool
    {
      Globals(pool.count, seatCounter, musicPaused)
    }
  }

  /** `Jogador`. */
  class Player {
    const id: int
    var active: bool
    var attempted: bool

    constructor (id: int)
      ensures View() == PlayerView(id, true, false)
    {
      this.id := id;
      active := true;
      attempted := false;
    }

    /** `esta_ativo`. */
    predicate IsActive()
      reads this
    {
      active
    }

    ghost function View(): (v: PlayerView)
      reads this
    {
      PlayerView(id, active, attempted)
    }

    /** `tentar_sentarse` once the music has stopped: the returned outcome is what
        the narration announces (the chair taken, or the elimination). */
    method TryToSit(shared: Shared) returns (outcome: Outcome)
      requires shared.musicPaused
      modifies this, shared, shared.pool
      ensures (View(), shared.View(), outcome) == Sit(old(View()), old(shared.View()))
    {
      outcome := Skipped;
      if active && !attempted {
        attempted := true;
        var ok := shared.pool.TryAcquire();
        if ok {
          outcome := Seated(shared.seatCounter);
          shared.seatCounter := shared.seatCounter + 1;
        } else {
          active := false;
          outcome := Eliminated;
        }
      }
    }

    /** `resetar_rodada`. */
    method ResetRound()
      modifies this
      ensures View() == old(View()).(attempted := false)
    {
      attempted := false;
    }
  }

  /** `JogoCadeiras`: the chair count of the current round. */
  class ChairsGame {
    var chairs: int
    const shared: Shared

    constructor (totalPlayers: int, shared: Shared)
      ensures chairs == totalPlayers - 1 && this.shared == shared
    {
      chairs := totalPlayers - 1;
      this.shared := shared;
    }

    /** `iniciar_nova_rodada`: one chair fewer, the counter back to 1, the pool
        drained and refilled with the new chair count, the music playing again.
        The argument only feeds the narration. Releasing a negative count is not
        allowed, hence at least one chair before the decrement. */
    method NewRound(playersInGame: int)
      requires chairs >= 1
      modifies this, shared, shared.pool
      ensures chairs == old(chairs) - 1
      ensures shared.View() == Globals(chairs, 1, false)
    {
      chairs := chairs - 1;
      shared.seatCounter := 1;
      var drained := false;
      while !drained
        invariant drained ==> shared.pool.count == 0
        modifies shared.pool
        decreases shared.pool.count + (if drained then 0 else 1)
      {
        var ok := shared.pool.TryAcquire();
        drained := !ok;
      }
      shared.pool.Release(chairs);
      shared.musicPaused := false;
    }

    /** `pausar_musica`: the music stops (the broadcast that wakes the players
        is not modelled). */
    method PauseMusic()
      modifies shared
      ensures shared.View() == old(shared.View()).(musicPaused := true)
    {
      shared.musicPaused := true;
    }
  }

  /** The abstract views of a list of players, in order. */
  ghost function Views(ps: seq<Player>): (r: seq<PlayerView>)
    reads set p | p in ps
    ensures |r| == |ps|
    ensures forall i :: 0 <= i < |ps| ==> r[i] == ps[i].View()
  {
    if ps == [] then [] else Views(ps[..|ps| - 1]) + [ps[|ps| - 1].View()]
  }

  /** `Controlador`: the game and the vector of players. */
  class Controller {
    const game: ChairsGame
    const players: seq<Player>

    constructor (game: ChairsGame, players: seq<Player>)
      ensures this.game == game && this.players == players
    {
      this.game := game;
      this.players := players;
    }

    /** The vector holds distinct players, and the release of
        `liberar_jogadores_eliminados` is not negative. */
    ghost predicate Valid()
    {
      && game.shared.totalPlayers >= 1
      && forall i, j :: 0 <= i < j < |players| ==> players[i] != players[j]
    }

    ghost function View(): (v: World)
      reads game, game.shared, game.shared.pool, set p | p in players
    {
      World(game.chairs, game.shared.View(), Views(players))
    }

    /** `jogo.pausar_musica()`. */
    method StopMusic()
      modifies game.shared
      ensures View() == Rules.PauseMusic(old(View()))
    {
      game.PauseMusic();
    }

    /** One atomic step of the thread of player `i`: its call of `tentar_sentarse`
        once the music has stopped. */
    method Attempt(i: nat) returns (outcome: Outcome)
      requires Valid() && i < |players| && game.shared.musicPaused
      modifies players[i], game.shared, game.shared.pool
      ensures (View(), outcome) == Step(old(View()), i)
    {
      ghost var before := Views(players);
      outcome := players[i].TryToSit(game.shared);
      assert Views(players) == before[i := players[i].View()];
    }

    /** `liberar_jogadores_eliminados`: release as many units as there are
        players less one. */
    method ReleaseEliminated()
      requires Valid()
      modifies game.shared.pool
      ensures game.shared.pool.count == old(game.shared.pool.count) + game.shared.totalPlayers - 1
    {
      game.shared.pool.Release(game.shared.totalPlayers - 1);
    }

    /** `jogadores_em_jogo`. */
    method PlayersInGame() returns (n: int)
      ensures n == CountActive(View().players)
    {
      ghost var vs := Views(players);
      n := 0;
      for i := 0 to |players|
        invariant n == CountActive(vs[..i])
      {
        assert vs[..i + 1][..i] == vs[..i];
        if players[i].IsActive() {
          n := n + 1;
        }
      }
      assert vs[..|players|] == vs;
    }

    /** `encontrar_vencedor`. */
    method FindWinner() returns (winner: int)
      ensures winner == Winner(View().players)
    {
      ghost var vs := Views(players);
      assert vs[0..] == vs;
      for i := 0 to |players|
        invariant Winner(vs[i..]) == Winner(vs)
      {
        if players[i].IsActive() {
          return players[i].id;
        }
        assert vs[i..][1..] == vs[i + 1..];
      }
      return -1;
    }

    /** `resetar_jogadores_para_rodada`. */
    method ResetPlayersForRound()
      requires Valid()
      modifies set p | p in players
      ensures View() == old(View()).(players := ClearAttempts(old(View()).players))
    {
      for i := 0 to |players|
        invariant forall j :: 0 <= j < i ==> players[j].View() == old(players[j].View()).(attempted := false)
        invariant forall j :: i <= j < |players| ==> players[j].View() == old(players[j].View())
      {
        players[i].ResetRound();
      }
    }

    /** The controller after the settling delay: release, start the next round
        with the active count, and let every player try again. */
    method EndRound()
      requires Valid() && game.chairs >= 1
      modifies game, game.shared, game.shared.pool, set p | p in players
      ensures View() == Rules.EndRound(old(View()))
    {
      ghost var before := View();
      ReleaseEliminated();
      var n := PlayersInGame();
      game.NewRound(n);
      ghost var mid := View();
      assert mid == World(before.chairs - 1, Globals(before.chairs - 1, 1, false), before.players);
      ResetPlayersForRound();
      assert View() == mid.(players := ClearAttempts(mid.players));
    }

    /** One iteration of the loop of `iniciar_jogo` without the sleeps; `schedule`
        is the order in which the player threads ran their attempts while the
        controller waited, and `log` what each attempt announced. */
    method PlayRound(schedule: seq<nat>) returns (log: seq<Outcome>)
      requires Valid() && game.chairs >= 1 && Schedule(schedule, |players|)
      modifies game, game.shared, game.shared.pool, set p | p in players
      ensures View() == Rules.PlayRound(old(View()), schedule)
      ensures log == Run(Rules.PauseMusic(old(View())), schedule).1
    {
      StopMusic();
      ghost var start := View();
      log := [];
      for k := 0 to |schedule|
        invariant (View(), log) == Run(start, schedule[..k])
      {
        assert schedule[..k + 1][..k] == schedule[..k];
        var outcome := Attempt(schedule[k]);
        log := log + [outcome];
      }
      assert schedule[..|schedule|] == schedule;
      EndRound();
    }
  }

  /** The loop of `main` that creates the players with identifiers 1..n. */
  method NewPlayers(n: nat) returns (players: seq<Player>)
    ensures |players| == n
    ensures forall j :: 0 <= j < n ==> fresh(players[j])
    ensures forall j :: 0 <= j < n ==> players[j].View() == PlayerView(j + 1, true, false)
    ensures forall j, k :: 0 <= j < k < n ==> players[j] != players[k]
  {
    players := [];
    for i := 1 to n + 1
      invariant |players| == i - 1
      invariant forall j :: 0 <= j < |players| ==> fresh(players[j])
      invariant forall j :: 0 <= j < |players| ==> players[j].View() == PlayerView(j + 1, true, false)
      invariant forall j, k :: 0 <= j < k < |players| ==> players[j] != players[k]
    {
      var p := new Player(i);
      players := players + [p];
    }
  }

  /** The set-up of `main`: the globals, the game and the controller over the
      players numbered 1..n, all of them new objects. */
  method Setup(n: int) returns (c: Controller)
    requires n >= 1
    ensures fresh(c) && fresh(c.game) && fresh(c.game.shared) && fresh(c.game.shared.pool)
    ensures forall p | p in c.players :: fresh(p)
    ensures c.Valid() && c.View() == Initial(n)
  {
    var shared := new Shared(n);
    var game := new ChairsGame(n, shared);
    var players := NewPlayers(n);
    c := new Controller(game, players);
    ghost var vs := Views(players);
    ghost var expected := Initial(n).players;
    assert |vs| == |expected|;
    forall j | 0 <= j < n
      ensures vs[j] == expected[j]
    {
      assert vs[j] == players[j].View();
    }
    assert vs == expected;
  }

  /** `main` as the program is built: `TotalPlayers` players and one chair fewer. */
  method NewGame() returns (c: Controller)
    ensures fresh(c) && fresh(c.game) && fresh(c.game.shared) && fresh(c.game.shared.pool)
    ensures forall p | p in c.players :: fresh(p)
    ensures c.Valid() && c.View() == Initial(TotalPlayers)
    ensures |c.players| == 4 && c.game.chairs == 3 && c.game.shared.pool.count == 3
  {
    c := Setup(TotalPlayers);
  }
}
