/** The musical-chairs round bookkeeping as a pure state machine.
    The classes of module Game are proved to move between exactly these states;
    the lemmas of RoundLemmas and GameLemmas are stated over them. */
module Rules {

  /** One player (`Jogador`): its identifier, whether it is still in the game,
      and whether it has already tried to sit in the current round. */
  datatype PlayerView = PlayerView(id: int, active: bool, attempted: bool)

  /** The process-wide globals: the chair semaphore's count, the next chair
      number to announce (`contador_cadeira`) and the music flag. */
  datatype Globals = Globals(pool: nat, seatCounter: int, musicPaused: bool)

  /** Everything the game keeps: the chair count of `JogoCadeiras`, the globals
      and the players in vector order. */
  datatype World = World(chairs: int, globals: Globals, players: seq<PlayerView>)

  /** What one call of `tentar_sentarse` does after the wait: nothing (the player
      is out or has already tried), sits on the announced chair, or is eliminated. */
  datatype Outcome = Skipped | Seated(chair: int) | Eliminated

  function Min(a: int, b: int): (m: int)
  {
    if a <= b then a else b
  }

  /** A player that will still act in this round. */
  predicate Eligible(p: PlayerView): (b: bool)
  {
    p.active && !p.attempted
  }

  /** Every index of `order` names a player. */
  predicate Schedule(order: seq<nat>, n: nat): (b: bool)
  {
    forall k :: 0 <= k < |order| ==> order[k] < n
  }

  /** The part of `tentar_sentarse` after the music-stopped wait: one attempt per
      round, an atomic claim on the pool, and elimination when the claim fails. */
  function Sit(p: PlayerView, g: Globals): (r: (PlayerView, Globals, Outcome))
    ensures r.0.id == p.id && r.1.musicPaused == g.musicPaused
    ensures r.2 == Skipped <==> !Eligible(p)
    ensures r.2 == Skipped ==> r.0 == p && r.1 == g
    ensures r.2 != Skipped ==> r.0.attempted
    ensures r.2.Seated? <==> Eligible(p) && g.pool > 0
    ensures r.2.Seated? ==> r.0.active && r.2.chair == g.seatCounter
                            && r.1 == g.(pool := g.pool - 1, seatCounter := g.seatCounter + 1)
    ensures r.0.active != p.active <==> r.2 == Eliminated
    ensures r.2 == Eliminated ==> r.1 == g && g.pool == 0
  {
    if p.active && !p.attempted then
      if g.pool > 0 then
        (p.(attempted := true), g.(pool := g.pool - 1, seatCounter := g.seatCounter + 1), Seated(g.seatCounter))
      else
        (p.(attempted := true, active := false), g, Eliminated)
    else
      (p, g, Skipped)
  }

  /** Player `i` runs one atomic attempt. */
  function Step(w: World, i: nat): (r: (World, Outcome))
    requires i < |w.players| && w.globals.musicPaused
    ensures r.0.chairs == w.chairs && r.0.globals.musicPaused && |r.0.players| == |w.players|
    ensures forall j :: 0 <= j < |w.players| && j != i ==> r.0.players[j] == w.players[j]
  {
    var s := Sit(w.players[i], w.globals);
    (World(w.chairs, s.1, w.players[i := s.0]), s.2)
  }

  /** The attempts of one round, in the order the threads happened to run them
      (an index may appear any number of times, or not at all); also the
      outcome of each attempt, which is what the narration prints. */
  function Run(w: World, order: seq<nat>): (r: (World, seq<Outcome>))
    requires w.globals.musicPaused && Schedule(order, |w.players|)
    ensures |r.0.players| == |w.players| && |r.1| == |order|
    ensures r.0.chairs == w.chairs && r.0.globals.musicPaused
    decreases |order|
  {
    if order == [] then (w, [])
    else
      var prev := Run(w, order[..|order| - 1]);
      var next := Step(prev.0, order[|order| - 1]);
      (next.0, prev.1 + [next.1])
  }

  /** `pausar_musica`: the music stops, waking every waiting player. */
  function PauseMusic(w: World): (r: World)
    ensures r.globals.musicPaused
    ensures r.chairs == w.chairs && r.players == w.players
    ensures r.globals.pool == w.globals.pool && r.globals.seatCounter == w.globals.seatCounter
  {
    w.(globals := w.globals.(musicPaused := true))
  }

  /** `resetar_jogadores_para_rodada`: every player may try again. */
  function ClearAttempts(ps: seq<PlayerView>): (r: seq<PlayerView>)
    ensures |r| == |ps|
    ensures forall i :: 0 <= i < |ps| ==>
              r[i].id == ps[i].id && r[i].active == ps[i].active && !r[i].attempted
  {
    seq(|ps|, i requires 0 <= i < |ps| => ps[i].(attempted := false))
  }

  /** The controller after the settling delay: `liberar_jogadores_eliminados`,
      `iniciar_nova_rodada` and `resetar_jogadores_para_rodada`. The units
      released first are drained again, so the pool ends with the new chair count. */
  function EndRound(w: World): (r: World)
    requires w.chairs >= 1
    ensures r.chairs == w.chairs - 1 && r.globals.pool == r.chairs
    ensures r.globals.seatCounter == 1 && !r.globals.musicPaused
    ensures |r.players| == |w.players|
    ensures forall i :: 0 <= i < |w.players| ==>
              r.players[i].id == w.players[i].id && r.players[i].active == w.players[i].active
              && !r.players[i].attempted
  {
    World(w.chairs - 1, Globals(w.chairs - 1, 1, false), ClearAttempts(w.players))
  }

  /** One iteration of the controller's loop, with the attempts of the players
      in the given order between stopping the music and ending the round. */
  function PlayRound(w: World, order: seq<nat>): (r: World)
    requires w.chairs >= 1 && Schedule(order, |w.players|)
    ensures r.chairs == w.chairs - 1 && r.globals.pool == r.chairs
    ensures r.globals.seatCounter == 1 && !r.globals.musicPaused
    ensures |r.players| == |w.players|
    ensures forall i :: 0 <= i < |w.players| ==> !r.players[i].attempted
  {
    EndRound(Run(PauseMusic(w), order).0)
  }

  /** Several rounds, one schedule each. */
  function Rounds(w: World, schedules: seq<seq<nat>>): (r: World)
    requires w.chairs >= |schedules|
    requires forall k :: 0 <= k < |schedules| ==> Schedule(schedules[k], |w.players|)
    ensures r.chairs == w.chairs - |schedules| && |r.players| == |w.players|
    decreases |schedules|
  {
    if schedules == [] then w
    else
      var prev := Rounds(w, schedules[..|schedules| - 1]);
      PlayRound(prev, schedules[|schedules| - 1])
  }

  /** The start of the program: `n` players with identifiers 1..n, all active,
      and `n - 1` chairs both in `JogoCadeiras` and in the semaphore. */
  function Initial(n: int): (r: World)
    requires n >= 1
    ensures r.chairs == n - 1 && r.globals.pool == n - 1
    ensures r.globals.seatCounter == 1 && !r.globals.musicPaused
    ensures |r.players| == n
    ensures forall i :: 0 <= i < n ==> r.players[i] == PlayerView(i + 1, true, false)
  {
    World(n - 1, Globals(n - 1, 1, false), seq(n, i requires 0 <= i < n => PlayerView(i + 1, true, false)))
  }

  /** `jogadores_em_jogo`: the number of active players. */
  function CountActive(ps: seq<PlayerView>): (r: nat)
    ensures r <= |ps|
  {
    if ps == [] then 0
    else CountActive(ps[..|ps| - 1]) + (if ps[|ps| - 1].active then 1 else 0)
  }

  /** `encontrar_vencedor`: the identifier of the first active player, or -1. */
  function Winner(ps: seq<PlayerView>): (r: int)
    ensures r == -1 || exists i :: 0 <= i < |ps| && ps[i].active && ps[i].id == r
  {
    if ps == [] then -1
    else if ps[0].active then ps[0].id
    else Winner(ps[1..])
  }

  /** `jogo_continua`. */
  function GameContinues(playersInGame: int): (b: bool)
  {
    playersInGame > 1
  }

  /** The chair numbers announced by a sequence of outcomes, in order. */
  function SeatedChairs(log: seq<Outcome>): (r: seq<int>)
    ensures |r| <= |log|
  {
    if log == [] then []
    else
      SeatedChairs(log[..|log| - 1])
      + (match log[|log| - 1] case Seated(c) => [c] case _ => [])
  }

  /** The players that were eligible when the round started and woke at least once. */
  function Contenders(ps: seq<PlayerView>, order: seq<nat>): (r: set<int>)
  {
    set i | 0 <= i < |ps| && Eligible(ps[i]) && i in order
  }
}
