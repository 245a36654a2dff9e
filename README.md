# Musical chairs: the round bookkeeping, verified

This project models the round bookkeeping of a musical-chairs game. N players
compete for N − 1 chairs. Each round the controller stops the music. Every
player still in the game then makes one atomic claim on a counting semaphore
that holds the chairs. A player whose claim fails is out for good. The
controller then refills the semaphore with one chair fewer, starts the music
and lets every player try again. The game ends when one player is left.

The model has four parts:

- `semaphore.dfy` (module `Semaphores`): the chair semaphore as a class over a
  non-negative count, with `try_acquire` and `release`.
- `rules.dfy` (module `Rules`): the state of the game as values (`PlayerView`,
  `Globals`, `World`) and every operation as a function. `Sit` is one attempt.
  `Run` is the attempts of one round in any order, which is how the model
  stands for the player threads' interleaving. `EndRound` is the controller's
  work between rounds. `PlayRound` and `Rounds` are whole rounds.
  `CountActive`, `Winner` and `GameContinues` are the controller's queries.
- `game.dfy` (module `Game`): the program's objects as classes. `Shared` holds
  the process-wide globals (the semaphore, `contador_cadeira`,
  `musica_em_pausa`). `ChairsGame` is `JogoCadeiras`, `Player` is `Jogador`
  and `Controller` is `Controlador`. Each class has a ghost `View()`. A method
  that has a matching function in `Rules` is proved to move `View()` exactly
  as that function says: `Player.TryToSit` (`Sit`), `Controller.StopMusic`
  (`PauseMusic`), `Controller.Attempt` (`Step`), `Controller.EndRound`
  (`EndRound`) and `Controller.PlayRound` (`PlayRound`). `ChairsGame.NewRound`,
  `Controller.ReleaseEliminated` and `Player.ResetRound` have no function of
  their own: their contracts state their effect directly, and
  `Controller.EndRound` composes them. So the lemmas about `Rules.PlayRound`
  and `Rules.Rounds` apply to any sequence of `Controller.PlayRound` calls on
  a controller built by `Game.Setup`.
- `round_lemmas.dfy` and `game_lemmas.dfy`: what one round and the whole game
  guarantee, for every order of attempts.

The program's constant `TOTAL_JOGADORES` (4) is `Game.TotalPlayers`, and
`Game.NewGame` builds the program's objects with it. The model otherwise takes
the number of players as a parameter `n`, and the lemmas hold for every `n`.
The four-player case is also stated on its own.

Three details of the code that the model keeps as written:

- The chair count is decremented by one each round (`cadeiras--`). It is not
  recomputed from the number of active players. So the capacity sequence is
  fixed, whoever was eliminated.
- The round reset clears the attempt flag of every player, including inactive
  ones.
- The music flag is set back to false inside `iniciar_nova_rodada`, before the
  players' attempt flags are cleared.

## Model

| member | source | states |
|---|---|---|
| `Semaphores.Semaphore.constructor` | src/main.cpp:12 | the pool starts with the given count |
| `Semaphores.Semaphore.TryAcquire` | src/main.cpp:88 | a claim succeeds exactly when the count is positive and then takes one unit; otherwise the count is unchanged; the count never goes negative (it is a `nat`) |
| `Semaphores.Semaphore.Release` | src/main.cpp:30 | release adds exactly the given non-negative number of units |
| `Rules.Sit` | src/main.cpp:85-97 | an attempt happens only for an active player that has not attempted in this round; it sets the attempt flag; it seats the player on chair `contador_cadeira` (then incremented) exactly when the pool is positive, taking one unit; otherwise the player becomes inactive and the pool and counter are unchanged; the id never changes and the music flag is untouched |
| `Rules.PauseMusic` | src/main.cpp:40-44 | stopping the music sets the flag and leaves the chairs, the pool, the counter and the players as they were |
| `Rules.Step` | src/main.cpp:109 | one attempt by player i keeps the chair count, the number of players and the stopped music, and changes no other player |
| `Rules.Run` | src/main.cpp:105-115 | any sequence of attempts keeps the number of players and the chair count, and the music stays stopped |
| `Rules.ClearAttempts` | src/main.cpp:181-187 | the reset keeps the number of players, every id and every `ativo` flag, and leaves no attempt flag set |
| `Rules.EndRound` | src/main.cpp:141-143 | after the round's end the chair count is one less, the pool holds exactly that count, the counter is 1, the music plays, and the players keep ids and `ativo` with no attempt flag set |
| `Rules.PlayRound` | src/main.cpp:135-144 | a whole round, in any order of attempts, leaves one chair fewer, a pool equal to it, counter 1, music playing, and no attempt flag set |
| `Rules.Rounds` | src/main.cpp:135-144 | after k rounds the chair count of `JogoCadeiras` has dropped by exactly k, and the player vector keeps its length |
| `Rules.Initial` | src/main.cpp:192-197 | the program starts with n − 1 chairs in `JogoCadeiras` and in the pool, counter 1, music playing, and players 1..n in order, all active, none attempted |
| `Rules.CountActive` | src/main.cpp:153-162 | definition of `jogadores_em_jogo`; the count never exceeds the number of players; characterised by `RoundLemmas.CountActiveIsCardinality` |
| `Rules.Winner` | src/main.cpp:164-174 | definition of `encontrar_vencedor`; the result is −1 or the id of an active player; characterised by `GameLemmas.WinnerIsFirstActive` |
| `Rules.GameContinues` | src/main.cpp:54-57 | definition of `jogo_continua`; characterised by `GameLemmas.GameContinuesIffTwoActive` |
| `RoundLemmas.CountActiveIsCardinality` | src/main.cpp:153-162 | the count of `jogadores_em_jogo` equals the number of indices of active players |
| `RoundLemmas.SeatsAreMinOfChairsAndContenders` | src/main.cpp:85-95 | in any order of attempts, with c units in the pool and k eligible players that woke, exactly min(c, k) sit (pool drops by that, counter rises by that) and exactly k − min(c, k) are eliminated; players that did not act are unchanged and every contender has attempted |
| `RoundLemmas.SeatsNeverExceedChairs` | src/main.cpp:29-30 | the seats taken in a round never exceed the pool count set at round start, whatever the order |
| `RoundLemmas.AtMostOneAttemptPerRound` | src/main.cpp:85-87 | every real attempt leaves the attempt flag set; of two wake-ups of the same player in a round at least one does nothing; a player that had already attempted does nothing |
| `RoundLemmas.AttemptedStays` | src/main.cpp:100-103 | within a round the attempt flag never goes back to false, `ativo` never goes from false to true, ids never change, and a player that is inactive or has attempted is not changed at all |
| `RoundLemmas.EliminationOnlyOnFailedClaim` | src/main.cpp:92-95 | a player that leaves the game in a round has an attempt of its own logged as an elimination, and every logged elimination leaves its player inactive |
| `RoundLemmas.ChairNumbersAreConsecutive` | src/main.cpp:90 | the chair numbers announced in a round are the counter's starting value, plus 0, 1, 2, … in order, one per seat taken; each seat moves one unit from the pool to the counter |
| `RoundLemmas.AnnouncedChairsAfterReset` | src/main.cpp:28 | starting from counter 1, after j seats the counter is j + 1, the chairs announced are exactly 1..j, and j is at most the pool count |
| `GameLemmas.ClearAttemptsKeepsActiveCount` | src/main.cpp:181-187 | resetting the attempt flags does not change how many players are active |
| `GameLemmas.WinnerIsFirstActive` | src/main.cpp:164-174 | `encontrar_vencedor` gives −1 when no player is active, and otherwise the id of the first active player in vector order |
| `GameLemmas.GameContinuesIffTwoActive` | src/main.cpp:54-57 | `jogo_continua(jogadores_em_jogo())` holds exactly when two different players are active |
| `GameLemmas.FullRoundEliminatesExactlyOne` | src/main.cpp:135-144 | if a round starts with chairs = pool = active − 1, no attempt flags, at least two active players, and every player wakes, then exactly one player is eliminated and the next round starts in the same kind of state |
| `GameLemmas.FullRoundsKeepArmed` | src/main.cpp:135-144 | over k such rounds the state stays of that kind and the active count drops by exactly k |
| `GameLemmas.RoundsKeepIds` | src/main.cpp:66-67 | no round changes any player's id |
| `GameLemmas.RoundsNeverReactivate` | src/main.cpp:92-95 | across any number of rounds and any orders of attempts, a player active at the end was active at the start: elimination is for good |
| `GameLemmas.CapacitySchedule` | src/main.cpp:22-27 | from the start of the program with n players, after k rounds both `cadeiras` and the pool are n − 1 − k, for any orders of attempts and so whoever was eliminated |
| `GameLemmas.FourPlayerCapacities` | src/main.cpp:11-12 | with four players the rounds have 3, then 2, then 1 chairs |
| `GameLemmas.FourPlayerFirstRound` | src/main.cpp:192-197 | four players, three chairs, all four wake: chairs 1, 2 and 3 are announced, exactly one player is eliminated, and the next round has 2 chairs for 3 players |
| `GameLemmas.GameEndsWithOneWinner` | src/main.cpp:135-146 | with n players and every player waking in every round, the loop condition holds for exactly the first n − 1 rounds, then fails, and the winner's id is in 1..n |
| `Game.Shared.constructor` | src/main.cpp:12-17 | the globals start with n − 1 chairs in the pool, counter 1 and the music playing |
| `Game.Player.constructor` | src/main.cpp:66-67 | a new player has the given id, is active and has not attempted |
| `Game.Player.IsActive` | src/main.cpp:69-72 | definition of `esta_ativo`; `Game.Controller.PlayersInGame` and `Game.Controller.FindWinner` are proved with it |
| `Game.Player.TryToSit` | src/main.cpp:79-98 | after the music has stopped, the player and the globals change exactly as `Rules.Sit` says, and the outcome returned is what the narration announces |
| `Game.Player.ResetRound` | src/main.cpp:100-103 | only the attempt flag changes, to false |
| `Game.ChairsGame.constructor` | src/main.cpp:22-23 | the game starts with total − 1 chairs |
| `Game.ChairsGame.NewRound` | src/main.cpp:25-31 | one chair fewer; counter 1; the pool holds exactly the new chair count whatever it held before; music flag false |
| `Game.ChairsGame.PauseMusic` | src/main.cpp:40-44 | only the music flag changes, to true |
| `Game.Controller.constructor` | src/main.cpp:126-127 | the controller holds the given game and players |
| `Game.Controller.StopMusic` | src/main.cpp:138 | the view changes exactly by the music flag becoming true |
| `Game.Controller.Attempt` | src/main.cpp:109 | one atomic attempt of player i changes the view exactly as `Rules.Step` says: only that player and the globals change |
| `Game.Controller.ReleaseEliminated` | src/main.cpp:176-179 | the pool grows by exactly total − 1 units |
| `Game.Controller.PlayersInGame` | src/main.cpp:153-162 | returns the number of active players |
| `Game.Controller.FindWinner` | src/main.cpp:164-174 | returns `Rules.Winner` of the players, that is the first active id or −1 |
| `Game.Controller.ResetPlayersForRound` | src/main.cpp:181-187 | every player's attempt flag becomes false; nothing else changes |
| `Game.Controller.EndRound` | src/main.cpp:141-143 | release, new round and reset together give `Rules.EndRound`: one chair fewer, pool = new chair count (the released units are drained), counter 1, music playing, flags cleared, active flags and ids kept |
| `Game.Controller.PlayRound` | src/main.cpp:135-144 | stopping the music, the attempts in the given order and ending the round give `Rules.PlayRound`, and the announcements returned are those of `Rules.Run` |
| `Game.NewPlayers` | src/main.cpp:193-197 | creates n distinct fresh players with ids 1..n, all active, none attempted |
| `Game.Setup` | src/main.cpp:192-199 | the objects of `main` are all new (controller, game, globals, semaphore and every player), the vector holds distinct players, and they start in exactly `Rules.Initial(n)` |
| `Game.NewGame` | src/main.cpp:11-12 | the program as built, with `TOTAL_JOGADORES` = 4: new objects in `Rules.Initial(4)`, four players, three chairs and a pool of three |

## Left out

- Threads, their creation and joining, and `std::this_thread::yield`. The player threads' interleaving is an explicit schedule. A schedule is a sequence of player indices: an index may repeat (a spurious wake-up) or be missing (a thread that did not attempt before the controller ended the round). Such a late thread is not simply lost in the program. `musica_em_pausa` stays true until src/main.cpp:31, and lines 141 and 27-30 do not take the mutex. So a late thread can still pass the wait and act while the controller works, with a different effect in each window:
  - between the release of line 178 and the reset of line 28, it takes a released unit and announces the round's running counter (after three seats in a three-chair round, "[Cadeira 4]"); line 28 then resets the counter;
  - during the drain of line 29, after the reset, it announces from 1, so the next round's announcements start at 2;
  - between lines 29 and 30 it is eliminated against the emptied pool;
  - between lines 30 and 31 it takes a unit meant for the next round.

  An attempt can also straddle the flag reset. A thread passes the wait before line 31, sets `tentou_na_rodada` at line 87 and is pre-empted before line 88. Meanwhile the controller runs lines 141-143, which take no mutex, and line 186 clears that thread's flag. Its claim at line 88 then takes a unit of the next round's pool. After the next `pausar_musica`, which waits for the mutex until that call returns, the thread passes the guard of line 85 again and takes a second unit. So one player can attempt twice and hold two chairs in one round, which `RoundLemmas.AtMostOneAttemptPerRound` proves impossible in the model. The model does not have these interleavings.
- `Rules.EndRound` and `Game.Controller.EndRound` are atomic with respect to the players' attempts: no attempt runs between, or overlaps, the release, the drain, the refill, the music flag and the flag reset of line 143, which the program does not guarantee (see the previous line).
- `Semaphores.Semaphore.TryAcquire` never fails spuriously: it fails exactly when the count is 0. The C++ standard allows `try_acquire` to fail spuriously, which in the program would eliminate a player while a chair is free, and would end the drain at line 29 early (the pool then holds more than `cadeiras` units).
- The condition variable, `notify_all` and the mutex. Only the music flag is modelled, and attempts require it to be true.
- The random music delay and the fixed one-second settling delay. Timing is not modelled.
- All console output, and `mostrar_status`, which only prints. Each attempt's `Outcome` stands for what is announced.
- The global `jogo_ativo`, which is never read.
- The upper bound of `counting_semaphore<TOTAL_JOGADORES>`. The pool is an unbounded non-negative integer. A release that would pass that bound (undefined behaviour in C++) is therefore not detected.
- `Game.ChairsGame.NewRound` requires at least one chair before the decrement, because `release` of a negative count is not allowed. If some players miss their attempts, the chair count can reach 0 while several players are still active. The program would then release a negative count. That case is excluded, not modelled.
- The controller loop of `iniciar_jogo` as a whole. It runs until one player is left, which depends on timing. The model has one iteration (`Game.Controller.PlayRound`), and `Rules.Rounds` gives any number of iterations for given schedules.
- `GameLemmas.GameEndsWithOneWinner`, `GameLemmas.FullRoundEliminatesExactlyOne` and `GameLemmas.FullRoundsKeepArmed` assume that every player wakes in every round. With the fixed settling delay the source does not guarantee this.
- `TOTAL_JOGADORES` is a parameter `n` of the model, not the constant 4, except in the four-player lemmas and `Game.NewGame`, which uses `Game.TotalPlayers`.
