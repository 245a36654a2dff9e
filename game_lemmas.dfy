/** What the game guarantees across rounds: the chair schedule, the end of the
    game and its winner. */
module GameLemmas {
  import opened Rules
  import opened RoundLemmas

  predicate NoneAttempted(ps: seq<PlayerView>): (b: bool)
  {
    forall i :: 0 <= i < |ps| ==> !ps[i].attempted
  }

  /** A round about to start with as many chairs, in `JogoCadeiras` and in the pool,
      as there are active players less one. */
  predicate Armed(w: World): (b: bool)
  {
    && CountActive(w.players) >= 1
    && w.chairs == CountActive(w.players) - 1
    && w.globals.pool == w.chairs
    && NoneAttempted(w.players)
  }

  /** Every player thread gets to run its attempt at least once before the
      controller ends the round (no player is lost to the settling delay). */
  predicate EveryoneWakes(order: seq<nat>, n: nat): (b: bool)
  {
    forall i :: 0 <= i < n ==> i in order
  }

  lemma {:induction false} ClearAttemptsKeepsActiveCount(ps: seq<PlayerView>)
    ensures CountActive(ClearAttempts(ps)) == CountActive(ps)
    decreases |ps|
  {
    if ps != [] {
      var last := |ps| - 1;
      assert ClearAttempts(ps)[..last] == ClearAttempts(ps[..last]);
      ClearAttemptsKeepsActiveCount(ps[..last]);
    }
  }

  /** A player list in which everybody is active counts everybody. */
  lemma {:induction false} AllActiveCounted(ps: seq<PlayerView>)
    requires forall i :: 0 <= i < |ps| ==> ps[i].active
    ensures CountActive(ps) == |ps|
    decreases |ps|
  {
    if ps != [] {
      AllActiveCounted(ps[..|ps| - 1]);
    }
  }

  /** `encontrar_vencedor` returns -1 when nobody is active, and otherwise the
      identifier of the first active player in vector order. */
  lemma {:induction false} WinnerIsFirstActive(ps: seq<PlayerView>)
    ensures (forall i :: 0 <= i < |ps| ==> !ps[i].active) ==> Winner(ps) == -1
    ensures (exists i :: 0 <= i < |ps| && ps[i].active) ==>
              exists i :: 0 <= i < |ps| && ps[i].active && Winner(ps) == ps[i].id
                          && forall j :: 0 <= j < i ==> !ps[j].active
    decreases |ps|
  {
    if ps != [] && !ps[0].active {
      var tail := ps[1..];
      WinnerIsFirstActive(tail);
      assert forall i :: 0 < i < |ps| ==> ps[i] == tail[i - 1];
      if exists i :: 0 <= i < |ps| && ps[i].active {
        var i :| 0 <= i < |ps| && ps[i].active;
        assert tail[i - 1].active;
        var k :| 0 <= k < |tail| && tail[k].active && Winner(tail) == tail[k].id
                 && forall j :: 0 <= j < k ==> !tail[j].active;
        assert forall j :: 0 <= j < k + 1 ==> !ps[j].active by {
          forall j | 0 <= j < k + 1 ensures !ps[j].active {
            if j > 0 { assert ps[j] == tail[j - 1]; }
          }
        }
      } else {
        assert forall i :: 0 <= i < |tail| ==> !tail[i].active by {
          forall i | 0 <= i < |tail| ensures !tail[i].active { assert tail[i] == ps[i + 1]; }
        }
      }
    }
  }

  /** Two different active players make the active set larger than one. */
  lemma TwoActiveMeanMoreThanOne(ps: seq<PlayerView>, i: nat, j: nat)
    requires i < j < |ps| && ps[i].active && ps[j].active
    ensures |set k | 0 <= k < |ps| && ps[k].active| > 1
  {
    var s := set k | 0 <= k < |ps| && ps[k].active;
    var t := s - {i};
    assert j in t;
    assert s == t + {i} && i !in t;
  }

  /** An active set larger than one holds two different active players. */
  lemma MoreThanOneMeansTwoActive(ps: seq<PlayerView>) returns (i: nat, j: nat)
    requires |set k | 0 <= k < |ps| && ps[k].active| > 1
    ensures i < j < |ps| && ps[i].active && ps[j].active
  {
    var s := set k | 0 <= k < |ps| && ps[k].active;
    var a :| a in s;
    var t := s - {a};
    assert |t| == |s| - 1;
    var b :| b in t;
    if a < b { i, j := a, b; } else { i, j := b, a; }
  }

  /** `jogo_continua(jogadores_em_jogo())` holds exactly when two different
      players are still active. */
  lemma GameContinuesIffTwoActive(ps: seq<PlayerView>)
    ensures GameContinues(CountActive(ps))
            <==> exists i, j :: 0 <= i < j < |ps| && ps[i].active && ps[j].active
  {
    CountActiveIsCardinality(ps);
    if exists i, j :: 0 <= i < j < |ps| && ps[i].active && ps[j].active {
      var i, j :| 0 <= i < j < |ps| && ps[i].active && ps[j].active;
      TwoActiveMeanMoreThanOne(ps, i, j);
    }
    if GameContinues(CountActive(ps)) {
      var i, j := MoreThanOneMeansTwoActive(ps);
    }
  }

  /** When every player wakes during a round that starts armed, exactly one player
      is eliminated and the next round starts armed again. */
  lemma FullRoundEliminatesExactlyOne(w: World, order: seq<nat>)
    requires Armed(w) && CountActive(w.players) >= 2
    requires Schedule(order, |w.players|) && EveryoneWakes(order, |w.players|)
    ensures Armed(PlayRound(w, order))
    ensures CountActive(PlayRound(w, order).players) == CountActive(w.players) - 1
  {
    var p := PauseMusic(w);
    assert Contenders(p.players, order) == set i | 0 <= i < |w.players| && w.players[i].active;
    CountActiveIsCardinality(w.players);
    SeatsAreMinOfChairsAndContenders(p, order);
    ClearAttemptsKeepsActiveCount(Run(p, order).0.players);
  }

  /** With every player waking in every round, the armed state is kept and each
      round removes exactly one player. */
  lemma {:induction false} FullRoundsKeepArmed(w: World, schedules: seq<seq<nat>>)
    requires Armed(w) && |schedules| < CountActive(w.players)
    requires forall k :: 0 <= k < |schedules| ==> Schedule(schedules[k], |w.players|)
    requires forall k :: 0 <= k < |schedules| ==> EveryoneWakes(schedules[k], |w.players|)
    ensures Armed(Rounds(w, schedules))
    ensures CountActive(Rounds(w, schedules).players) == CountActive(w.players) - |schedules|
    decreases |schedules|
  {
    if schedules != [] {
      var init := schedules[..|schedules| - 1];
      FullRoundsKeepArmed(w, init);
      FullRoundEliminatesExactlyOne(Rounds(w, init), schedules[|schedules| - 1]);
    }
  }

  /** Rounds never change a player's identifier. */
  lemma {:induction false} RoundsKeepIds(w: World, schedules: seq<seq<nat>>)
    requires w.chairs >= |schedules|
    requires forall k :: 0 <= k < |schedules| ==> Schedule(schedules[k], |w.players|)
    ensures forall i :: 0 <= i < |w.players| ==> Rounds(w, schedules).players[i].id == w.players[i].id
    decreases |schedules|
  {
    if schedules != [] {
      var init := schedules[..|schedules| - 1];
      RoundsKeepIds(w, init);
      var prev := Rounds(w, init);
      AttemptedStays(PauseMusic(prev), schedules[|schedules| - 1]);
    }
  }

  /** Elimination is for good across rounds: a player active after any number of
      rounds was active at the start. (The round reset clears the attempt flag of
      inactive players too, so an inactive player is not unchanged; only `ativo`
      never goes back to true.) */
  lemma {:induction false} RoundsNeverReactivate(w: World, schedules: seq<seq<nat>>)
    requires w.chairs >= |schedules|
    requires forall k :: 0 <= k < |schedules| ==> Schedule(schedules[k], |w.players|)
    ensures forall i :: 0 <= i < |w.players| && Rounds(w, schedules).players[i].active
              ==> w.players[i].active
    decreases |schedules|
  {
    if schedules != [] {
      var init := schedules[..|schedules| - 1];
      RoundsNeverReactivate(w, init);
      var prev := Rounds(w, init);
      AttemptedStays(PauseMusic(prev), schedules[|schedules| - 1]);
    }
  }

  /** The chair count follows a fixed schedule, whoever is eliminated: before round
      `k + 1` it is `n - 1 - k`, both in `JogoCadeiras` and in the pool. */
  lemma {:induction false} CapacitySchedule(n: int, schedules: seq<seq<nat>>)
    requires n >= 1 && |schedules| <= n - 1
    requires forall k :: 0 <= k < |schedules| ==> Schedule(schedules[k], n)
    ensures Rounds(Initial(n), schedules).chairs == n - 1 - |schedules|
    ensures Rounds(Initial(n), schedules).globals.pool == n - 1 - |schedules|
  {
    if schedules != [] {
      var init := schedules[..|schedules| - 1];
      assert Rounds(Initial(n), schedules)
             == PlayRound(Rounds(Initial(n), init), schedules[|schedules| - 1]);
    }
  }

  /** With four players the rounds have 3, 2 and 1 chairs, for any attempt orders. */
  lemma FourPlayerCapacities(s1: seq<nat>, s2: seq<nat>)
    requires Schedule(s1, 4) && Schedule(s2, 4)
    ensures Initial(4).globals.pool == 3
    ensures Rounds(Initial(4), [s1]).globals.pool == 2
    ensures Rounds(Initial(4), [s1, s2]).globals.pool == 1
  {
    CapacitySchedule(4, [s1]);
    CapacitySchedule(4, [s1, s2]);
  }

  /** Four players, three chairs, all four wake: three sit on chairs 1, 2 and 3,
      one is eliminated, and the next round has two chairs for three players. */
  lemma FourPlayerFirstRound(order: seq<nat>)
    requires Schedule(order, 4) && EveryoneWakes(order, 4)
    ensures var (r, log) := Run(PauseMusic(Initial(4)), order);
            && SeatedChairs(log) == [1, 2, 3]
            && CountActive(r.players) == 3
            && PlayRound(Initial(4), order).globals.pool == 2
            && CountActive(PlayRound(Initial(4), order).players) == 3
  {
    var w := Initial(4);
    var p := PauseMusic(w);
    AllActiveCounted(w.players);
    assert Contenders(p.players, order) == {0, 1, 2, 3};
    SeatsAreMinOfChairsAndContenders(p, order);
    AnnouncedChairsAfterReset(p, order);
    var (r, log) := Run(p, order);
    assert |SeatedChairs(log)| == 3;
    ClearAttemptsKeepsActiveCount(r.players);
  }

  /** With `n` players, and every player waking in every round, the controller's
      loop runs exactly `n - 1` rounds and then names a winner with an identifier
      in 1..n. */
  lemma GameEndsWithOneWinner(n: int, schedules: seq<seq<nat>>)
    requires n >= 1 && |schedules| == n - 1
    requires forall k :: 0 <= k < |schedules| ==> Schedule(schedules[k], n)
    requires forall k :: 0 <= k < |schedules| ==> EveryoneWakes(schedules[k], n)
    ensures forall k :: 0 <= k < n - 1 ==>
              GameContinues(CountActive(Rounds(Initial(n), schedules[..k]).players))
    ensures !GameContinues(CountActive(Rounds(Initial(n), schedules).players))
    ensures 1 <= Winner(Rounds(Initial(n), schedules).players) <= n
  {
    var w := Initial(n);
    AllActiveCounted(w.players);
    forall k | 0 <= k < n - 1
      ensures GameContinues(CountActive(Rounds(w, schedules[..k]).players))
    {
      FullRoundsKeepArmed(w, schedules[..k]);
    }
    FullRoundsKeepArmed(w, schedules);
    var last := Rounds(w, schedules);
    RoundsKeepIds(w, schedules);
    CountActiveIsCardinality(last.players);
    var s := set i | 0 <= i < |last.players| && last.players[i].active;
    var i :| i in s;
    WinnerIsFirstActive(last.players);
  }
}
