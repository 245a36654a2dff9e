/** What one round guarantees, for every order in which the players' attempts
    happen to run. */
module RoundLemmas {
  import opened Rules

  /** Replacing one player changes the active count by the change in that player. */
  lemma {:induction false} CountActiveUpdate(ps: seq<PlayerView>, x: nat, p: PlayerView)
    requires x < |ps|
    ensures CountActive(ps[x := p])
            == CountActive(ps) - (if ps[x].active then 1 else 0) + (if p.active then 1 else 0)
    decreases |ps|
  {
    var last := |ps| - 1;
    if x < last {
      assert ps[x := p][..last] == ps[..last][x := p];
      CountActiveUpdate(ps[..last], x, p);
    } else {
      assert ps[x := p][..last] == ps[..last];
    }
  }

  /** The active count of `jogadores_em_jogo` is the number of active indices. */
  lemma {:induction false} CountActiveIsCardinality(ps: seq<PlayerView>)
    ensures CountActive(ps) == |set i | 0 <= i < |ps| && ps[i].active|
    decreases |ps|
  {
    if ps != [] {
      var last := |ps| - 1;
      var init := ps[..last];
      CountActiveIsCardinality(init);
      var s := set i | 0 <= i < |init| && init[i].active;
      var t := set i | 0 <= i < |ps| && ps[i].active;
      if ps[last].active {
        assert t == s + {last};
        assert last !in s;
      } else {
        assert t == s;
      }
    }
  }

  /** The accounting of one round so far: `T` is the set of contenders that have
      acted, `r` the state reached from players `ps`, `c` chairs and counter `s0`. */
  predicate Accounted(ps: seq<PlayerView>, c: nat, s0: int, T: set<int>, r: World): (b: bool)
  {
    && |r.players| == |ps|
    && (forall i :: i in T ==> 0 <= i < |ps|)
    && r.globals.pool == c - Min(c, |T|)
    && r.globals.seatCounter == s0 + Min(c, |T|)
    && CountActive(ps) - CountActive(r.players) == |T| - Min(c, |T|)
    && (forall i :: 0 <= i < |ps| && i !in T ==> r.players[i] == ps[i])
    && (forall i :: i in T ==> r.players[i].attempted)
  }

  /** One more attempt keeps the accounting, adding the player to `T` exactly when
      it was a contender that had not acted yet. */
  lemma AccountedStep(ps: seq<PlayerView>, c: nat, s0: int, T: set<int>, prev: World, x: nat)
    requires x < |ps| && prev.globals.musicPaused
    requires Accounted(ps, c, s0, T, prev)
    ensures Accounted(ps, c, s0, if x in T || !Eligible(ps[x]) then T else T + {x}, Step(prev, x).0)
  {
    var s := Sit(prev.players[x], prev.globals);
    if x in T || !Eligible(ps[x]) {
      assert !Eligible(prev.players[x]);
      assert prev.players[x := s.0] == prev.players;
    } else {
      assert prev.players[x] == ps[x];
      CountActiveUpdate(prev.players, x, s.0);
      var T' := T + {x};
      assert |T'| == |T| + 1;
      if prev.globals.pool > 0 {
        assert Min(c, |T'|) == Min(c, |T|) + 1;
      } else {
        assert Min(c, |T'|) == Min(c, |T|);
      }
    }
  }

  /** One more wake-up adds its player to the contenders when it was eligible. */
  lemma ContendersGrow(ps: seq<PlayerView>, order: seq<nat>, x: nat)
    requires x < |ps|
    ensures var T := Contenders(ps, order);
            Contenders(ps, order + [x]) == if x in T || !Eligible(ps[x]) then T else T + {x}
  {
    assert forall i :: i in order + [x] <==> i in order || i == x;
  }

  /** Within one round, whatever the order of the attempts: with `c` chairs in the
      pool and `k` players that were eligible and woke up, exactly `min(c, k)` of
      them sit and the other `k - min(c, k)` are eliminated; players that did not
      act are untouched and every contender has now attempted. */
  lemma {:induction false} SeatsAreMinOfChairsAndContenders(w: World, order: seq<nat>)
    requires w.globals.musicPaused && Schedule(order, |w.players|)
    ensures var r := Run(w, order).0;
            var c := w.globals.pool;
            var k := |Contenders(w.players, order)|;
            && r.globals.pool == c - Min(c, k)
            && r.globals.seatCounter == w.globals.seatCounter + Min(c, k)
            && CountActive(w.players) - CountActive(r.players) == k - Min(c, k)
            && (forall i :: 0 <= i < |w.players| && i !in Contenders(w.players, order)
                  ==> r.players[i] == w.players[i])
            && (forall i :: i in Contenders(w.players, order) ==> r.players[i].attempted)
    decreases |order|
  {
    var ps := w.players;
    if order == [] {
      assert Contenders(ps, order) == {};
      assert Accounted(ps, w.globals.pool, w.globals.seatCounter, {}, w);
    } else {
      var init := order[..|order| - 1];
      var x := order[|order| - 1];
      assert Schedule(init, |ps|);
      SeatsAreMinOfChairsAndContenders(w, init);
      AccountedStep(ps, w.globals.pool, w.globals.seatCounter, Contenders(ps, init), Run(w, init).0, x);
      assert order == init + [x];
      ContendersGrow(ps, init, x);
      assert Run(w, order).0 == Step(Run(w, init).0, x).0;
    }
  }

  /** The seats taken never exceed the chairs the pool held when the music stopped. */
  lemma SeatsNeverExceedChairs(w: World, order: seq<nat>)
    requires w.globals.musicPaused && Schedule(order, |w.players|)
    ensures var r := Run(w, order).0;
            r.globals.pool <= w.globals.pool
            && r.globals.seatCounter - w.globals.seatCounter <= w.globals.pool
  {
    SeatsAreMinOfChairsAndContenders(w, order);
  }

  /** At most one attempt per player per round: an attempt sets the player's flag,
      of two wake-ups of the same player at least one does nothing, and a player
      that had already attempted does nothing at all. */
  lemma {:induction false} AtMostOneAttemptPerRound(w: World, order: seq<nat>)
    requires w.globals.musicPaused && Schedule(order, |w.players|)
    ensures var (r, log) := Run(w, order);
            && (forall j :: 0 <= j < |order| && !log[j].Skipped? ==> r.players[order[j]].attempted)
            && (forall j1, j2 :: 0 <= j1 < j2 < |order| && order[j1] == order[j2]
                  ==> log[j1].Skipped? || log[j2].Skipped?)
            && (forall j :: 0 <= j < |order| && w.players[order[j]].attempted ==> log[j].Skipped?)
    decreases |order|
  {
    if order != [] {
      var init := order[..|order| - 1];
      var x := order[|order| - 1];
      assert Schedule(init, |w.players|);
      AtMostOneAttemptPerRound(w, init);
      AttemptedStays(w, init);
      var prev := Run(w, init);
      assert forall j :: 0 <= j < |init| ==> order[j] == init[j];
    }
  }

  /** Flags only go one way during a round: an attempted player stays attempted and
      an inactive player stays inactive. */
  lemma {:induction false} AttemptedStays(w: World, order: seq<nat>)
    requires w.globals.musicPaused && Schedule(order, |w.players|)
    ensures var r := Run(w, order).0;
            forall i :: 0 <= i < |w.players| ==>
              (w.players[i].attempted ==> r.players[i].attempted)
              && (r.players[i].active ==> w.players[i].active)
              && r.players[i].id == w.players[i].id
              && (!Eligible(w.players[i]) ==> r.players[i] == w.players[i])
    decreases |order|
  {
    if order != [] {
      var init := order[..|order| - 1];
      assert Schedule(init, |w.players|);
      AttemptedStays(w, init);
    }
  }

  /** Elimination is monotonic and happens only on a failed claim: a player that
      leaves the game in this round had an attempt logged as an elimination, and
      every logged elimination left its player inactive. */
  lemma {:induction false} EliminationOnlyOnFailedClaim(w: World, order: seq<nat>)
    requires w.globals.musicPaused && Schedule(order, |w.players|)
    ensures var (r, log) := Run(w, order);
            && (forall i :: 0 <= i < |w.players| && w.players[i].active && !r.players[i].active
                  ==> exists j :: 0 <= j < |order| && order[j] == i && log[j] == Eliminated)
            && (forall j :: 0 <= j < |order| && log[j] == Eliminated ==> !r.players[order[j]].active)
    decreases |order|
  {
    if order != [] {
      var init := order[..|order| - 1];
      var x := order[|order| - 1];
      assert Schedule(init, |w.players|);
      EliminationOnlyOnFailedClaim(w, init);
      AttemptedStays(w, init);
      var prev := Run(w, init);
      var (r, log) := Run(w, order);
      assert forall j :: 0 <= j < |init| ==> order[j] == init[j] && log[j] == prev.1[j];
      forall i | 0 <= i < |w.players| && w.players[i].active && !r.players[i].active
        ensures exists j :: 0 <= j < |order| && order[j] == i && log[j] == Eliminated
      {
        if prev.0.players[i].active {
          assert i == x && log[|order| - 1] == Eliminated;
        } else {
          var j :| 0 <= j < |init| && init[j] == i && prev.1[j] == Eliminated;
          assert order[j] == i && log[j] == Eliminated;
        }
      }
    }
  }

  /** The chair numbers announced in one round are consecutive, starting at the
      seat counter's value when the music stopped, one per seat taken; a seat
      taken moves one unit from the pool to the counter. */
  lemma {:induction false} ChairNumbersAreConsecutive(w: World, order: seq<nat>)
    requires w.globals.musicPaused && Schedule(order, |w.players|)
    ensures var (r, log) := Run(w, order);
            var chairs := SeatedChairs(log);
            && |chairs| == r.globals.seatCounter - w.globals.seatCounter
            && (forall m :: 0 <= m < |chairs| ==> chairs[m] == w.globals.seatCounter + m)
            && r.globals.pool + r.globals.seatCounter == w.globals.pool + w.globals.seatCounter
    decreases |order|
  {
    if order != [] {
      var init := order[..|order| - 1];
      assert Schedule(init, |w.players|);
      ChairNumbersAreConsecutive(w, init);
      var log := Run(w, order).1;
      assert log[..|log| - 1] == Run(w, init).1;
    }
  }

  /** After a round reset the counter is 1, so after `j` seats it is `j + 1` and
      the chairs announced are exactly 1..j. */
  lemma AnnouncedChairsAfterReset(w: World, order: seq<nat>)
    requires w.globals.musicPaused && Schedule(order, |w.players|)
    requires w.globals.seatCounter == 1
    ensures var (r, log) := Run(w, order);
            var j := |SeatedChairs(log)|;
            && r.globals.seatCounter == j + 1
            && j <= w.globals.pool
            && (forall m :: 0 <= m < j ==> SeatedChairs(log)[m] == m + 1)
  {
    ChairNumbersAreConsecutive(w, order);
    SeatsNeverExceedChairs(w, order);
  }
}
