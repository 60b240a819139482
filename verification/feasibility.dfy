/** Where the resolver's records could have been taken from. A capture needs
    the image in range of the satellite as the resolver has moved it so far;
    this module follows that satellite through the loops of threadResolv and
    shows that every record is in range of its satellite moved `turn` times
    from its initial state, provided moving and range do not depend on the
    record of the last shot. */
module Feasibility {
  import opened SimData
  import opened NaiveResolver
  import opened Geometry
  import opened Resolution

  /** A satellite without the record of its last shot: its pointing, speed
      and whatever else moveSatelite and isInRange may look at. */
  function Aim(s: Satellite): Satellite {
    s.(lastOffset := None, lastShotTurn := 0)
  }

  /** The satellite after t calls of moveSatelite. */
  function MoveN(ph: Physics, sat: Satellite, t: nat): Satellite
    decreases t
  {
    if t == 0 then sat else ph.move(MoveN(ph, sat, t - 1))
  }

  /** isInRange and moveSatelite ignore the record of the last shot: two
      satellites with the same aim are in range of the same images and keep
      the same aim when moved. */
  ghost predicate ShotRecordInert(ph: Physics) {
    && (forall a, b, im :: Aim(a) == Aim(b) ==> ph.inRange(a, im) == ph.inRange(b, im))
    && (forall a, b :: Aim(a) == Aim(b) ==> Aim(ph.move(a)) == Aim(ph.move(b)))
  }

  /** A record is in range of its satellite moved to the record's turn. */
  predicate Feasible(ph: Physics, sats: seq<Satellite>, s: Shot) {
    0 <= s.sat < |sats| && s.turn >= 0 && ph.inRange(MoveN(ph, sats[s.sat], s.turn), Image(s.la, s.lo, false))
  }

  predicate AllFeasible(ph: Physics, sats: seq<Satellite>, shots: seq<Shot>) {
    forall i :: 0 <= i < |shots| ==> Feasible(ph, sats, shots[i])
  }

  /** Satellite x, while the resolver works on it at this turn. */
  predicate OnTrack(ph: Physics, sats: seq<Satellite>, x: nat, turn: int, sat: Satellite) {
    x < |sats| && turn >= 0 && Aim(sat) == Aim(MoveN(ph, sats[x], turn))
  }

  lemma AllFeasibleAppend(ph: Physics, sats: seq<Satellite>, a: seq<Shot>, b: seq<Shot>)
    requires AllFeasible(ph, sats, a) && AllFeasible(ph, sats, b)
    ensures AllFeasible(ph, sats, a + b)
  {
    forall i | 0 <= i < |a + b|
      ensures Feasible(ph, sats, (a + b)[i])
    {
      if i >= |a| {
        assert (a + b)[i] == b[i - |a|];
      }
    }
  }

  /** A capture records an image in range of the satellite on its track; the
      satellite stays on its track. */
  lemma TryImageFeasible(ph: Physics, sats: seq<Satellite>, x: nat, turn: int, j: nat, k: nat, st: State)
    requires ShotRecordInert(ph)
    requires j < |st.colls| && k < |st.colls[j].images|
    requires OnTrack(ph, sats, x, turn, st.sat) && AllFeasible(ph, sats, st.shots)
    ensures var r := TryImage(ph, x, turn, j, k, st);
            OnTrack(ph, sats, x, turn, r.sat) && AllFeasible(ph, sats, r.shots)
  {
    var im := st.colls[j].images[k];
    if CanShoot(ph, st.sat, im, turn) {
      var s := Shot(im.la, im.lo, turn, x);
      assert im == Image(s.la, s.lo, false);
      assert ph.inRange(MoveN(ph, sats[x], turn), im);
      AllFeasibleAppend(ph, sats, st.shots, [s]);
    }
  }

  lemma {:induction false} ShootImagesFeasible(ph: Physics, sats: seq<Satellite>, x: nat, turn: int, j: nat, k: nat,
                                               st: State)
    requires ShotRecordInert(ph)
    requires j < |st.colls| && k <= |st.colls[j].images|
    requires OnTrack(ph, sats, x, turn, st.sat) && AllFeasible(ph, sats, st.shots)
    ensures var r := ShootImages(ph, x, turn, j, k, st);
            OnTrack(ph, sats, x, turn, r.sat) && AllFeasible(ph, sats, r.shots)
    decreases |st.colls[j].images| - k
  {
    if k < |st.colls[j].images| {
      TryImageFeasible(ph, sats, x, turn, j, k, st);
      ShootImagesFeasible(ph, sats, x, turn, j, k + 1, TryImage(ph, x, turn, j, k, st));
    }
  }

  lemma {:induction false} ShootCollectionsFeasible(ph: Physics, sats: seq<Satellite>, x: nat, turn: int, j: nat,
                                                    st: State)
    requires ShotRecordInert(ph)
    requires j <= |st.colls|
    requires OnTrack(ph, sats, x, turn, st.sat) && AllFeasible(ph, sats, st.shots)
    ensures var r := ShootCollections(ph, x, turn, j, st);
            OnTrack(ph, sats, x, turn, r.sat) && AllFeasible(ph, sats, r.shots)
    decreases |st.colls| - j
  {
    if j < |st.colls| {
      var c := st.colls[j];
      if c.isValid && InTimeStamp(turn, c) {
        ShootImagesFeasible(ph, sats, x, turn, j, 0, st);
      }
      var next := if c.isValid && InTimeStamp(turn, c) then ShootImages(ph, x, turn, j, 0, st) else st;
      ShootCollectionsFeasible(ph, sats, x, turn, j + 1, next);
    }
  }

  /** The turn loop of satellite x: moving after each turn keeps it on its
      track, so every capture is in range of its track at the capture's turn. */
  lemma {:induction false} TurnsFeasible(ph: Physics, sats: seq<Satellite>, x: nat, turn: int, maxTurns: int, st: State)
    requires ShotRecordInert(ph)
    requires OnTrack(ph, sats, x, turn, st.sat) && AllFeasible(ph, sats, st.shots)
    ensures AllFeasible(ph, sats, Turns(ph, x, turn, maxTurns, st).shots)
    decreases maxTurns - turn
  {
    if turn < maxTurns {
      var after := ShootCollections(ph, x, turn, 0, st);
      ShootCollectionsFeasible(ph, sats, x, turn, 0, st);
      assert Aim(ph.move(after.sat)) == Aim(ph.move(MoveN(ph, sats[x], turn)));
      assert MoveN(ph, sats[x], turn + 1) == ph.move(MoveN(ph, sats[x], turn));
      TurnsFeasible(ph, sats, x, turn + 1, maxTurns, after.(sat := ph.move(after.sat)));
    }
  }

  lemma {:induction false} RunSatellitesFeasible(ph: Physics, xs: seq<nat>, sats: seq<Satellite>, maxTurns: int, l: Ledger)
    requires ShotRecordInert(ph)
    requires forall a :: 0 <= a < |xs| ==> xs[a] < |sats|
    requires AllFeasible(ph, sats, l.shots)
    ensures AllFeasible(ph, sats, RunSatellites(ph, xs, sats, maxTurns, l).shots)
    decreases |xs|
  {
    if |xs| > 0 {
      var x := xs[0];
      var st0 := State(sats[x], l.colls, l.shots, l.nbPict);
      assert MoveN(ph, sats[x], 0) == sats[x];
      TurnsFeasible(ph, sats, x, 0, maxTurns, st0);
      var st := Turns(ph, x, 0, maxTurns, st0);
      RunSatellitesFeasible(ph, xs[1..], sats, maxTurns, Ledger(st.colls, st.shots, st.nbPict));
    }
  }

  lemma {:induction false} RunWorkersFeasible(ph: Physics, sim: SimulationData, i: nat, n: nat, f: Fanout)
    requires ShotRecordInert(ph)
    requires 0 < n && i <= n
    requires AllFeasible(ph, sim.sats, Flatten(f.results))
    ensures AllFeasible(ph, sim.sats, Flatten(RunWorkers(ph, sim, i, n, f).results))
    decreases n - i
  {
    if i < n {
      var w := ThreadResolv(ph, i, n, sim, f.colls, f.nbPict);
      RunSatellitesFeasible(ph, VisitOrder(i, n, |sim.sats|), sim.sats, sim.duration, Ledger(f.colls, [], f.nbPict));
      var f1 := Fanout(w.colls, f.results + [w.shots], w.nbPict);
      assert Flatten(f1.results) == Flatten(f.results) + w.shots by {
        assert f1.results[..|f1.results| - 1] == f.results;
      }
      AllFeasibleAppend(ph, sim.sats, Flatten(f.results), w.shots);
      RunWorkersFeasible(ph, sim, i + 1, n, f1);
    }
  }

  /** Every record launchResolution writes is in range of its satellite
      moved from its initial state to the record's turn. */
  lemma ResolutionFeasible(ph: Physics, sim: SimulationData)
    requires ShotRecordInert(ph)
    ensures AllFeasible(ph, sim.sats, Flatten(LaunchResolution(ph, sim).results))
  {
    assert Flatten([]) == [];
    RunWorkersFeasible(ph, sim, 0, Workers, Fanout(sim.colls, [], 0));
  }
}
