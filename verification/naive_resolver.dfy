/** The greedy shot scheduler of NaiveResolver.cpp (threadResolv), written as
    a recursive state transformer. One `State` is the satellite being worked
    on plus the ledger every worker shares: the collections with their
    `taken` flags, the current worker's shot records and the global counter
    nbPict. Workers run one after another in index order. */
module NaiveResolver {
  import opened SimData
  import opened Geometry

  /** The number of worker threads launchResolution starts. */
  const Workers: nat := 4

  datatype State = State(sat: Satellite, colls: seq<Collection>, shots: seq<Shot>, nbPict: int)

  /** The guard of a capture: in range, no slew conflict, not yet taken. */
  predicate CanShoot(ph: Physics, sat: Satellite, im: Image, turn: int) {
    ph.inRange(sat, im) && !IsConflict(sat, im, turn) && !im.taken
  }

  /** One image of the innermost loop: capture it when the guard holds. A
      capture sets exactly this image's flag, remembers the relative offset
      and the turn in the satellite, appends one record `la lo turn x` and
      counts it in nbPict; otherwise nothing changes. */
  function TryImage(ph: Physics, x: nat, turn: int, j: nat, k: nat, st: State): (r: State)
    requires j < |st.colls| && k < |st.colls[j].images|
    ensures SameShape(st.colls, r.colls)
    ensures var im := st.colls[j].images[k];
            r.colls[j].images[k].taken == (im.taken || CanShoot(ph, st.sat, im, turn))
    ensures forall j', k' :: 0 <= j' < |st.colls| && 0 <= k' < |st.colls[j'].images| && (j', k') != (j, k) ==>
              r.colls[j'].images[k'].taken == st.colls[j'].images[k'].taken
    ensures var im := st.colls[j].images[k];
            CanShoot(ph, st.sat, im, turn) ==>
              && r.shots == st.shots + [Shot(im.la, im.lo, turn, x)]
              && r.nbPict == st.nbPict + 1
              && r.sat == st.sat.(lastOffset := Some(RelativeOffset(st.sat, im)), lastShotTurn := turn)
    ensures !CanShoot(ph, st.sat, st.colls[j].images[k], turn) ==> r == st
  {
    var c := st.colls[j];
    var im := c.images[k];
    if CanShoot(ph, st.sat, im, turn) then
      State(st.sat.(lastOffset := Some(RelativeOffset(st.sat, im)), lastShotTurn := turn),
            st.colls[j := c.(images := c.images[k := im.(taken := true)])],
            st.shots + [Shot(im.la, im.lo, turn, x)],
            st.nbPict + 1)
    else st
  }

  /** The loop over the images of collection j, from image k on. */
  function ShootImages(ph: Physics, x: nat, turn: int, j: nat, k: nat, st: State): (r: State)
    requires j < |st.colls| && k <= |st.colls[j].images|
    ensures SameShape(st.colls, r.colls)
    decreases |st.colls[j].images| - k
  {
    if k == |st.colls[j].images| then st
    else ShootImages(ph, x, turn, j, k + 1, TryImage(ph, x, turn, j, k, st))
  }

  /** The loop over the collections at one turn, from collection j on: only
      valid collections whose window holds the turn are scanned. */
  function ShootCollections(ph: Physics, x: nat, turn: int, j: nat, st: State): (r: State)
    requires j <= |st.colls|
    ensures SameShape(st.colls, r.colls)
    decreases |st.colls| - j
  {
    if j == |st.colls| then st
    else
      var c := st.colls[j];
      var next := if c.isValid && InTimeStamp(turn, c) then ShootImages(ph, x, turn, j, 0, st) else st;
      ShootCollections(ph, x, turn, j + 1, next)
  }

  /** The turn loop of one satellite, turns `turn .. maxTurns - 1` in
      ascending order, moving the satellite once after each turn. */
  function Turns(ph: Physics, x: nat, turn: int, maxTurns: int, st: State): (r: State)
    ensures SameShape(st.colls, r.colls)
    decreases maxTurns - turn
  {
    if turn >= maxTurns then st
    else
      var after := ShootCollections(ph, x, turn, 0, st);
      Turns(ph, x, turn + 1, maxTurns, after.(sat := ph.move(after.sat)))
  }

  /** x is start plus a multiple of n. */
  predicate OnStride(x: int, start: int, n: nat)
    requires n > 0
  {
    x >= start && (x - start) % n == 0
  }

  /** The satellites worker `start` of n visits: start, start + n, ... below
      satNb, in ascending order. */
  function VisitOrder(start: nat, n: nat, satNb: nat): (xs: seq<nat>)
    requires n > 0
    ensures forall x :: x in xs <==> OnStride(x, start, n) && x < satNb
    ensures forall a, b :: 0 <= a < b < |xs| ==> xs[a] < xs[b]
    ensures forall a :: 0 <= a < |xs| ==> start <= xs[a] < satNb
    decreases satNb - start
  {
    if start >= satNb then []
    else
      var rest := VisitOrder(start + n, n, satNb);
      forall x ensures OnStride(x, start, n) <==> x == start || OnStride(x, start + n, n) {
        StrideStep(x, start, n);
      }
      [start] + rest
  }

  lemma StrideStep(x: int, start: int, n: nat)
    requires n > 0
    ensures OnStride(x, start, n) <==> x == start || OnStride(x, start + n, n)
  {
    if x >= start + n {
      ModUnique(x - start - n, n, (x - start) / n - 1, (x - start) % n);
    } else if x > start {
      ModUnique(x - start, n, 0, x - start);
    }
  }

  /** Euclidean division has one quotient and one remainder. */
  lemma ModUnique(x: int, n: nat, q: int, r: int)
    requires n > 0 && 0 <= r < n
    requires x == q * n + r || x + n == (q + 1) * n + r
    ensures x % n == r
  {
    var q' := x / n;
    assert x == q' * n + x % n;
    assert x == q * n + r by {
      if x + n == (q + 1) * n + r {
        assert (q + 1) * n == q * n + n;
      }
    }
    assert (q - q') * n == x % n - r by {
      assert (q - q') * n == q * n - q' * n;
    }
    if q - q' >= 1 {
      MulAtLeast(q - q', n);
    } else if q' - q >= 1 {
      MulAtLeast(q' - q, n);
    }
  }

  lemma MulAtLeast(a: int, n: nat)
    requires a >= 1
    ensures a * n >= n
  {
    assert a * n == (a - 1) * n + n;
    MulNonNegative(a - 1, n);
  }

  /** The ledger a worker threads from one satellite to the next. */
  datatype Ledger = Ledger(colls: seq<Collection>, shots: seq<Shot>, nbPict: int)

  /** One worker's satellites in order: each starts from its initial state
      and is processed for turns 0 .. maxTurns - 1. */
  function RunSatellites(ph: Physics, xs: seq<nat>, sats: seq<Satellite>, maxTurns: int, l: Ledger): (r: Ledger)
    requires forall a :: 0 <= a < |xs| ==> xs[a] < |sats|
    ensures SameShape(l.colls, r.colls)
    decreases |xs|
  {
    if |xs| == 0 then l
    else
      var x := xs[0];
      var st := Turns(ph, x, 0, maxTurns, State(sats[x], l.colls, l.shots, l.nbPict));
      RunSatellites(ph, xs[1..], sats, maxTurns, Ledger(st.colls, st.shots, st.nbPict))
  }

  /** threadResolv(i, n): worker i's result string starts empty; the
      collections and nbPict are shared with the other workers. */
  function ThreadResolv(ph: Physics, i: nat, n: nat, sim: SimulationData, colls: seq<Collection>, nbPict: int): (r: Ledger)
    requires n > 0
    ensures SameShape(colls, r.colls)
  {
    RunSatellites(ph, VisitOrder(i, n, |sim.sats|), sim.sats, sim.duration, Ledger(colls, [], nbPict))
  }

  /** The results of the workers i .. n - 1, run in index order. */
  datatype Fanout = Fanout(colls: seq<Collection>, results: seq<seq<Shot>>, nbPict: int)

  function RunWorkers(ph: Physics, sim: SimulationData, i: nat, n: nat, f: Fanout): (r: Fanout)
    requires 0 < n && i <= n
    ensures SameShape(f.colls, r.colls)
    ensures |r.results| == |f.results| + (n - i)
    decreases n - i
  {
    if i == n then f
    else
      var w := ThreadResolv(ph, i, n, sim, f.colls, f.nbPict);
      RunWorkers(ph, sim, i + 1, n, Fanout(w.colls, f.results + [w.shots], w.nbPict))
  }

  /** All shot records, worker results concatenated in worker-index order. */
  function Flatten(results: seq<seq<Shot>>): seq<Shot> {
    if |results| == 0 then [] else Flatten(results[..|results| - 1]) + results[|results| - 1]
  }
}
