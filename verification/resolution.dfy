/** launchResolution of NaiveResolver.cpp: one pass of the four workers over
    fresh collections, the check that drops incomplete collections, and the
    output file `nbPict` followed by the workers' records in worker order. */
module Resolution {
  import opened SimData
  import opened Text
  import opened Geometry
  import opened NaiveResolver
  import opened Bookkeeping
  import opened PassProofs

  /** What one pass leaves behind: the checked collections, the result string
      of each worker (as its records), the picture counter and the flag that
      would ask for another pass. */
  datatype Resolution = Resolution(colls: seq<Collection>, results: seq<seq<Shot>>, nbPict: int, redo: bool)

  /** The pass itself, before the check: the workers 0 .. Workers - 1 in order,
      nbPict starting at 0 and every result string empty. */
  function Pass(ph: Physics, sim: SimulationData): (f: Fanout)
    ensures SameShape(sim.colls, f.colls)
    ensures |f.results| == Workers
  {
    RunWorkers(ph, sim, 0, Workers, Fanout(sim.colls, [], 0))
  }

  /** launchResolution: a pass then checkUncompleteCollections. The counter
      equals the number of records written; every record of worker w is by a
      satellite congruent to w modulo the worker count, at a turn of the
      simulation; a collection stays valid exactly when it was valid and the
      pass completed it; only images of valid collections get taken. */
  function LaunchResolution(ph: Physics, sim: SimulationData): (r: Resolution)
    ensures |r.results| == Workers
    ensures r.nbPict == |Flatten(r.results)|
    ensures forall w, s :: 0 <= w < Workers && s in r.results[w] ==>
              s.sat % Workers == w && 0 <= s.sat < |sim.sats| && 0 <= s.turn < sim.duration
    ensures r.results == Pass(ph, sim).results
    ensures (r.colls, r.redo) == CheckUncompleteCollections(Pass(ph, sim).colls)
  {
    var f := Pass(ph, sim);
    PassExtends(ph, sim);
    WorkerPartition(ph, sim);
    var (colls, redo) := CheckUncompleteCollections(f.colls);
    Resolution(colls, f.results, f.nbPict, redo)
  }

  /** The pass extends the empty ledger over the input collections. */
  lemma PassExtends(ph: Physics, sim: SimulationData)
    ensures var f := Pass(ph, sim);
            && Extends(Ledger(sim.colls, [], 0), Ledger(f.colls, Flatten(f.results), f.nbPict))
            && FlipsValid(sim.colls, f.colls)
            && forall w :: 0 <= w < Workers ==> WorkerResult(f.results[w], w, Workers, sim)
  {
    RunWorkersExtends(ph, sim, 0, Workers, Fanout(sim.colls, [], 0));
    assert Flatten([]) == [];
  }

  /** Worker w's records are by satellites congruent to w. */
  lemma WorkerPartition(ph: Physics, sim: SimulationData)
    ensures var f := Pass(ph, sim);
            forall w, s :: 0 <= w < Workers && s in f.results[w] ==>
              s.sat % Workers == w && 0 <= s.sat < |sim.sats| && 0 <= s.turn < sim.duration
  {
    var f := Pass(ph, sim);
    PassExtends(ph, sim);
    forall w, s | 0 <= w < Workers && s in f.results[w]
      ensures s.sat % Workers == w
    {
      assert WorkerResult(f.results[w], w, Workers, sim);
      StrideMod(s.sat, w, Workers);
    }
  }

  /** A stride from w < n holds exactly the numbers congruent to w. */
  lemma StrideMod(x: int, w: nat, n: nat)
    requires w < n && x >= 0
    ensures OnStride(x, w, n) <==> x % n == w
  {
    if x % n == w {
      assert x == (x / n) * n + w;
      assert x - w == (x / n) * n;
      MulNonNegative(x / n, n);
      ModUnique(x - w, n, x / n, 0);
    }
    if OnStride(x, w, n) {
      assert x - w == ((x - w) / n) * n;
      ModUnique(x, n, (x - w) / n, w);
    }
  }

  /** The workers split the satellites: satellite x is visited by worker w
      exactly when w is x modulo the worker count, so by exactly one worker. */
  lemma VisitedByOne(x: nat, w: nat, satNb: nat)
    requires x < satNb && w < Workers
    ensures x in VisitOrder(w, Workers, satNb) <==> w == x % Workers
  {
    StrideMod(x, w, Workers);
  }

  /** Collections with the same shape hold as many images. */
  lemma {:induction false} SameShapeTotal(a: seq<Collection>, b: seq<Collection>)
    requires SameShape(a, b)
    ensures TotalImages(a) == TotalImages(b)
  {
    if |a| > 0 {
      assert SameCollection(a[0], b[0]);
      assert SameShape(a[1..], b[1..]) by {
        forall j | 0 <= j < |a| - 1
          ensures SameCollection(a[1..][j], b[1..][j])
        {
          assert a[1..][j] == a[j + 1] && b[1..][j] == b[j + 1];
        }
      }
      SameShapeTotal(a[1..], b[1..]);
    }
  }

  /** No more pictures are counted than the input has images. */
  lemma PictureCountBound(ph: Physics, sim: SimulationData)
    ensures 0 <= LaunchResolution(ph, sim).nbPict <= TotalImages(sim.colls)
  {
    var f := Pass(ph, sim);
    PassExtends(ph, sim);
    TakenCountBound(f.colls);
    SameShapeTotal(sim.colls, f.colls);
  }

  /** Every record names the position of an image of the input. */
  lemma RecordsAtImages(ph: Physics, sim: SimulationData)
    ensures forall s :: s in Flatten(LaunchResolution(ph, sim).results) ==> IsImagePos(sim.colls, ShotPos(s))
  {
    var f := Pass(ph, sim);
    PassExtends(ph, sim);
    var shots := Flatten(f.results);
    forall s | s in shots
      ensures IsImagePos(sim.colls, ShotPos(s))
    {
      var i :| 0 <= i < |shots| && shots[i] == s;
    }
  }

  /** No image is marked taken in the input. */
  ghost predicate Fresh(colls: seq<Collection>) {
    forall j, k :: 0 <= j < |colls| && 0 <= k < |colls[j].images| ==> !colls[j].images[k].taken
  }

  /** On fresh input, every image of a collection the check keeps valid was
      written to the output: its position is among the records. */
  lemma KeptCollectionsShot(ph: Physics, sim: SimulationData, j: nat)
    requires Fresh(sim.colls)
    requires j < |sim.colls| && LaunchResolution(ph, sim).colls[j].isValid
    ensures forall k :: 0 <= k < |sim.colls[j].images| ==>
              PosOf(sim.colls[j].images[k]) in Positions(Flatten(LaunchResolution(ph, sim).results))
  {
    var f := Pass(ph, sim);
    PassExtends(ph, sim);
    var shots := Flatten(f.results);
    assert shots[0..] == shots;
    assert Complete(f.colls[j]);
    forall k | 0 <= k < |sim.colls[j].images|
      ensures PosOf(sim.colls[j].images[k]) in Positions(shots)
    {
      assert SameCollection(sim.colls[j], f.colls[j]);
      assert Flipped(sim.colls, f.colls, j, k);
    }
  }

  /** The lines of the output file: the counter, then the records of workers
      0 .. Workers - 1 in that order, one line each. */
  function OutputLines(r: Resolution): (lines: seq<string>)
    ensures |lines| == 1 + |Flatten(r.results)|
    ensures lines[0] == IntToString(r.nbPict)
    ensures forall i :: 0 <= i < |Flatten(r.results)| ==> lines[i + 1] == FormatShot(Flatten(r.results)[i])
  {
    var shots := Flatten(r.results);
    [IntToString(r.nbPict)] + seq(|shots|, i requires 0 <= i < |shots| => FormatShot(shots[i]))
  }
}
