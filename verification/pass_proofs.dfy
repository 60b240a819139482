/** What one greedy pass does, proved level by level (image, collection,
    turn, satellite, worker): flags are only set, each set flag is matched by
    exactly one appended record and one increment of nbPict, every newly
    taken image lies in a valid collection and its position is recorded,
    and records carry the right satellite and turn. */
module PassProofs {
  import opened SimData
  import opened Geometry
  import opened NaiveResolver

  function LedgerOf(st: State): Ledger {
    Ledger(st.colls, st.shots, st.nbPict)
  }

  /** Every image newly taken between a and b has its position among `added`. */
  ghost predicate Logged(a: seq<Collection>, b: seq<Collection>, added: seq<Shot>) {
    forall j, k :: Flipped(a, b, j, k) ==> PosOf(a[j].images[k]) in Positions(added)
  }

  /** p is the position of some image of some collection. */
  ghost predicate IsImagePos(colls: seq<Collection>, p: Position) {
    exists j, k :: 0 <= j < |colls| && 0 <= k < |colls[j].images| && PosOf(colls[j].images[k]) == p
  }

  /** Everything b adds to a: the collections keep their shape and flags are
      only set; a's records are kept and new ones appended; nbPict, the new
      records and the newly set flags agree in number; every newly set flag
      has its image's position among the new records, and every new record
      is at the position of an image. */
  ghost predicate Extends(a: Ledger, b: Ledger) {
    && Grows(a.colls, b.colls)
    && |a.shots| <= |b.shots| && b.shots[..|a.shots|] == a.shots
    && b.nbPict - a.nbPict == |b.shots| - |a.shots|
    && |b.shots| - |a.shots| == TakenCount(b.colls) - TakenCount(a.colls)
    && Logged(a.colls, b.colls, b.shots[|a.shots|..])
    && forall i :: |a.shots| <= i < |b.shots| ==> IsImagePos(a.colls, ShotPos(b.shots[i]))
  }

  lemma ImagePosSameShape(a: seq<Collection>, b: seq<Collection>, p: Position)
    requires SameShape(a, b) && IsImagePos(b, p)
    ensures IsImagePos(a, p)
  {
    var j, k :| 0 <= j < |b| && 0 <= k < |b[j].images| && PosOf(b[j].images[k]) == p;
    assert SameCollection(a[j], b[j]);
    assert PosOf(a[j].images[k]) == p;
  }

  /** Only images of valid collections are newly taken. */
  ghost predicate FlipsValid(a: seq<Collection>, b: seq<Collection>) {
    forall j, k :: Flipped(a, b, j, k) ==> a[j].isValid
  }

  /** Only images of collection j are newly taken. */
  ghost predicate FlipsOnlyIn(a: seq<Collection>, b: seq<Collection>, j: int) {
    forall j', k :: Flipped(a, b, j', k) ==> j' == j
  }

  /** Only images of valid collections whose window holds `turn` are newly taken. */
  ghost predicate FlipsInWindow(a: seq<Collection>, b: seq<Collection>, turn: int) {
    forall j, k :: Flipped(a, b, j, k) ==> a[j].isValid && InTimeStamp(turn, a[j])
  }

  /** The records from index `from` on are by satellite x at turns in [lo, hi). */
  ghost predicate ShotsWithin(shots: seq<Shot>, from: nat, x: int, lo: int, hi: int) {
    forall i :: from <= i < |shots| ==> shots[i].sat == x && lo <= shots[i].turn < hi
  }

  /** The records from index `from` on are ordered by satellite, then turn. */
  ghost predicate RecordsOrdered(shots: seq<Shot>, from: nat) {
    forall i, i' :: from <= i < i' < |shots| ==>
      shots[i].sat < shots[i'].sat || (shots[i].sat == shots[i'].sat && shots[i].turn <= shots[i'].turn)
  }

  lemma ExtendsRefl(a: Ledger)
    ensures Extends(a, a)
  {
    assert a.shots[..|a.shots|] == a.shots;
  }

  lemma SameShapeTrans(a: seq<Collection>, b: seq<Collection>, c: seq<Collection>)
    requires SameShape(a, b) && SameShape(b, c)
    ensures SameShape(a, c)
  {
    forall j | 0 <= j < |a|
      ensures SameCollection(a[j], c[j])
    {
      assert SameCollection(a[j], b[j]) && SameCollection(b[j], c[j]);
    }
  }

  /** A newly set flag between a and c was newly set in one of the two steps. */
  lemma FlippedSplit(a: seq<Collection>, b: seq<Collection>, c: seq<Collection>, j: int, k: int)
    requires SameShape(a, b) && SameShape(b, c)
    requires Flipped(a, c, j, k)
    ensures Flipped(a, b, j, k) || Flipped(b, c, j, k)
  {
    assert SameCollection(a[j], b[j]);
  }

  lemma ExtendsTrans(a: Ledger, b: Ledger, c: Ledger)
    requires Extends(a, b) && Extends(b, c)
    ensures Extends(a, c)
  {
    SameShapeTrans(a.colls, b.colls, c.colls);
    forall j | 0 <= j < |a.colls| && j < |c.colls|
      ensures KeepsTaken(a.colls[j], c.colls[j])
    {
      assert KeepsTaken(a.colls[j], b.colls[j]) && KeepsTaken(b.colls[j], c.colls[j]);
      assert SameCollection(a.colls[j], b.colls[j]);
    }
    assert c.shots[..|a.shots|] == a.shots by {
      assert c.shots[..|a.shots|] == c.shots[..|b.shots|][..|a.shots|];
    }
    var added := c.shots[|a.shots|..];
    assert added == b.shots[|a.shots|..] + c.shots[|b.shots|..];
    PositionsAppend(b.shots[|a.shots|..], c.shots[|b.shots|..]);
    forall j, k | Flipped(a.colls, c.colls, j, k)
      ensures PosOf(a.colls[j].images[k]) in Positions(added)
    {
      FlippedSplit(a.colls, b.colls, c.colls, j, k);
      if !Flipped(a.colls, b.colls, j, k) {
        assert SameCollection(a.colls[j], b.colls[j]);
      }
    }
    forall i | |a.shots| <= i < |c.shots|
      ensures IsImagePos(a.colls, ShotPos(c.shots[i]))
    {
      if i < |b.shots| {
        assert c.shots[i] == c.shots[..|b.shots|][i];
      } else {
        ImagePosSameShape(a.colls, b.colls, ShotPos(c.shots[i]));
      }
    }
  }

  lemma FlipsValidTrans(a: seq<Collection>, b: seq<Collection>, c: seq<Collection>)
    requires SameShape(a, b) && SameShape(b, c)
    requires FlipsValid(a, b) && FlipsValid(b, c)
    ensures FlipsValid(a, c)
  {
    forall j, k | Flipped(a, c, j, k)
      ensures a[j].isValid
    {
      FlippedSplit(a, b, c, j, k);
      assert SameCollection(a[j], b[j]);
    }
  }

  lemma ShotsWithinJoin(a: seq<Shot>, b: seq<Shot>, from: nat, x: int,
                        lo1: int, hi1: int, lo2: int, hi2: int, lo: int, hi: int)
    requires from <= |a| <= |b| && b[..|a|] == a
    requires ShotsWithin(a, from, x, lo1, hi1) && ShotsWithin(b, |a|, x, lo2, hi2)
    requires lo <= lo1 && lo <= lo2 && hi1 <= hi && hi2 <= hi
    ensures ShotsWithin(b, from, x, lo, hi)
  {
    forall i | from <= i < |a|
      ensures b[i] == a[i]
    {
      assert b[i] == b[..|a|][i];
    }
  }

  /** The records of one turn followed by those of later turns, all by one
      satellite, stay in turn order. */
  lemma TurnsOrderedJoin(a: seq<Shot>, b: seq<Shot>, from: nat, x: int, turn: int)
    requires from <= |a| <= |b| && b[..|a|] == a
    requires ShotsWithin(a, from, x, turn, turn + 1)
    requires forall i :: |a| <= i < |b| ==> b[i].sat == x && b[i].turn > turn
    requires RecordsOrdered(b, |a|)
    ensures RecordsOrdered(b, from)
  {
    forall i | from <= i < |a|
      ensures b[i] == a[i]
    {
      assert b[i] == b[..|a|][i];
    }
  }

  /** The records of satellite x followed by those of higher satellites stay
      in satellite order. */
  lemma SatsOrderedJoin(a: seq<Shot>, b: seq<Shot>, from: nat, x: int)
    requires from <= |a| <= |b| && b[..|a|] == a
    requires forall i :: from <= i < |a| ==> a[i].sat == x
    requires forall i :: |a| <= i < |b| ==> b[i].sat > x
    requires RecordsOrdered(a, from) && RecordsOrdered(b, |a|)
    ensures RecordsOrdered(b, from)
  {
    forall i | from <= i < |a|
      ensures b[i] == a[i]
    {
      assert b[i] == b[..|a|][i];
    }
  }

  lemma FlipsOnlyInTrans(a: seq<Collection>, b: seq<Collection>, c: seq<Collection>, j: int)
    requires SameShape(a, b) && SameShape(b, c)
    requires FlipsOnlyIn(a, b, j) && FlipsOnlyIn(b, c, j)
    ensures FlipsOnlyIn(a, c, j)
  {
    forall j', k | Flipped(a, c, j', k)
      ensures j' == j
    {
      FlippedSplit(a, b, c, j', k);
    }
  }

  lemma FlipsOnlyInWindow(a: seq<Collection>, b: seq<Collection>, j: int, turn: int)
    requires 0 <= j < |a| && a[j].isValid && InTimeStamp(turn, a[j])
    requires FlipsOnlyIn(a, b, j)
    ensures FlipsInWindow(a, b, turn)
  {
  }

  lemma FlipsInWindowTrans(a: seq<Collection>, b: seq<Collection>, c: seq<Collection>, turn: int)
    requires SameShape(a, b) && SameShape(b, c)
    requires FlipsInWindow(a, b, turn) && FlipsInWindow(b, c, turn)
    ensures FlipsInWindow(a, c, turn)
  {
    forall j, k | Flipped(a, c, j, k)
      ensures a[j].isValid && InTimeStamp(turn, a[j])
    {
      FlippedSplit(a, b, c, j, k);
      assert SameCollection(a[j], b[j]);
    }
  }

  lemma FlipsInWindowValid(a: seq<Collection>, b: seq<Collection>, turn: int)
    requires FlipsInWindow(a, b, turn)
    ensures FlipsValid(a, b)
  {
  }

  /** A capture is one appended record, one increment and one set flag. */
  lemma TryImageExtends(ph: Physics, x: nat, turn: int, j: nat, k: nat, st: State)
    requires j < |st.colls| && k < |st.colls[j].images|
    ensures var r := TryImage(ph, x, turn, j, k, st);
            && Extends(LedgerOf(st), LedgerOf(r))
            && ShotsWithin(r.shots, |st.shots|, x, turn, turn + 1)
            && FlipsOnlyIn(st.colls, r.colls, j)
  {
    var r := TryImage(ph, x, turn, j, k, st);
    var c := st.colls[j];
    var im := c.images[k];
    if CanShoot(ph, st.sat, im, turn) {
      TakenInMark(c.images, k);
      TakenCountUpdate(st.colls, j, c.(images := c.images[k := im.(taken := true)]));
      assert r.shots[..|st.shots|] == st.shots;
      assert r.shots[|st.shots|..] == [Shot(im.la, im.lo, turn, x)];
      assert Positions([Shot(im.la, im.lo, turn, x)])[0] == PosOf(im);
      assert r.shots[|st.shots|] == Shot(im.la, im.lo, turn, x);
      assert PosOf(st.colls[j].images[k]) == ShotPos(r.shots[|st.shots|]);
    } else {
      ExtendsRefl(LedgerOf(st));
    }
  }

  /** The image loop of one collection at one turn. */
  lemma {:induction false} ShootImagesExtends(ph: Physics, x: nat, turn: int, j: nat, k: nat, st: State)
    requires j < |st.colls| && k <= |st.colls[j].images|
    ensures var r := ShootImages(ph, x, turn, j, k, st);
            && Extends(LedgerOf(st), LedgerOf(r))
            && ShotsWithin(r.shots, |st.shots|, x, turn, turn + 1)
            && FlipsOnlyIn(st.colls, r.colls, j)
    decreases |st.colls[j].images| - k
  {
    if k == |st.colls[j].images| {
      ExtendsRefl(LedgerOf(st));
    } else {
      var st1 := TryImage(ph, x, turn, j, k, st);
      var r := ShootImages(ph, x, turn, j, k + 1, st1);
      TryImageExtends(ph, x, turn, j, k, st);
      ShootImagesExtends(ph, x, turn, j, k + 1, st1);
      ExtendsTrans(LedgerOf(st), LedgerOf(st1), LedgerOf(r));
      ShotsWithinJoin(st1.shots, r.shots, |st.shots|, x, turn, turn + 1, turn, turn + 1, turn, turn + 1);
      FlipsOnlyInTrans(st.colls, st1.colls, r.colls, j);
    }
  }

  /** The collection loop at one turn: only valid collections whose window
      holds the turn gain taken images. */
  lemma {:induction false} ShootCollectionsExtends(ph: Physics, x: nat, turn: int, j: nat, st: State)
    requires j <= |st.colls|
    ensures var r := ShootCollections(ph, x, turn, j, st);
            && Extends(LedgerOf(st), LedgerOf(r))
            && ShotsWithin(r.shots, |st.shots|, x, turn, turn + 1)
            && FlipsInWindow(st.colls, r.colls, turn)
    decreases |st.colls| - j
  {
    if j == |st.colls| {
      ExtendsRefl(LedgerOf(st));
    } else {
      var c := st.colls[j];
      var next := if c.isValid && InTimeStamp(turn, c) then ShootImages(ph, x, turn, j, 0, st) else st;
      var r := ShootCollections(ph, x, turn, j + 1, next);
      CollectionStep(ph, x, turn, j, st);
      ShootCollectionsExtends(ph, x, turn, j + 1, next);
      ExtendsTrans(LedgerOf(st), LedgerOf(next), LedgerOf(r));
      ShotsWithinJoin(next.shots, r.shots, |st.shots|, x, turn, turn + 1, turn, turn + 1, turn, turn + 1);
      FlipsInWindowTrans(st.colls, next.colls, r.colls, turn);
    }
  }

  /** One step of the collection loop: collection j is scanned only when it
      is valid and its window holds the turn. */
  lemma CollectionStep(ph: Physics, x: nat, turn: int, j: nat, st: State)
    requires j < |st.colls|
    ensures var c := st.colls[j];
            var next := if c.isValid && InTimeStamp(turn, c) then ShootImages(ph, x, turn, j, 0, st) else st;
            && Extends(LedgerOf(st), LedgerOf(next))
            && ShotsWithin(next.shots, |st.shots|, x, turn, turn + 1)
            && FlipsInWindow(st.colls, next.colls, turn)
  {
    var c := st.colls[j];
    if c.isValid && InTimeStamp(turn, c) {
      ShootImagesExtends(ph, x, turn, j, 0, st);
      FlipsOnlyInWindow(st.colls, ShootImages(ph, x, turn, j, 0, st).colls, j, turn);
    } else {
      ExtendsRefl(LedgerOf(st));
    }
  }

  /** The turn loop of one satellite: records of satellite x at turns in
      [turn, maxTurns), in ascending turn order. */
  lemma {:induction false} TurnsExtends(ph: Physics, x: nat, turn: int, maxTurns: int, st: State)
    ensures var r := Turns(ph, x, turn, maxTurns, st);
            && Extends(LedgerOf(st), LedgerOf(r))
            && ShotsWithin(r.shots, |st.shots|, x, turn, maxTurns)
            && RecordsOrdered(r.shots, |st.shots|)
            && FlipsValid(st.colls, r.colls)
    decreases maxTurns - turn
  {
    if turn >= maxTurns {
      ExtendsRefl(LedgerOf(st));
    } else {
      var after := ShootCollections(ph, x, turn, 0, st);
      var moved := after.(sat := ph.move(after.sat));
      var r := Turns(ph, x, turn + 1, maxTurns, moved);
      ShootCollectionsExtends(ph, x, turn, 0, st);
      TurnsExtends(ph, x, turn + 1, maxTurns, moved);
      assert LedgerOf(moved) == LedgerOf(after);
      ExtendsTrans(LedgerOf(st), LedgerOf(after), LedgerOf(r));
      ShotsWithinJoin(after.shots, r.shots, |st.shots|, x, turn, turn + 1, turn + 1, maxTurns, turn, maxTurns);
      TurnsOrderedJoin(after.shots, r.shots, |st.shots|, x, turn);
      FlipsInWindowValid(st.colls, after.colls, turn);
      FlipsValidTrans(st.colls, after.colls, r.colls);
    }
  }

  /** One worker over its satellites xs, in order. */
  lemma {:induction false} RunSatellitesExtends(ph: Physics, xs: seq<nat>, sats: seq<Satellite>, maxTurns: int, l: Ledger)
    requires forall a :: 0 <= a < |xs| ==> xs[a] < |sats|
    requires forall a, b :: 0 <= a < b < |xs| ==> xs[a] < xs[b]
    ensures var r := RunSatellites(ph, xs, sats, maxTurns, l);
            && Extends(l, r)
            && (forall i :: |l.shots| <= i < |r.shots| ==> r.shots[i].sat in xs && 0 <= r.shots[i].turn < maxTurns)
            && RecordsOrdered(r.shots, |l.shots|)
            && FlipsValid(l.colls, r.colls)
    decreases |xs|
  {
    if |xs| == 0 {
      ExtendsRefl(l);
    } else {
      var x := xs[0];
      var st0 := State(sats[x], l.colls, l.shots, l.nbPict);
      var st := Turns(ph, x, 0, maxTurns, st0);
      var l1 := Ledger(st.colls, st.shots, st.nbPict);
      var r := RunSatellites(ph, xs[1..], sats, maxTurns, l1);
      TurnsExtends(ph, x, 0, maxTurns, st0);
      RunSatellitesExtends(ph, xs[1..], sats, maxTurns, l1);
      assert LedgerOf(st0) == l;
      ExtendsTrans(l, l1, r);
      FlipsValidTrans(l.colls, l1.colls, r.colls);
      LaterSatellites(xs, r.shots, |l1.shots|);
      SatsOrderedJoin(l1.shots, r.shots, |l.shots|, x);
      SatellitesJoin(l1.shots, r.shots, |l.shots|, xs, maxTurns);
    }
  }

  /** The records of the satellites after the first of an ascending list are
      by higher satellites. */
  lemma LaterSatellites(xs: seq<nat>, shots: seq<Shot>, from: nat)
    requires |xs| > 0
    requires forall a, b :: 0 <= a < b < |xs| ==> xs[a] < xs[b]
    requires forall i :: from <= i < |shots| ==> shots[i].sat in xs[1..]
    ensures forall i :: from <= i < |shots| ==> shots[i].sat in xs && shots[i].sat > xs[0]
  {
    forall i | from <= i < |shots|
      ensures shots[i].sat in xs && shots[i].sat > xs[0]
    {
      var a :| 0 <= a < |xs[1..]| && xs[1..][a] == shots[i].sat;
      assert xs[a + 1] == shots[i].sat;
    }
  }

  lemma SatellitesJoin(a: seq<Shot>, b: seq<Shot>, from: nat, xs: seq<nat>, maxTurns: int)
    requires |xs| > 0 && from <= |a| <= |b| && b[..|a|] == a
    requires ShotsWithin(a, from, xs[0], 0, maxTurns)
    requires forall i :: |a| <= i < |b| ==> b[i].sat in xs && 0 <= b[i].turn < maxTurns
    ensures forall i :: from <= i < |b| ==> b[i].sat in xs && 0 <= b[i].turn < maxTurns
  {
    forall i | from <= i < |a|
      ensures b[i] == a[i]
    {
      assert b[i] == b[..|a|][i];
    }
  }

  /** threadResolv(i, n): a new result list whose records are all by
      satellites i, i + n, ... at turns in [0, duration), grouped by satellite
      in ascending order. */
  lemma ThreadResolvExtends(ph: Physics, i: nat, n: nat, sim: SimulationData, colls: seq<Collection>, nbPict: int)
    requires n > 0
    ensures var r := ThreadResolv(ph, i, n, sim, colls, nbPict);
            && Extends(Ledger(colls, [], nbPict), r)
            && (forall s :: s in r.shots ==> OnStride(s.sat, i, n) && s.sat < |sim.sats| && 0 <= s.turn < sim.duration)
            && RecordsOrdered(r.shots, 0)
            && FlipsValid(colls, r.colls)
  {
    var xs := VisitOrder(i, n, |sim.sats|);
    RunSatellitesExtends(ph, xs, sim.sats, sim.duration, Ledger(colls, [], nbPict));
  }

  /** Extends does not depend on what precedes the new records. */
  lemma ExtendsShift(c: seq<Collection>, c': seq<Collection>, w: seq<Shot>, n: int, n': int, p: seq<Shot>)
    requires Extends(Ledger(c, [], n), Ledger(c', w, n'))
    ensures Extends(Ledger(c, p, n), Ledger(c', p + w, n'))
  {
    assert (p + w)[..|p|] == p;
    assert (p + w)[|p|..] == w;
    assert w[0..] == w;
  }

  /** Worker results and their properties, one per worker index. */
  ghost predicate WorkerResult(shots: seq<Shot>, w: nat, n: nat, sim: SimulationData)
    requires n > 0
  {
    && (forall s :: s in shots ==> OnStride(s.sat, w, n) && s.sat < |sim.sats| && 0 <= s.turn < sim.duration)
    && RecordsOrdered(shots, 0)
  }

  lemma {:induction false} RunWorkersExtends(ph: Physics, sim: SimulationData, i: nat, n: nat, f: Fanout)
    requires 0 < n && i <= n
    requires |f.results| == i
    ensures var r := RunWorkers(ph, sim, i, n, f);
            && Extends(Ledger(f.colls, Flatten(f.results), f.nbPict), Ledger(r.colls, Flatten(r.results), r.nbPict))
            && FlipsValid(f.colls, r.colls)
            && r.results[..i] == f.results
            && (forall w :: i <= w < n ==> WorkerResult(r.results[w], w, n, sim))
    decreases n - i
  {
    var r := RunWorkers(ph, sim, i, n, f);
    if i == n {
      ExtendsRefl(Ledger(f.colls, Flatten(f.results), f.nbPict));
      assert r.results[..i] == f.results;
    } else {
      var w := ThreadResolv(ph, i, n, sim, f.colls, f.nbPict);
      var f1 := Fanout(w.colls, f.results + [w.shots], w.nbPict);
      ThreadResolvExtends(ph, i, n, sim, f.colls, f.nbPict);
      RunWorkersExtends(ph, sim, i + 1, n, f1);
      ExtendsShift(f.colls, w.colls, w.shots, f.nbPict, w.nbPict, Flatten(f.results));
      assert Flatten(f1.results) == Flatten(f.results) + w.shots by {
        assert f1.results[..|f1.results| - 1] == f.results;
      }
      ExtendsTrans(Ledger(f.colls, Flatten(f.results), f.nbPict), Ledger(f1.colls, Flatten(f1.results), f1.nbPict),
                   Ledger(r.colls, Flatten(r.results), r.nbPict));
      FlipsValidTrans(f.colls, w.colls, r.colls);
      assert r.results[..i + 1] == f1.results;
      assert r.results[..i] == f.results by {
        assert r.results[..i] == r.results[..i + 1][..i];
      }
      assert r.results[i] == w.shots by {
        assert r.results[i] == r.results[..i + 1][i];
      }
    }
  }
}
