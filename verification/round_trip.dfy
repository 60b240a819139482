/** The resolver's output file read back by the judge: when the input fits
    the judge's bounds, the file launchResolution writes passes the syntax
    check, getImagesTaken reads back exactly the positions it recorded, and
    the score counts every collection the resolver kept valid. */
module RoundTrip {
  import opened SimData
  import opened Text
  import opened NaiveResolver
  import opened PassProofs
  import opened Resolution
  import opened JudgeOutput
  import opened Feasibility

  /** The input keeps every record the resolver can write inside the judge's
      bounds and inside the range of `int`: images within the latitude and
      longitude bounds, turns and satellite indices and the picture count no
      larger than the largest `int`. */
  predicate Judgeable(sim: SimulationData) {
    && (forall j, k :: 0 <= j < |sim.colls| && 0 <= k < |sim.colls[j].images| ==>
          LaMin <= sim.colls[j].images[k].la <= LaMax && LoMin <= sim.colls[j].images[k].lo <= LoMax)
    && sim.duration <= IntMax + 1
    && |sim.sats| <= IntMax + 1
    && TotalImages(sim.colls) <= IntMax
  }

  /** A record the judge accepts and std::stoi reads back. */
  predicate Writable(s: Shot, sim: SimulationData) {
    InIntRange(s) && RecordInBounds(s, sim)
  }

  /** The lines of a file holding `shots`: their count, then one formatted
      record per line. The resolver ends every line with '\n' (std::endl
      after the count, '\n' after each record), so the judge opens its file
      as Open(lines, true). */
  predicate FileOf(lines: seq<string>, shots: seq<Shot>) {
    && |lines| == 1 + |shots|
    && lines[0] == IntToString(|shots|)
    && forall i :: 0 <= i < |shots| ==> lines[i + 1] == FormatShot(shots[i])
  }

  /** A record of the flattened results comes from one worker's result. */
  lemma {:induction false} FlattenMember(results: seq<seq<Shot>>, s: Shot)
    requires s in Flatten(results)
    ensures exists w :: 0 <= w < |results| && s in results[w]
  {
    var last := |results| - 1;
    if s !in results[last] {
      FlattenMember(results[..last], s);
      var w :| 0 <= w < last && s in results[..last][w];
      assert results[..last][w] == results[w];
    }
  }

  /** On judgeable input every record of the resolver is one the judge accepts. */
  lemma ResolverRecordsWritable(ph: Physics, sim: SimulationData)
    requires Judgeable(sim)
    ensures forall i :: 0 <= i < |Flatten(LaunchResolution(ph, sim).results)| ==>
              Writable(Flatten(LaunchResolution(ph, sim).results)[i], sim)
  {
    var shots := Flatten(LaunchResolution(ph, sim).results);
    RecordsAtImages(ph, sim);
    forall i | 0 <= i < |shots|
      ensures Writable(shots[i], sim)
    {
      ResolverShotRanges(ph, sim, shots[i]);
      ShotWritable(sim, shots[i]);
    }
  }

  /** A record of the resolver names a satellite and a turn of the simulation. */
  lemma ResolverShotRanges(ph: Physics, sim: SimulationData, s: Shot)
    requires s in Flatten(LaunchResolution(ph, sim).results)
    ensures 0 <= s.sat < |sim.sats| && 0 <= s.turn < sim.duration
  {
    var r := LaunchResolution(ph, sim);
    FlattenMember(r.results, s);
  }

  /** A record at an image position, by a satellite and at a turn of a
      judgeable simulation, is one the judge accepts. */
  lemma ShotWritable(sim: SimulationData, s: Shot)
    requires Judgeable(sim)
    requires IsImagePos(sim.colls, ShotPos(s))
    requires 0 <= s.sat < |sim.sats| && 0 <= s.turn < sim.duration
    ensures Writable(s, sim)
  {
    var j, k :| 0 <= j < |sim.colls| && 0 <= k < |sim.colls[j].images| && PosOf(sim.colls[j].images[k]) == ShotPos(s);
    assert LaMin <= s.la <= LaMax && LoMin <= s.lo <= LoMax;
  }

  /** No more lines match in a row than there are lines left. */
  lemma {:induction false} MatchingRunBound(pattern: string -> bool, lines: seq<string>, pos: nat)
    requires pos <= |lines|
    ensures MatchingRun(pattern, lines, pos) <= |lines| - pos
    decreases |lines| - pos
  {
    if pos < |lines| {
      MatchingRunBound(pattern, lines, pos + 1);
    }
  }

  /** The header of a file of at least one in-range record is a digit string
      std::stoi reads as the count. */
  lemma HeaderReads(lines: seq<string>, shots: seq<Shot>)
    requires FileOf(lines, shots)
    requires |shots| <= IntMax
    ensures IsDigitString(lines[0]) && DigitsValue(lines[0]) == |shots|
    ensures Stoi(lines[0]) == Some(|shots|)
  {
    StoiIntToString(|shots|);
  }

  /** A file of writable records fits the picture array and has the form the
      syntax check accepts, for any bound at least the number of records. */
  lemma FileAccepted(sim: SimulationData, shots: seq<Shot>, lines: seq<string>, nl: bool, bound: int)
    requires FileOf(lines, shots)
    requires 0 < |shots| <= bound && |shots| <= IntMax
    requires forall i :: 0 <= i < |shots| ==> Writable(shots[i], sim)
    ensures PictureArrayFits(Open(lines, nl))
    ensures SyntaxAccepts(bound, sim, lines)
  {
    HeaderReads(lines, shots);
    assert GetLine(Open(lines, nl), "") == (lines[0], Stream(lines, nl, 1, false));
    MatchingRunBound(LineMatches, lines, 1);
    forall i | 1 <= i < |lines|
      ensures LineMatches(lines[i]) && LineAccepted(sim, lines[i])
    {
      var s := shots[i - 1];
      assert lines[i] == FormatShot(s);
      FormatShotMatches(s);
      ParseFormatShot(s);
    }
  }

  /** The judge's syntax check, with the bound its documentation states,
      accepts what the resolver writes, whenever it wrote at least one record. */
  lemma OutputAccepted(ph: Physics, sim: SimulationData)
    requires Judgeable(sim)
    requires LaunchResolution(ph, sim).nbPict > 0
    ensures var lines := OutputLines(LaunchResolution(ph, sim));
            PictureArrayFits(Open(lines, true)) && IsValidSyntax(sim, Open(lines, true)) == Done(true, Open(lines, true))
  {
    var r := LaunchResolution(ph, sim);
    var shots := Flatten(r.results);
    var lines := OutputLines(r);
    PictureCountBound(ph, sim);
    ResolverRecordsWritable(ph, sim);
    FileAccepted(sim, shots, lines, true, TotalImages(sim.colls));
    SyntaxCheckAccepts(TotalImages(sim.colls), sim, lines, true);
  }

  /** A resolution without a single picture writes "0", which the syntax
      check rejects without throwing. */
  lemma EmptyOutputRejected(ph: Physics, sim: SimulationData)
    requires LaunchResolution(ph, sim).nbPict == 0
    ensures var lines := OutputLines(LaunchResolution(ph, sim));
            && PictureArrayFits(Open(lines, true))
            && IsValidSyntax(sim, Open(lines, true)).Done? && !IsValidSyntax(sim, Open(lines, true)).value
  {
    var lines := OutputLines(LaunchResolution(ph, sim));
    assert |lines| == 1;
    HeaderReads(lines, []);
    assert GetLine(Open(lines, true), "") == (lines[0], Stream(lines, true, 1, false));
    SyntaxCheckThrows(TotalImages(sim.colls), sim, lines, true);
    if IsValidSyntax(sim, Open(lines, true)) == Done(true, Open(lines, true)) {
      SyntaxCheckOnlyAccepts(TotalImages(sim.colls), sim, lines, true);
    }
  }

  /** getImagesTaken reads back exactly the positions of the records of a
      file of in-range records. */
  lemma FilePositions(shots: seq<Shot>, lines: seq<string>, nl: bool)
    requires FileOf(lines, shots)
    requires |shots| <= IntMax
    requires forall i :: 0 <= i < |shots| ==> InIntRange(shots[i])
    ensures GetImagesTaken(Open(lines, nl)) == Done(Positions(shots), Open(lines, nl))
  {
    HeaderReads(lines, shots);
    var n := |shots|;
    RecordsRead(lines, nl, n);
    forall k | 1 <= k <= n
      ensures ParsePositionLine(LineAt(lines, nl, k)) == Some(ShotPos(shots[k - 1]))
    {
      ParseFormatShot(shots[k - 1]);
      ParseShotGivesPosition(lines[k]);
    }
    GetImagesTakenMeaning(lines, nl, n);
    var r := GetImagesTaken(Open(lines, nl));
    assert r.value == Positions(shots) by {
      forall k | 0 <= k < n
        ensures r.value[k] == ShotPos(shots[k])
      {
        assert ParsePositionLine(LineAt(lines, nl, k + 1)) == Some(r.value[k]);
      }
    }
  }

  /** The judge reads back the positions of exactly the records the resolver
      wrote, and scores them. */
  lemma OutputScored(ph: Physics, sim: SimulationData)
    requires Judgeable(sim)
    ensures var r := LaunchResolution(ph, sim);
            var lines := OutputLines(r);
            && GetImagesTaken(Open(lines, true)) == Done(Positions(Flatten(r.results)), Open(lines, true))
            && GetScore(sim, Open(lines, true)) == Done(ScoreOf(sim.colls, Positions(Flatten(r.results))), Open(lines, true))
  {
    var r := LaunchResolution(ph, sim);
    PictureCountBound(ph, sim);
    ResolverRecordsWritable(ph, sim);
    FilePositions(Flatten(r.results), OutputLines(r), true);
  }

  /** getSat(arraySat, n, y) returns satellite y, whose id is y. */
  predicate SatellitesIndexed(ph: Physics, sim: SimulationData) {
    forall y :: 0 <= y < |sim.sats| ==> ph.getSat(sim.sats, y) == sim.sats[y] && sim.sats[y].id == y
  }

  /** getSatPosition(sat, t) aims where sat aims after t calls of moveSatelite. */
  ghost predicate PositionFollowsMoves(ph: Physics) {
    forall sat: Satellite, t: nat :: Aim(ph.positionAt(sat, t)) == Aim(MoveN(ph, sat, t))
  }

  /** A record in range of its satellite's track passes isValidImage with
      the satellite getSat returns. */
  lemma RecordInRange(ph: Physics, sim: SimulationData, s: Shot)
    requires ShotRecordInert(ph) && PositionFollowsMoves(ph) && SatellitesIndexed(ph, sim)
    requires Feasible(ph, sim.sats, s)
    ensures IsValidImage(ph, s.turn, RecordImage(s), ph.getSat(sim.sats, s.sat))
  {
    var sat := sim.sats[s.sat];
    assert Aim(ph.positionAt(sat, s.turn)) == Aim(MoveN(ph, sat, s.turn));
  }

  /** The physical check accepts the resolver's file when the judge's
      satellite positions follow the resolver's moves: every record names a
      satellite and is in range of it at its turn. */
  lemma OutputFeasible(ph: Physics, sim: SimulationData)
    requires Judgeable(sim)
    requires ShotRecordInert(ph) && PositionFollowsMoves(ph) && SatellitesIndexed(ph, sim)
    ensures var lines := OutputLines(LaunchResolution(ph, sim));
            IsValidImages(ph, sim, Open(lines, true)) == Done(true, Open(lines, true))
  {
    var r := LaunchResolution(ph, sim);
    var shots := Flatten(r.results);
    var lines := OutputLines(r);
    PictureCountBound(ph, sim);
    ResolverRecordsWritable(ph, sim);
    ResolutionFeasible(ph, sim);
    HeaderReads(lines, shots);
    RecordsRead(lines, true, |shots|);
    forall k | 1 <= k <= |shots|
      ensures NamesSatellite(sim, ParseShotLine, LineAt(lines, true, k))
      ensures LineInRange(ph, sim, ParseShotLine, LineAt(lines, true, k))
    {
      ParseFormatShot(shots[k - 1]);
      RecordInRange(ph, sim, shots[k - 1]);
    }
    ImagesCacheFaithful(ph, sim, lines, true);
  }

  /** The corrected isValidOutput accepts the resolver's file whenever the
      resolver took a picture and the judge's satellite positions follow the
      resolver's moves. */
  lemma OutputValid(ph: Physics, sim: SimulationData)
    requires Judgeable(sim) && LaunchResolution(ph, sim).nbPict > 0
    requires ShotRecordInert(ph) && PositionFollowsMoves(ph) && SatellitesIndexed(ph, sim)
    ensures var lines := OutputLines(LaunchResolution(ph, sim));
            && PictureArrayFits(Open(lines, true))
            && IsValidOutputCorrected(ph, sim, Open(lines, true)) == Done(true, Open(lines, true))
  {
    OutputAccepted(ph, sim);
    OutputFeasible(ph, sim);
  }

  /** The points of the collections marked in `kept`. */
  function KeptPoints(colls: seq<Collection>, kept: seq<bool>): int
    requires |kept| == |colls|
  {
    if |colls| == 0 then 0 else (if kept[0] then colls[0].nbPts else 0) + KeptPoints(colls[1..], kept[1..])
  }

  /** With non-negative points, the score is at least the points of any
      collections whose images were all taken. */
  lemma {:induction false} ScoreAtLeastKept(colls: seq<Collection>, kept: seq<bool>, images: seq<Position>)
    requires |kept| == |colls|
    requires forall j :: 0 <= j < |colls| ==> colls[j].nbPts >= 0
    requires forall j, k :: 0 <= j < |colls| && kept[j] && 0 <= k < |colls[j].images| ==>
               PosOf(colls[j].images[k]) in images
    ensures ScoreOf(colls, images) >= KeptPoints(colls, kept)
  {
    if |colls| > 0 {
      if kept[0] {
        assert AllContained(colls[0].images, images, 0) by {
          forall m | 0 <= m < |colls[0].images|
            ensures Contains(images, colls[0].images[m])
          {
          }
        }
      }
      assert forall j :: 0 <= j < |colls| - 1 ==> colls[1..][j] == colls[j + 1] && kept[1..][j] == kept[j + 1];
      ScoreAtLeastKept(colls[1..], kept[1..], images);
    }
  }

  /** Which collections a resolution keeps valid. */
  function KeptFlags(r: Resolution): (kept: seq<bool>)
    ensures |kept| == |r.colls|
    ensures forall j :: 0 <= j < |r.colls| ==> kept[j] == r.colls[j].isValid
  {
    seq(|r.colls|, j requires 0 <= j < |r.colls| => r.colls[j].isValid)
  }

  /** On fresh judgeable input with non-negative points, the score the judge
      gives the resolver's file is at least the points of the collections the
      resolver kept valid. */
  lemma OutputScoresKept(ph: Physics, sim: SimulationData)
    requires Judgeable(sim) && Fresh(sim.colls)
    requires forall j :: 0 <= j < |sim.colls| ==> sim.colls[j].nbPts >= 0
    ensures var r := LaunchResolution(ph, sim);
            var lines := OutputLines(r);
            GetScore(sim, Open(lines, true)).Done? && GetScore(sim, Open(lines, true)).value >= KeptPoints(sim.colls, KeptFlags(r))
  {
    var r := LaunchResolution(ph, sim);
    var images := Positions(Flatten(r.results));
    OutputScored(ph, sim);
    forall j | 0 <= j < |sim.colls| && KeptFlags(r)[j]
      ensures forall k :: 0 <= k < |sim.colls[j].images| ==> PosOf(sim.colls[j].images[k]) in images
    {
      KeptCollectionsShot(ph, sim, j);
    }
    ScoreAtLeastKept(sim.colls, KeptFlags(r), images);
  }

  /** Under the bound isValidSyntax is written with, a file the documented
      check accepts is rejected, without throwing, as soon as it declares
      more pictures than there are collections. */
  lemma AsWrittenRejectsCount(sim: SimulationData, lines: seq<string>, nl: bool)
    requires PictureArrayFits(Open(lines, nl))
    requires SyntaxAccepts(TotalImages(sim.colls), sim, lines)
    requires DigitsValue(lines[0]) > |sim.colls|
    ensures IsValidSyntax(sim, Open(lines, nl)) == Done(true, Open(lines, nl))
    ensures IsValidSyntaxAsWritten(sim, Open(lines, nl)).Done? && !IsValidSyntaxAsWritten(sim, Open(lines, nl)).value
  {
    SyntaxCheckAccepts(TotalImages(sim.colls), sim, lines, nl);
    SyntaxCheckThrows(|sim.colls|, sim, lines, nl);
    if IsValidSyntaxAsWritten(sim, Open(lines, nl)).Done? && IsValidSyntaxAsWritten(sim, Open(lines, nl)).value {
      SyntaxCheckOnlyAccepts(|sim.colls|, sim, lines, nl);
    }
  }

  /** The as-written checks reject the resolver's own output, without
      throwing, whenever it took more pictures than there are collections. */
  lemma ResolverOutputRejectedAsWritten(ph: Physics, sim: SimulationData)
    requires Judgeable(sim)
    requires LaunchResolution(ph, sim).nbPict > |sim.colls|
    ensures var lines := OutputLines(LaunchResolution(ph, sim));
            && PictureArrayFits(Open(lines, true))
            && IsValidSyntaxAsWritten(sim, Open(lines, true)).Done? && !IsValidSyntaxAsWritten(sim, Open(lines, true)).value
            && IsValidOutput(ph, sim, Open(lines, true)).Done? && !IsValidOutput(ph, sim, Open(lines, true)).value
  {
    var r := LaunchResolution(ph, sim);
    var shots := Flatten(r.results);
    var lines := OutputLines(r);
    PictureCountBound(ph, sim);
    ResolverRecordsWritable(ph, sim);
    FileAccepted(sim, shots, lines, true, TotalImages(sim.colls));
    HeaderReads(lines, shots);
    AsWrittenRejectsCount(sim, lines, true);
  }

  /** One collection of two images, one satellite, turns 0 and 1. */
  const WitnessSim: SimulationData :=
    SimulationData(1, [Satellite(0, 0, 0, 0, None, 0)],
                   [Collection(1, [Image(0, 0, false), Image(1, 1, false)], [TimeStamp(0, 1)], true)])

  /** Both images shot by satellite 0 at turn 0. */
  const WitnessShots: seq<Shot> := [Shot(0, 0, 0, 0), Shot(1, 1, 0, 0)]

  /** The file "2", "0 0 0 0", "1 1 0 0": the documented check accepts it;
      the as-written check rejects it, and so does isValidOutput as written,
      whatever the geometry. */
  lemma CountBoundWitness(ph: Physics)
    ensures var lines := [IntToString(2), FormatShot(WitnessShots[0]), FormatShot(WitnessShots[1])];
            && PictureArrayFits(Open(lines, true))
            && IsValidSyntax(WitnessSim, Open(lines, true)) == Done(true, Open(lines, true))
            && IsValidSyntaxAsWritten(WitnessSim, Open(lines, true)).Done?
            && !IsValidSyntaxAsWritten(WitnessSim, Open(lines, true)).value
            && IsValidOutput(ph, WitnessSim, Open(lines, true)).Done?
            && !IsValidOutput(ph, WitnessSim, Open(lines, true)).value
  {
    var lines := [IntToString(2), FormatShot(WitnessShots[0]), FormatShot(WitnessShots[1])];
    assert FileOf(lines, WitnessShots);
    assert TotalImages(WitnessSim.colls) == 2;
    FileAccepted(WitnessSim, WitnessShots, lines, true, 2);
    HeaderReads(lines, WitnessShots);
    AsWrittenRejectsCount(WitnessSim, lines, true);
  }
}
