/** The shot-list judge of JudgeOutput.cpp: a syntax and range check of the
    output file, a physical check of every shot, the extraction of the taken
    positions and the all-or-nothing score. The file is read line by line
    through a `Stream` that models std::getline's cursor, its fail state and
    the rewinds (clear + seekg(0)); every reader returns the stream it leaves
    behind, and an exception that escapes a reader is the outcome `Thrown`. */
module JudgeOutput {
  import opened SimData
  import opened Text

  /** The output file as its lines, whether it ends with '\n', the read
      position and the fail state. The lines are the pieces between the
      '\n's, without the empty piece after a final '\n': a file that does
      not end with '\n' has a non-empty last line or no line at all. */
  datatype Stream = Stream(lines: seq<string>, newlineAtEnd: bool, pos: nat, failed: bool)

  /** A reader's result and the stream it leaves, or an escaped exception. */
  datatype Outcome<T> = Done(value: T, rest: Stream) | Thrown

  /** The stream as the judge's constructor opens it. */
  function Open(lines: seq<string>, newlineAtEnd: bool): Stream {
    Stream(lines, newlineAtEnd, 0, false)
  }

  /** clear() then seekg(0). */
  function Rewind(st: Stream): Stream {
    Open(st.lines, st.newlineAtEnd)
  }

  /** std::getline into a variable holding `prev`: the next line. A read
      that finds nothing left fails; it empties the variable, unless the
      previous read already hit the end of a file without a final '\n'
      (eofbit), in which case it leaves the variable as it was. A failed
      stream reads nothing and leaves the variable as it was. */
  function GetLine(st: Stream, prev: string): (r: (string, Stream))
    ensures r.1.lines == st.lines && r.1.newlineAtEnd == st.newlineAtEnd
    ensures r.1.failed <==> st.failed || st.pos >= |st.lines|
    ensures !r.1.failed ==> r == (st.lines[st.pos], st.(pos := st.pos + 1))
  {
    if st.failed then (prev, st)
    else if st.pos < |st.lines| then (st.lines[st.pos], st.(pos := st.pos + 1))
    else if |st.lines| > 0 && !st.newlineAtEnd then (prev, st.(failed := true))
    else ("", st.(failed := true))
  }

  /** What the variable holds after k + 1 reads from the start of the file:
      line k; past the end, the empty string when the file ends with '\n'
      (or is empty), and otherwise the last line once more. */
  function LineAt(lines: seq<string>, newlineAtEnd: bool, k: nat): string {
    if k < |lines| then lines[k]
    else if newlineAtEnd || |lines| == 0 then ""
    else lines[|lines| - 1]
  }

  /** The stream after k reads from the start of the file. */
  function Cursor(lines: seq<string>, newlineAtEnd: bool, k: nat): Stream {
    if k <= |lines| then Stream(lines, newlineAtEnd, k, false) else Stream(lines, newlineAtEnd, |lines|, true)
  }

  /** Read k + 1 of a file, into the variable the earlier reads left behind,
      yields LineAt(k); reads past the end keep yielding it. */
  lemma ReadAt(lines: seq<string>, newlineAtEnd: bool, k: nat, prev: string)
    requires prev == if k == 0 then "" else LineAt(lines, newlineAtEnd, k - 1)
    ensures GetLine(Cursor(lines, newlineAtEnd, k), prev)
            == (LineAt(lines, newlineAtEnd, k), Cursor(lines, newlineAtEnd, k + 1))
    ensures k >= |lines| ==> LineAt(lines, newlineAtEnd, k + 1) == LineAt(lines, newlineAtEnd, k)
  {
  }

  // Bounds of a shot record, in arcseconds.
  const LaMin: int := -306000
  const LaMax: int := 306000
  const LoMin: int := -648000
  const LoMax: int := 647999

  /** The range test of isValidSyntax on one parsed record. */
  predicate RecordInBounds(s: Shot, sim: SimulationData) {
    && LaMin <= s.la <= LaMax
    && LoMin <= s.lo <= LoMax
    && 0 <= s.turn <= sim.duration
    && 0 <= s.sat && s.sat + 1 <= |sim.sats|
  }

  /** One stored line passes the semantic loop: it parses and is in bounds. */
  predicate LineAccepted(sim: SimulationData, line: string) {
    var s := ParseShotLine(line);
    s.Some? && RecordInBounds(s.value, sim)
  }

  /** The number of consecutive lines from `pos` on that match `pattern`:
      how many the read loop of isValidSyntax would store. */
  function MatchingRun(pattern: string -> bool, lines: seq<string>, pos: nat): nat
    decreases |lines| - pos
  {
    if pos < |lines| && pattern(lines[pos]) then 1 + MatchingRun(pattern, lines, pos + 1) else 0
  }

  /** The header isValidSyntax would read from st, when it is a digit string
      that std::stoi accepts. */
  function DeclaredCount(st: Stream): Option<int> {
    var h := GetLine(st, "").0;
    if IsDigitString(h) then Stoi(h) else None
  }

  /** The picture array holds every line the read loop stores: no more lines
      match in a row after the header than the header declares. */
  predicate PictureArrayFits(st: Stream) {
    var n := DeclaredCount(st);
    var st1 := GetLine(st, "").1;
    n.Some? && !st1.failed ==> MatchingRun(LineMatches, st1.lines, st1.pos) <= n.value
  }

  /** The read loop `while (getline(...))` of isValidSyntax: stores the lines
      matching `pattern` (the judge passes LineMatches) in `stored` and stops
      at the end of the file (true) or at the first line that does not match
      (false). It never stores more lines than the declared count allows. */
  function ReadPictures(pattern: string -> bool, st: Stream, line: string, n: int, stored: seq<string>)
    : (r: (bool, Stream, seq<string>))
    requires !st.failed ==> |stored| + MatchingRun(pattern, st.lines, st.pos) <= n
    ensures r.1.lines == st.lines && r.1.newlineAtEnd == st.newlineAtEnd
    ensures |r.2| <= n || (st.failed && r.2 == stored)
    decreases if st.failed then 0 else 1 + |st.lines| - st.pos
  {
    var (l, st1) := GetLine(st, line);
    if st1.failed then (true, st1, stored)
    else if !pattern(l) then (false, st1, stored)
    else
      assert MatchingRun(pattern, st.lines, st.pos) == 1 + MatchingRun(pattern, st.lines, st.pos + 1);
      ReadPictures(pattern, st1, l, n, stored + [l])
  }

  /** The read loop reaches the end of the file exactly when every remaining
      line matches. */
  lemma {:induction false} ReadPicturesMeaning(pattern: string -> bool, st: Stream, line: string, n: int,
                                               stored: seq<string>)
    requires !st.failed && st.pos <= |st.lines|
    requires |stored| + MatchingRun(pattern, st.lines, st.pos) <= n
    ensures ReadPictures(pattern, st, line, n, stored).0
            <==> forall i :: st.pos <= i < |st.lines| ==> pattern(st.lines[i])
    decreases |st.lines| - st.pos
  {
    if st.pos < |st.lines| {
      var l := st.lines[st.pos];
      if pattern(l) {
        assert MatchingRun(pattern, st.lines, st.pos) == 1 + MatchingRun(pattern, st.lines, st.pos + 1);
        ReadPicturesMeaning(pattern, st.(pos := st.pos + 1), l, n, stored + [l]);
      }
    }
  }

  /** When the read loop reaches the end of the file it has stored every
      remaining line, in order. */
  lemma {:induction false} ReadPicturesStores(pattern: string -> bool, st: Stream, line: string, n: int,
                                              stored: seq<string>)
    requires !st.failed && st.pos <= |st.lines|
    requires |stored| + MatchingRun(pattern, st.lines, st.pos) <= n
    ensures var r := ReadPictures(pattern, st, line, n, stored);
            r.0 ==> r.2 == stored + st.lines[st.pos..]
    decreases |st.lines| - st.pos
  {
    if st.pos < |st.lines| {
      var l := st.lines[st.pos];
      if pattern(l) {
        assert MatchingRun(pattern, st.lines, st.pos) == 1 + MatchingRun(pattern, st.lines, st.pos + 1);
        ReadPicturesStores(pattern, st.(pos := st.pos + 1), l, n, stored + [l]);
        assert st.lines[st.pos..] == [l] + st.lines[st.pos + 1..];
      }
    } else {
      assert st.lines[st.pos..] == [];
    }
  }

  /** pictureArray[i]: a stored line, or an empty string past the stored ones. */
  function PictureAt(stored: seq<string>, i: int): string {
    if 0 <= i < |stored| then stored[i] else ""
  }

  /** The semantic loop over pictureArray[i .. n - 1], stopping at the first
      rejected line. */
  function RecordsValid(sim: SimulationData, stored: seq<string>, i: int, n: int): (r: bool)
    ensures r <==> forall k :: i <= k < n ==> LineAccepted(sim, PictureAt(stored, k))
    decreases n - i
  {
    if i >= n then true
    else if !LineAccepted(sim, PictureAt(stored, i)) then false
    else RecordsValid(sim, stored, i + 1, n)
  }

  /** isValidSyntax with the upper bound on the declared count as a parameter.
      The stream is rewound only on acceptance. */
  function SyntaxCheck(bound: int, sim: SimulationData, st: Stream): (r: Outcome<bool>)
    requires PictureArrayFits(st)
    ensures r.Done? ==> r.rest.lines == st.lines && r.rest.newlineAtEnd == st.newlineAtEnd
    ensures r.Done? && r.value ==> r.rest == Rewind(st)
  {
    var (h, st1) := GetLine(st, "");
    if !IsDigitString(h) then Done(false, st1)
    else match Stoi(h)
      case None => Thrown
      case Some(n) =>
        var (ok, st2, stored) := ReadPictures(LineMatches, st1, h, n, []);
        if !ok then Done(false, st2)
        else if n > bound || n <= 0 then Done(false, st2)
        else if !RecordsValid(sim, stored, 0, n) then Done(false, st2)
        else Done(true, Rewind(st2))
  }

  /** isValidSyntax as written: the declared count is bounded by the number
      of collections. */
  function IsValidSyntaxAsWritten(sim: SimulationData, st: Stream): (r: Outcome<bool>)
    requires PictureArrayFits(st)
    ensures r.Done? && r.value ==> r.rest == Rewind(st)
  {
    SyntaxCheck(|sim.colls|, sim, st)
  }

  /** isValidSyntax as its documentation describes it: the declared count is
      bounded by the number of pictures of the input. */
  function IsValidSyntax(sim: SimulationData, st: Stream): (r: Outcome<bool>)
    requires PictureArrayFits(st)
    ensures r.Done? && r.value ==> r.rest == Rewind(st)
  {
    SyntaxCheck(TotalImages(sim.colls), sim, st)
  }

  /** What a fresh file must look like to pass the check: a header N with
      0 < N <= bound, then exactly N lines, each matching the grammar, parsing
      to four integers and within the bounds. */
  predicate SyntaxAccepts(bound: int, sim: SimulationData, lines: seq<string>) {
    && |lines| >= 1
    && IsDigitString(lines[0])
    && DigitsValue(lines[0]) <= IntMax
    && 0 < DigitsValue(lines[0]) <= bound
    && |lines| == DigitsValue(lines[0]) + 1
    && forall i :: 1 <= i < |lines| ==> LineMatches(lines[i]) && LineAccepted(sim, lines[i])
  }

  /** The header of a fresh file is a digit string too large for std::stoi. */
  predicate HeaderOverflows(lines: seq<string>) {
    |lines| >= 1 && IsDigitString(lines[0]) && DigitsValue(lines[0]) > IntMax
  }

  /** On a fresh file the syntax check throws exactly when the header is a
      digit string std::stoi cannot hold. Allocating the picture array
      never fails in the model. */
  lemma SyntaxCheckThrows(bound: int, sim: SimulationData, lines: seq<string>, nl: bool)
    requires PictureArrayFits(Open(lines, nl))
    ensures SyntaxCheck(bound, sim, Open(lines, nl)).Thrown? <==> HeaderOverflows(lines)
  {
    if |lines| == 0 {
      assert GetLine(Open(lines, nl), "").0 == "";
    } else {
      assert GetLine(Open(lines, nl), "").0 == lines[0];
    }
  }

  /** Every file SyntaxAccepts describes passes the check, which rewinds. */
  lemma SyntaxCheckAccepts(bound: int, sim: SimulationData, lines: seq<string>, nl: bool)
    requires PictureArrayFits(Open(lines, nl))
    requires SyntaxAccepts(bound, sim, lines)
    ensures SyntaxCheck(bound, sim, Open(lines, nl)) == Done(true, Open(lines, nl))
  {
    var n := DigitsValue(lines[0]);
    var st1 := Stream(lines, nl, 1, false);
    assert GetLine(Open(lines, nl), "") == (lines[0], st1);
    var (ok, st2, stored) := ReadPictures(LineMatches, st1, lines[0], n, []);
    ReadPicturesMeaning(LineMatches, st1, lines[0], n, []);
    ReadPicturesStores(LineMatches, st1, lines[0], n, []);
    assert stored == lines[1..];
    forall k | 0 <= k < n
      ensures LineAccepted(sim, PictureAt(stored, k))
    {
      assert PictureAt(stored, k) == lines[k + 1];
    }
    assert Stoi(lines[0]) == Some(n);
    assert ok && RecordsValid(sim, stored, 0, n);
    assert Rewind(st2) == Open(lines, nl);
  }

  /** Every file that passes the check is one SyntaxAccepts describes. */
  lemma SyntaxCheckOnlyAccepts(bound: int, sim: SimulationData, lines: seq<string>, nl: bool)
    requires PictureArrayFits(Open(lines, nl))
    requires SyntaxCheck(bound, sim, Open(lines, nl)).Done? && SyntaxCheck(bound, sim, Open(lines, nl)).value
    ensures SyntaxAccepts(bound, sim, lines)
  {
    assert |lines| > 0;
    var n := DigitsValue(lines[0]);
    var st1 := Stream(lines, nl, 1, false);
    assert GetLine(Open(lines, nl), "") == (lines[0], st1);
    var (ok, st2, stored) := ReadPictures(LineMatches, st1, lines[0], n, []);
    ReadPicturesMeaning(LineMatches, st1, lines[0], n, []);
    ReadPicturesStores(LineMatches, st1, lines[0], n, []);
    assert ok && RecordsValid(sim, stored, 0, n);
    assert stored == lines[1..];
    assert |lines| == n + 1 by {
      if |lines| < n + 1 {
        assert LineAccepted(sim, PictureAt(stored, |stored|));
        ParseEmptyLine();
      }
    }
    forall i | 1 <= i < |lines|
      ensures LineAccepted(sim, lines[i])
    {
      assert PictureAt(stored, i - 1) == lines[i];
    }
  }

  /** isValidImage: the image is in range of the satellite's position at turn t. */
  predicate IsValidImage(ph: Physics, t: int, img: Image, sat: Satellite) {
    ph.inRange(ph.positionAt(sat, t), img)
  }

  /** `new Satelite()` with id -1: the cache of isValidImages before the first record. */
  const Blank: Satellite := Satellite(-1, 0, 0, 0, None, 0)

  /** The image a record names, as the judge builds it. */
  function RecordImage(s: Shot): Image {
    Image(s.la, s.lo, false)
  }

  /** The loop of isValidImages over records i .. n - 1. The satellite is
      looked up again only when the record's id differs from the cached one;
      the loop stops at the first record out of range; a field std::stoi
      rejects escapes as an exception. `parse` reads one record; the judge
      passes ParseShotLine. */
  function ImagesLoop(ph: Physics, sim: SimulationData, parse: string -> Option<Shot>,
                      st: Stream, line: string, cache: Satellite, i: int, n: int): (r: Outcome<bool>)
    ensures r.Done? ==> r.rest == Rewind(st)
    decreases n - i
  {
    if i >= n then Done(true, Rewind(st))
    else
      var (l, st1) := GetLine(st, line);
      match parse(l)
      case None => Thrown
      case Some(s) =>
        var sat := if cache.id != s.sat then ph.getSat(sim.sats, s.sat) else cache;
        if !IsValidImage(ph, s.turn, RecordImage(s), sat) then Done(false, Rewind(st1))
        else ImagesLoop(ph, sim, parse, st1, l, sat, i + 1, n)
  }

  /** isValidImages: reads the header, checks that many records, rewinds. */
  function IsValidImages(ph: Physics, sim: SimulationData, st: Stream): (r: Outcome<bool>)
    ensures r.Done? ==> r.rest == Rewind(st)
  {
    var (h, st1) := GetLine(st, "");
    match Stoi(h)
    case None => Thrown
    case Some(n) => ImagesLoop(ph, sim, ParseShotLine, st1, h, Blank, 0, n)
  }

  /** A record line parses and its image is in range of the satellite it
      names, looked up afresh. */
  predicate LineInRange(ph: Physics, sim: SimulationData, parse: string -> Option<Shot>, line: string) {
    var s := parse(line);
    s.Some? && IsValidImage(ph, s.value.turn, RecordImage(s.value), ph.getSat(sim.sats, s.value.sat))
  }

  /** getSat returns the satellite with the id it is asked for. */
  predicate IdFaithful(ph: Physics, sim: SimulationData) {
    forall y :: 0 <= y < |sim.sats| ==> ph.getSat(sim.sats, y).id == y
  }

  /** A record line parses and names a satellite of the simulation. */
  predicate NamesSatellite(sim: SimulationData, parse: string -> Option<Shot>, line: string) {
    var s := parse(line);
    s.Some? && 0 <= s.value.sat < |sim.sats|
  }

  /** The cached loop agrees with looking the satellite up for every record:
      from read i + 1 on, it accepts exactly when each record up to the n-th
      is in range. Past the end of the file the records are what the reads
      leave in the variable. */
  lemma {:induction false} ImagesLoopFaithful(ph: Physics, sim: SimulationData, parse: string -> Option<Shot>,
                                              lines: seq<string>, nl: bool, cache: Satellite, i: nat, n: int)
    requires IdFaithful(ph, sim)
    requires cache == Blank || cache == ph.getSat(sim.sats, cache.id)
    requires forall k :: i + 1 <= k <= n ==> NamesSatellite(sim, parse, LineAt(lines, nl, k))
    ensures ImagesLoop(ph, sim, parse, Cursor(lines, nl, i + 1), LineAt(lines, nl, i), cache, i, n)
            == Done(forall k :: i + 1 <= k <= n ==> LineInRange(ph, sim, parse, LineAt(lines, nl, k)), Open(lines, nl))
    decreases n - i
  {
    if i < n {
      var l := LineAt(lines, nl, i + 1);
      ReadAt(lines, nl, i + 1, LineAt(lines, nl, i));
      var s := parse(l).value;
      var sat := if cache.id != s.sat then ph.getSat(sim.sats, s.sat) else cache;
      assert sat == ph.getSat(sim.sats, s.sat);
      if IsValidImage(ph, s.turn, RecordImage(s), sat) {
        ImagesLoopFaithful(ph, sim, parse, lines, nl, sat, i + 1, n);
        assert (forall k :: i + 1 <= k <= n ==> LineInRange(ph, sim, parse, LineAt(lines, nl, k)))
           <==> (forall k :: i + 2 <= k <= n ==> LineInRange(ph, sim, parse, LineAt(lines, nl, k)));
      } else {
        assert !LineInRange(ph, sim, parse, l);
      }
    }
  }

  /** isValidImages on a fresh file with header N whose N records name
      satellites of the simulation: true exactly when each of them is in
      range of its satellite at its turn. */
  lemma ImagesCacheFaithful(ph: Physics, sim: SimulationData, lines: seq<string>, nl: bool)
    requires IdFaithful(ph, sim)
    requires Stoi(LineAt(lines, nl, 0)).Some?
    requires forall k :: 1 <= k <= Stoi(LineAt(lines, nl, 0)).value ==> NamesSatellite(sim, ParseShotLine, LineAt(lines, nl, k))
    ensures IsValidImages(ph, sim, Open(lines, nl))
            == Done(forall k :: 1 <= k <= Stoi(LineAt(lines, nl, 0)).value ==>
                      LineInRange(ph, sim, ParseShotLine, LineAt(lines, nl, k)), Open(lines, nl))
  {
    ReadAt(lines, nl, 0, "");
    ImagesLoopFaithful(ph, sim, ParseShotLine, lines, nl, Blank, 0, Stoi(LineAt(lines, nl, 0)).value);
  }

  /** isValidOutput with the syntax check's count bound as a parameter: the
      syntax check, then, only if it passes, the physical check. */
  function OutputCheck(bound: int, ph: Physics, sim: SimulationData, st: Stream): (r: Outcome<bool>)
    requires PictureArrayFits(st)
    ensures r.Done? && r.value ==> r.rest == Rewind(st)
  {
    match SyntaxCheck(bound, sim, st)
    case Thrown => Thrown
    case Done(ok, st1) => if !ok then Done(false, st1) else IsValidImages(ph, sim, st1)
  }

  /** isValidOutput as written, over isValidSyntax as written. */
  function IsValidOutput(ph: Physics, sim: SimulationData, st: Stream): (r: Outcome<bool>)
    requires PictureArrayFits(st)
    ensures r.Done? && r.value ==> r.rest == Rewind(st)
  {
    OutputCheck(|sim.colls|, ph, sim, st)
  }

  /** isValidOutput over the corrected syntax check. */
  function IsValidOutputCorrected(ph: Physics, sim: SimulationData, st: Stream): (r: Outcome<bool>)
    requires PictureArrayFits(st)
    ensures r.Done? && r.value ==> r.rest == Rewind(st)
  {
    OutputCheck(TotalImages(sim.colls), ph, sim, st)
  }

  /** A file the syntax check rejects is rejected whatever the physics: the
      physical check is never reached. */
  lemma OutputShortCircuit(ph1: Physics, ph2: Physics, sim: SimulationData, st: Stream)
    requires PictureArrayFits(st)
    requires IsValidSyntaxAsWritten(sim, st).Done? && !IsValidSyntaxAsWritten(sim, st).value
    ensures IsValidOutput(ph1, sim, st) == IsValidOutput(ph2, sim, st) == IsValidSyntaxAsWritten(sim, st)
  {
  }

  /** isValidOutput on a fresh file: accepted exactly when the file has the
      form isValidSyntax as written accepts, with at most as many records as
      collections, and every record is in range of its satellite. */
  lemma ValidOutputMeaning(ph: Physics, sim: SimulationData, lines: seq<string>, nl: bool)
    requires IdFaithful(ph, sim)
    requires PictureArrayFits(Open(lines, nl))
    ensures IsValidOutput(ph, sim, Open(lines, nl)) == Done(true, Open(lines, nl)) <==>
              SyntaxAccepts(|sim.colls|, sim, lines)
              && forall k :: 1 <= k < |lines| ==> LineInRange(ph, sim, ParseShotLine, lines[k])
  {
    OutputCheckMeaning(|sim.colls|, ph, sim, lines, nl);
  }

  /** The corrected isValidOutput on a fresh file: accepted exactly when the
      file has the form the corrected syntax check accepts, with at most as
      many records as the input has images, and every record is in range. */
  lemma ValidOutputCorrectedMeaning(ph: Physics, sim: SimulationData, lines: seq<string>, nl: bool)
    requires IdFaithful(ph, sim)
    requires PictureArrayFits(Open(lines, nl))
    ensures IsValidOutputCorrected(ph, sim, Open(lines, nl)) == Done(true, Open(lines, nl)) <==>
              SyntaxAccepts(TotalImages(sim.colls), sim, lines)
              && forall k :: 1 <= k < |lines| ==> LineInRange(ph, sim, ParseShotLine, lines[k])
  {
    OutputCheckMeaning(TotalImages(sim.colls), ph, sim, lines, nl);
  }

  lemma OutputCheckMeaning(bound: int, ph: Physics, sim: SimulationData, lines: seq<string>, nl: bool)
    requires IdFaithful(ph, sim)
    requires PictureArrayFits(Open(lines, nl))
    ensures OutputCheck(bound, ph, sim, Open(lines, nl)) == Done(true, Open(lines, nl)) <==>
              SyntaxAccepts(bound, sim, lines)
              && forall k :: 1 <= k < |lines| ==> LineInRange(ph, sim, ParseShotLine, lines[k])
  {
    if OutputCheck(bound, ph, sim, Open(lines, nl)) == Done(true, Open(lines, nl)) {
      OutputCheckOnlyIf(bound, ph, sim, lines, nl);
    }
    if SyntaxAccepts(bound, sim, lines)
       && forall k :: 1 <= k < |lines| ==> LineInRange(ph, sim, ParseShotLine, lines[k]) {
      OutputCheckIf(bound, ph, sim, lines, nl);
    }
  }

  /** In a file of N + 1 lines, the N reads after the header read the N records. */
  lemma RecordsRead(lines: seq<string>, nl: bool, n: int)
    requires n >= 0 && |lines| == n + 1
    ensures forall k :: 1 <= k <= n ==> LineAt(lines, nl, k) == lines[k]
    ensures LineAt(lines, nl, 0) == lines[0]
  {
  }

  /** isValidImages on a file of the accepted form: true exactly when every
      record is in range of its satellite. */
  lemma ImagesOnAccepted(bound: int, ph: Physics, sim: SimulationData, lines: seq<string>, nl: bool)
    requires IdFaithful(ph, sim)
    requires SyntaxAccepts(bound, sim, lines)
    ensures IsValidImages(ph, sim, Open(lines, nl))
            == Done(forall k :: 1 <= k < |lines| ==> LineInRange(ph, sim, ParseShotLine, lines[k]), Open(lines, nl))
  {
    var n := |lines| - 1;
    StoiOfHeader(lines);
    RecordsRead(lines, nl, n);
    forall k | 1 <= k <= n
      ensures NamesSatellite(sim, ParseShotLine, LineAt(lines, nl, k))
    {
      assert LineAccepted(sim, lines[k]);
    }
    ImagesCacheFaithful(ph, sim, lines, nl);
  }

  lemma OutputCheckOnlyIf(bound: int, ph: Physics, sim: SimulationData, lines: seq<string>, nl: bool)
    requires IdFaithful(ph, sim)
    requires PictureArrayFits(Open(lines, nl))
    requires OutputCheck(bound, ph, sim, Open(lines, nl)) == Done(true, Open(lines, nl))
    ensures SyntaxAccepts(bound, sim, lines)
    ensures forall k :: 1 <= k < |lines| ==> LineInRange(ph, sim, ParseShotLine, lines[k])
  {
    assert SyntaxCheck(bound, sim, Open(lines, nl)) == Done(true, Open(lines, nl));
    SyntaxCheckOnlyAccepts(bound, sim, lines, nl);
    ImagesOnAccepted(bound, ph, sim, lines, nl);
  }

  lemma OutputCheckIf(bound: int, ph: Physics, sim: SimulationData, lines: seq<string>, nl: bool)
    requires IdFaithful(ph, sim)
    requires PictureArrayFits(Open(lines, nl))
    requires SyntaxAccepts(bound, sim, lines)
    requires forall k :: 1 <= k < |lines| ==> LineInRange(ph, sim, ParseShotLine, lines[k])
    ensures OutputCheck(bound, ph, sim, Open(lines, nl)) == Done(true, Open(lines, nl))
  {
    SyntaxCheckAccepts(bound, sim, lines, nl);
    ImagesOnAccepted(bound, ph, sim, lines, nl);
  }

  /** An accepted header reads back through std::stoi as its digit value. */
  lemma StoiOfHeader(lines: seq<string>)
    requires |lines| >= 1 && IsDigitString(lines[0]) && DigitsValue(lines[0]) <= IntMax
    ensures Stoi(lines[0]) == Some(DigitsValue(lines[0]))
  {
  }

  /** The loop of getImagesTaken over records i .. n - 1: the (la, lo) of each
      record line, appended to acc. `parse` reads one position; the judge
      passes ParsePositionLine. */
  function TakenLoop(parse: string -> Option<Position>, st: Stream, line: string, i: int, n: int, acc: seq<Position>)
    : (r: Outcome<seq<Position>>)
    ensures r.Done? ==> r.rest == Rewind(st)
    decreases n - i
  {
    if i >= n then Done(acc, Rewind(st))
    else
      var (l, st1) := GetLine(st, line);
      match parse(l)
      case None => Thrown
      case Some(p) => TakenLoop(parse, st1, l, i + 1, n, acc + [p])
  }

  /** getImagesTaken: reads the header, then that many positions, and rewinds. */
  function GetImagesTaken(st: Stream): (r: Outcome<seq<Position>>)
    ensures r.Done? ==> r.rest == Rewind(st)
  {
    ReadTaken(Stoi, ParsePositionLine, st)
  }

  /** The reader of getImagesTaken with the header's and the records' readers
      as parameters. */
  function ReadTaken(header: string -> Option<int>, parse: string -> Option<Position>, st: Stream)
    : (r: Outcome<seq<Position>>)
    ensures r.Done? ==> r.rest == Rewind(st)
  {
    var (h, st1) := GetLine(st, "");
    match header(h)
    case None => Thrown
    case Some(n) => TakenLoop(parse, st1, h, 0, n, [])
  }

  /** Each of the reads a .. b of the file gives a position. */
  predicate PositionsParse(parse: string -> Option<Position>, lines: seq<string>, nl: bool, a: nat, b: int) {
    forall k :: a <= k <= b ==> parse(LineAt(lines, nl, k)).Some?
  }

  /** From read i + 1 on, the loop finishes exactly when reads i + 1 .. n each
      give a position, and then appends those positions in order. */
  lemma {:induction false} TakenLoopMeaning(parse: string -> Option<Position>, lines: seq<string>, nl: bool,
                                            i: nat, n: int, acc: seq<Position>)
    ensures var r := TakenLoop(parse, Cursor(lines, nl, i + 1), LineAt(lines, nl, i), i, n, acc);
            r.Done? <==> PositionsParse(parse, lines, nl, i + 1, n)
    ensures var r := TakenLoop(parse, Cursor(lines, nl, i + 1), LineAt(lines, nl, i), i, n, acc);
            r.Done? ==> && r.rest == Open(lines, nl)
                        && |r.value| == |acc| + (if n > i then n - i else 0)
                        && r.value[..|acc|] == acc
                        && forall k :: |acc| <= k < |r.value| ==> parse(LineAt(lines, nl, k - |acc| + i + 1)) == Some(r.value[k])
    decreases n - i
  {
    if i < n {
      var l := LineAt(lines, nl, i + 1);
      ReadAt(lines, nl, i + 1, LineAt(lines, nl, i));
      var p := parse(l);
      if p.Some? {
        TakenLoopMeaning(parse, lines, nl, i + 1, n, acc + [p.value]);
        var r := TakenLoop(parse, Cursor(lines, nl, i + 2), l, i + 1, n, acc + [p.value]);
        if r.Done? {
          assert r.value[..|acc| + 1][..|acc|] == r.value[..|acc|];
        }
      }
    }
  }

  /** The reader on a fresh file whose header reads as N: it returns what
      the records of reads 1 .. N give, in order, and throws when one of them
      gives nothing. */
  lemma ReadTakenMeaning(header: string -> Option<int>, parse: string -> Option<Position>,
                         lines: seq<string>, nl: bool, n: int)
    requires header(LineAt(lines, nl, 0)) == Some(n)
    ensures ReadTaken(header, parse, Open(lines, nl)).Done? <==> PositionsParse(parse, lines, nl, 1, n)
    ensures var r := ReadTaken(header, parse, Open(lines, nl));
            r.Done? ==> && r.rest == Open(lines, nl)
                        && |r.value| == (if n > 0 then n else 0)
                        && forall k :: 0 <= k < |r.value| ==> parse(LineAt(lines, nl, k + 1)) == Some(r.value[k])
  {
    ReadAt(lines, nl, 0, "");
    TakenLoopMeaning(parse, lines, nl, 0, n, []);
  }

  /** getImagesTaken on a fresh file whose header std::stoi cannot read throws. */
  lemma GetImagesTakenBadHeader(lines: seq<string>, nl: bool)
    requires Stoi(LineAt(lines, nl, 0)).None?
    ensures GetImagesTaken(Open(lines, nl)).Thrown?
  {
    ReadAt(lines, nl, 0, "");
  }

  /** getImagesTaken on a fresh file with header N: it returns the (la, lo)
      of reads 1 .. N in order, and throws when one of them gives none. */
  lemma GetImagesTakenMeaning(lines: seq<string>, nl: bool, n: int)
    requires Stoi(LineAt(lines, nl, 0)) == Some(n)
    ensures GetImagesTaken(Open(lines, nl)).Done? <==> PositionsParse(ParsePositionLine, lines, nl, 1, n)
    ensures var r := GetImagesTaken(Open(lines, nl));
            r.Done? ==> && r.rest == Open(lines, nl)
                        && |r.value| == (if n > 0 then n else 0)
                        && forall k :: 0 <= k < |r.value| ==> ParsePositionLine(LineAt(lines, nl, k + 1)) == Some(r.value[k])
  {
    ReadTakenMeaning(Stoi, ParsePositionLine, lines, nl, n);
  }

  /** On a file that ends with '\n', a missing record is an empty line, so
      getImagesTaken throws when fewer than N records follow the header. */
  lemma GetImagesTakenMissingRecord(lines: seq<string>)
    requires |lines| >= 1 && Stoi(lines[0]).Some? && Stoi(lines[0]).value >= |lines|
    ensures GetImagesTaken(Open(lines, true)).Thrown?
  {
    GetImagesTakenMeaning(lines, true, Stoi(lines[0]).value);
    ParseEmptyLine();
    assert LineAt(lines, true, |lines|) == "";
  }

  /** A file declaring two records but holding one: without a final '\n' the
      read after the last line fails and keeps that line in the variable, so
      getImagesTaken returns its position twice; with the '\n' the missing
      record is an empty line and getImagesTaken throws. */
  lemma LastRecordReread(s: Shot)
    requires InIntRange(s)
    ensures var lines := [IntToString(2), FormatShot(s)];
            && GetImagesTaken(Open(lines, false)) == Done([ShotPos(s), ShotPos(s)], Open(lines, false))
            && GetImagesTaken(Open(lines, true)).Thrown?
  {
    var lines := [IntToString(2), FormatShot(s)];
    StoiIntToString(2);
    ParseFormatShot(s);
    ParseShotGivesPosition(FormatShot(s));
    assert LineAt(lines, false, 0) == IntToString(2);
    assert LineAt(lines, false, 1) == FormatShot(s) == LineAt(lines, false, 2);
    GetImagesTakenMeaning(lines, false, 2);
    var r := GetImagesTaken(Open(lines, false));
    assert r.Done?;
    assert r.value == [ShotPos(s), ShotPos(s)] by {
      assert ParsePositionLine(LineAt(lines, false, 1)) == Some(r.value[0]);
      assert ParsePositionLine(LineAt(lines, false, 2)) == Some(r.value[1]);
    }
    GetImagesTakenMissingRecord(lines);
  }

  /** contains: some taken image has the image's (la, lo). */
  predicate Contains(images: seq<Position>, img: Image) {
    PosOf(img) in images
  }

  /** The image loop of getScore for one collection, from image k on. */
  function AllContained(imgs: seq<Image>, images: seq<Position>, k: nat): (r: bool)
    requires k <= |imgs|
    ensures r <==> forall m :: k <= m < |imgs| ==> Contains(images, imgs[m])
    decreases |imgs| - k
  {
    if k == |imgs| then true
    else
      var rest := AllContained(imgs, images, k + 1);
      if !Contains(images, imgs[k]) then false else rest
  }

  /** The points of all the collections. */
  function TotalPoints(colls: seq<Collection>): int {
    if |colls| == 0 then 0 else colls[0].nbPts + TotalPoints(colls[1..])
  }

  /** The score of getScore: the points of every collection whose every image
      is among the taken positions. With non-negative points it lies between
      0 and the total; it is the total when every collection is complete and
      0 when none is. */
  function ScoreOf(colls: seq<Collection>, images: seq<Position>): (r: int)
    ensures (forall j :: 0 <= j < |colls| ==> colls[j].nbPts >= 0) ==> 0 <= r <= TotalPoints(colls)
    ensures (forall j :: 0 <= j < |colls| ==> AllContained(colls[j].images, images, 0)) ==> r == TotalPoints(colls)
    ensures (forall j :: 0 <= j < |colls| ==> !AllContained(colls[j].images, images, 0)) ==> r == 0
  {
    if |colls| == 0 then 0
    else (if AllContained(colls[0].images, images, 0) then colls[0].nbPts else 0) + ScoreOf(colls[1..], images)
  }

  /** getScore: the score of the positions getImagesTaken reads. */
  function GetScore(sim: SimulationData, st: Stream): (r: Outcome<int>)
    ensures r.Done? ==> r.rest == Rewind(st)
    ensures r.Thrown? <==> GetImagesTaken(st).Thrown?
  {
    match GetImagesTaken(st)
    case Thrown => Thrown
    case Done(images, st1) => Done(ScoreOf(sim.colls, images), st1)
  }

  /** The score depends only on which positions were taken: not on their
      order, their repetitions, turns or satellites. */
  lemma {:induction false} ScoreSamePositions(colls: seq<Collection>, a: seq<Position>, b: seq<Position>)
    requires forall p :: p in a <==> p in b
    ensures ScoreOf(colls, a) == ScoreOf(colls, b)
  {
    if |colls| > 0 {
      ScoreSamePositions(colls[1..], a, b);
    }
  }

  /** With non-negative points, taking more positions never lowers the score. */
  lemma {:induction false} ScoreMonotone(colls: seq<Collection>, a: seq<Position>, b: seq<Position>)
    requires forall j :: 0 <= j < |colls| ==> colls[j].nbPts >= 0
    requires forall p :: p in a ==> p in b
    ensures ScoreOf(colls, a) <= ScoreOf(colls, b)
  {
    if |colls| > 0 {
      ScoreMonotone(colls[1..], a, b);
      var imgs := colls[0].images;
      if AllContained(imgs, a, 0) {
        assert forall m :: 0 <= m < |imgs| ==> Contains(b, imgs[m]) by {
          forall m | 0 <= m < |imgs| ensures Contains(b, imgs[m]) {
            assert Contains(a, imgs[m]);
          }
        }
      }
    }
  }

  lemma {:induction false} ScoreAppend(a: seq<Collection>, b: seq<Collection>, images: seq<Position>)
    ensures ScoreOf(a + b, images) == ScoreOf(a, images) + ScoreOf(b, images)
  {
    if |a| == 0 {
      assert a + b == b;
    } else {
      assert (a + b)[0] == a[0];
      assert (a + b)[1..] == a[1..] + b;
      ScoreAppend(a[1..], b, images);
    }
  }

  /** All or nothing: collection j adds its full points when every one of its
      images was taken, and nothing when any one is missing. */
  lemma ScoreAllOrNothing(colls: seq<Collection>, j: nat, images: seq<Position>)
    requires j < |colls|
    ensures ScoreOf(colls, images) == ScoreOf(colls[..j] + colls[j + 1..], images)
              + (if forall k :: 0 <= k < |colls[j].images| ==> PosOf(colls[j].images[k]) in images
                 then colls[j].nbPts else 0)
  {
    assert colls == colls[..j] + ([colls[j]] + colls[j + 1..]);
    ScoreAppend(colls[..j], [colls[j]] + colls[j + 1..], images);
    ScoreAppend(colls[..j], colls[j + 1..], images);
    assert ([colls[j]] + colls[j + 1..])[1..] == colls[j + 1..];
  }
}
