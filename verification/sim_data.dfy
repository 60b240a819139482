/** The simulation data shared by the resolver and the judge: satellites,
    collections of images with time windows, and shot records. All values are
    immutable; the source's in-place updates become functions returning new
    values. */
module SimData {

  datatype Option<+T> = None | Some(value: T)

  /** A point, or a relative offset, in (latitude, longitude) arcsecond space. */
  datatype Position = Position(la: int, lo: int)

  /** An image to capture; `taken` is run-scoped resolution state. */
  datatype Image = Image(la: int, lo: int, taken: bool)

  /** Inclusive turn window in which images of a collection may be captured. */
  datatype TimeStamp = TimeStamp(minTime: int, maxTime: int)

  /** A group of images worth `nbPts` only when every image is captured.
      `isValid` prunes collections between resolution passes. */
  datatype Collection = Collection(nbPts: int, images: seq<Image>, windows: seq<TimeStamp>, isValid: bool)

  /** A satellite: current pointing (la, lo), slew speed, and the last shot's
      relative offset (None before any shot) and turn. */
  datatype Satellite = Satellite(id: int, la: int, lo: int, speedRot: int,
                                 lastOffset: Option<Position>, lastShotTurn: int)

  /** The aggregate root: simulation length, satellites and collections. */
  datatype SimulationData = SimulationData(duration: int, sats: seq<Satellite>, colls: seq<Collection>)

  /** One line of the shot list: image position, turn, satellite. */
  datatype Shot = Shot(la: int, lo: int, turn: int, sat: int)

  /** The geometry helpers whose bodies are not part of this model, kept opaque:
      `inRange` is isInRange, `move` is moveSatelite, `positionAt` is
      getSatPosition and `getSat` is getSat. */
  datatype Physics = Physics(inRange: (Satellite, Image) -> bool,
                             move: Satellite -> Satellite,
                             positionAt: (Satellite, int) -> Satellite,
                             getSat: (seq<Satellite>, int) -> Satellite)

  function PosOf(im: Image): Position {
    Position(im.la, im.lo)
  }

  function ShotPos(s: Shot): Position {
    Position(s.la, s.lo)
  }

  /** The (la, lo) of every shot, in order. */
  function Positions(shots: seq<Shot>): (ps: seq<Position>)
    ensures |ps| == |shots|
    ensures forall i :: 0 <= i < |shots| ==> ps[i] == ShotPos(shots[i])
  {
    seq(|shots|, i requires 0 <= i < |shots| => ShotPos(shots[i]))
  }

  lemma PositionsAppend(a: seq<Shot>, b: seq<Shot>)
    ensures Positions(a + b) == Positions(a) + Positions(b)
  {
  }

  /** c and d differ at most in their images' `taken` flags. */
  predicate SameCollection(c: Collection, d: Collection) {
    && c.nbPts == d.nbPts
    && c.windows == d.windows
    && c.isValid == d.isValid
    && |c.images| == |d.images|
    && forall k :: 0 <= k < |c.images| ==> PosOf(c.images[k]) == PosOf(d.images[k])
  }

  /** Two collection lists that differ at most in `taken` flags. */
  predicate SameShape(a: seq<Collection>, b: seq<Collection>) {
    |a| == |b| && forall j :: 0 <= j < |a| ==> SameCollection(a[j], b[j])
  }

  /** No image taken in c is untaken in d. */
  predicate KeepsTaken(c: Collection, d: Collection) {
    forall k :: 0 <= k < |c.images| && k < |d.images| && c.images[k].taken ==> d.images[k].taken
  }

  /** b is a later state of a within one pass: same shape, flags only set. */
  predicate Grows(a: seq<Collection>, b: seq<Collection>) {
    SameShape(a, b) && forall j :: 0 <= j < |a| && j < |b| ==> KeepsTaken(a[j], b[j])
  }

  /** Image k of collection j is untaken in a and taken in b. */
  predicate Flipped(a: seq<Collection>, b: seq<Collection>, j: int, k: int) {
    && 0 <= j < |a| && j < |b|
    && 0 <= k < |a[j].images| && k < |b[j].images|
    && !a[j].images[k].taken && b[j].images[k].taken
  }

  /** Number of taken images in one image list. */
  function TakenIn(imgs: seq<Image>): nat {
    if |imgs| == 0 then 0 else (if imgs[0].taken then 1 else 0) + TakenIn(imgs[1..])
  }

  /** Number of taken images over all collections. */
  function TakenCount(colls: seq<Collection>): nat {
    if |colls| == 0 then 0 else TakenIn(colls[0].images) + TakenCount(colls[1..])
  }

  /** Number of images over all collections. */
  function TotalImages(colls: seq<Collection>): nat {
    if |colls| == 0 then 0 else |colls[0].images| + TotalImages(colls[1..])
  }

  lemma {:induction false} TakenInBound(imgs: seq<Image>)
    ensures TakenIn(imgs) <= |imgs|
  {
    if |imgs| > 0 {
      TakenInBound(imgs[1..]);
    }
  }

  lemma {:induction false} TakenCountBound(colls: seq<Collection>)
    ensures TakenCount(colls) <= TotalImages(colls)
  {
    if |colls| > 0 {
      TakenInBound(colls[0].images);
      TakenCountBound(colls[1..]);
    }
  }

  /** Marking one untaken image as taken raises the image list's count by one. */
  lemma {:induction false} TakenInMark(imgs: seq<Image>, k: nat)
    requires k < |imgs| && !imgs[k].taken
    ensures TakenIn(imgs[k := imgs[k].(taken := true)]) == TakenIn(imgs) + 1
  {
    var m := imgs[k := imgs[k].(taken := true)];
    if k == 0 {
      assert m[1..] == imgs[1..];
    } else {
      assert m[1..] == imgs[1..][k - 1 := imgs[k].(taken := true)];
      TakenInMark(imgs[1..], k - 1);
    }
  }

  /** Replacing collection j changes the count by the difference of its images' counts. */
  lemma {:induction false} TakenCountUpdate(colls: seq<Collection>, j: nat, c: Collection)
    requires j < |colls|
    ensures TakenCount(colls[j := c]) == TakenCount(colls) - TakenIn(colls[j].images) + TakenIn(c.images)
    ensures TotalImages(colls[j := c]) == TotalImages(colls) - |colls[j].images| + |c.images|
  {
    var u := colls[j := c];
    if j == 0 {
      assert u[1..] == colls[1..];
    } else {
      assert u[1..] == colls[1..][j - 1 := c];
      TakenCountUpdate(colls[1..], j - 1, c);
    }
  }
}
