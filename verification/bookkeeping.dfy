/** The between-pass bookkeeping of NaiveResolver.cpp: resetTakenPictures
    clears the capture flags of the collections still pursued, and
    checkUncompleteCollections drops the collections a pass left incomplete. */
module Bookkeeping {
  import opened SimData

  /** Every image of c is taken. */
  predicate Complete(c: Collection) {
    forall k :: 0 <= k < |c.images| ==> c.images[k].taken
  }

  /** The inner scan of checkUncompleteCollections, stopping at the first
      untaken image. */
  function AllTaken(imgs: seq<Image>): (r: bool)
    ensures r <==> forall k :: 0 <= k < |imgs| ==> imgs[k].taken
  {
    if |imgs| == 0 then true
    else if !imgs[0].taken then false
    else AllTaken(imgs[1..])
  }

  function ResetCollection(c: Collection): Collection {
    c.(images := seq(|c.images|, k requires 0 <= k < |c.images| => c.images[k].(taken := false)))
  }

  /** resetTakenPictures: every image of every valid collection becomes
      untaken; invalid collections, positions, windows, points and validity
      are left alone. */
  function ResetTakenPictures(colls: seq<Collection>): (r: seq<Collection>)
    ensures SameShape(colls, r)
    ensures forall j :: 0 <= j < |colls| && colls[j].isValid ==> TakenIn(r[j].images) == 0
    ensures forall j, k :: 0 <= j < |colls| && colls[j].isValid && 0 <= k < |r[j].images| ==> !r[j].images[k].taken
    ensures forall j :: 0 <= j < |colls| && !colls[j].isValid ==> r[j] == colls[j]
  {
    var r := seq(|colls|, j requires 0 <= j < |colls| =>
                   if colls[j].isValid then ResetCollection(colls[j]) else colls[j]);
    assert forall j :: 0 <= j < |colls| && colls[j].isValid ==> TakenIn(r[j].images) == 0 by {
      forall j | 0 <= j < |colls| && colls[j].isValid {
        NoneTaken(r[j].images);
      }
    }
    r
  }

  lemma {:induction false} NoneTaken(imgs: seq<Image>)
    requires forall k :: 0 <= k < |imgs| ==> !imgs[k].taken
    ensures TakenIn(imgs) == 0
  {
    if |imgs| > 0 {
      NoneTaken(imgs[1..]);
    }
  }

  /** Resetting forgets everything a pass did to valid collections: two states
      that differ only in flags reset to the same collections. */
  lemma ResetForgetsPass(a: seq<Collection>, b: seq<Collection>)
    requires SameShape(a, b)
    requires forall j :: 0 <= j < |a| && !a[j].isValid ==> a[j] == b[j]
    ensures ResetTakenPictures(a) == ResetTakenPictures(b)
  {
    var ra, rb := ResetTakenPictures(a), ResetTakenPictures(b);
    forall j | 0 <= j < |a|
      ensures ra[j] == rb[j]
    {
      if a[j].isValid {
        assert ra[j].images == rb[j].images;
      }
    }
  }

  /** checkUncompleteCollections: a valid collection stays valid exactly when
      all its images are taken, an invalid one is never revived, nothing else
      changes, and the flag reports whether a valid collection was dropped. */
  function CheckUncompleteCollections(colls: seq<Collection>): (r: (seq<Collection>, bool))
    ensures |r.0| == |colls|
    ensures forall j :: 0 <= j < |colls| ==>
              r.0[j] == colls[j].(isValid := colls[j].isValid && Complete(colls[j]))
    ensures r.1 <==> exists j :: 0 <= j < |colls| && colls[j].isValid && !Complete(colls[j])
  {
    if |colls| == 0 then ([], false)
    else
      var rest := CheckUncompleteCollections(colls[1..]);
      var c := colls[0];
      if c.isValid then
        var valid := AllTaken(c.images);
        ([c.(isValid := valid)] + rest.0, rest.1 || !valid)
      else
        ([c] + rest.0, rest.1)
  }

  /** A second check right after the first changes nothing: the surviving
      collections are complete, so the pass loop would stop. */
  lemma CheckIsFixpoint(colls: seq<Collection>)
    ensures var once := CheckUncompleteCollections(colls).0;
            CheckUncompleteCollections(once) == (once, false)
  {
    var once := CheckUncompleteCollections(colls).0;
    var twice := CheckUncompleteCollections(once);
    assert forall j :: 0 <= j < |once| ==> once[j].images == colls[j].images;
    assert twice.0 == once;
  }
}
