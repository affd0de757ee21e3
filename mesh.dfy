/** The mesh-coupling registries of Cardinal's nekRS interface (namespace nekrs::mesh): which
    faces or elements of the nekRS mesh take part in the boundary or volume coupling, which rank
    owns each of them, and the check that requested boundary ids exist. The rank, the
    communicator size and what each rank found on its part of the mesh are parameters. */
module Mesh {
  import opened Sums

  // ---------------------------------------------------------------------------------
  // Gathered data: one fragment per rank, concatenated in rank order

  /** Number of entries in each rank's fragment. */
  function Lengths<T>(fragments: seq<seq<T>>): seq<int>
  {
    seq(|fragments|, q requires 0 <= q < |fragments| => |fragments[q]|)
  }

  /** The fragments of all ranks one after another, as an all-gather delivers them. */
  function Flatten<T>(fragments: seq<seq<T>>): seq<T>
  {
    if |fragments| == 0 then [] else Flatten(fragments[..|fragments| - 1]) + fragments[|fragments| - 1]
  }

  /** Rank `q` repeated `n` times: the owner entries for a block of `n` entries. */
  function Repeat(q: int, n: nat): seq<int>
  {
    seq(n, _ => q)
  }

  /** The owning rank of every entry when rank q holds `counts[q]` consecutive entries. */
  function Owners(counts: seq<int>): seq<int>
    requires NonNegative(counts)
  {
    if |counts| == 0 then []
    else Owners(counts[..|counts| - 1]) + Repeat(|counts| - 1, counts[|counts| - 1])
  }

  lemma {:induction false} OwnersLength(counts: seq<int>)
    requires NonNegative(counts)
    ensures |Owners(counts)| == Sum(counts)
  {
    if |counts| > 0 {
      OwnersLength(counts[..|counts| - 1]);
    }
  }

  /** Every entry lies inside the block of the rank listed as its owner. */
  lemma {:induction false} OwnersBlock(counts: seq<int>, e: int)
    requires NonNegative(counts)
    requires 0 <= e < Sum(counts)
    ensures |Owners(counts)| == Sum(counts)
    ensures var q := Owners(counts)[e]; 0 <= q < |counts| && Sum(counts[..q]) <= e < Sum(counts[..q]) + counts[q]
  {
    OwnersLength(counts);
    var n := |counts|;
    var init := counts[..n - 1];
    OwnersLength(init);
    SumNext(counts, n - 1);
    SumWhole(counts);
    assert counts[..n - 1] == init;
    if e < Sum(init) {
      OwnersBlock(init, e);
      var q := Owners(init)[e];
      assert Owners(counts)[e] == q;
      assert counts[..q] == init[..q];
    }
  }

  /** Entry `j` of rank `q`'s block is owned by `q`. */
  lemma {:induction false} OwnersAt(counts: seq<int>, q: int, j: int)
    requires NonNegative(counts)
    requires 0 <= q < |counts| && 0 <= j < counts[q]
    ensures 0 <= Sum(counts[..q]) + j < |Owners(counts)| && Owners(counts)[Sum(counts[..q]) + j] == q
  {
    var n := |counts|;
    var init := counts[..n - 1];
    OwnersLength(counts);
    OwnersLength(init);
    SumNext(counts, n - 1);
    SumWhole(counts);
    SumNext(counts, q);
    SumMonotone(counts, q + 1, n);
    SumMonotone(counts, 0, q);
    assert counts[..0] == [];
    if q < n - 1 {
      assert init[..q] == counts[..q];
      OwnersAt(init, q, j);
    } else {
      assert counts[..q] == init;
    }
  }

  /** Entry `j` of rank `q`'s fragment sits at position (entries of the ranks before q) + j
      of the concatenation. */
  lemma {:induction false} FlattenAt<T>(fragments: seq<seq<T>>, q: int, j: int)
    requires 0 <= q < |fragments| && 0 <= j < |fragments[q]|
    ensures |Flatten(fragments)| == Sum(Lengths(fragments))
    ensures 0 <= Sum(Lengths(fragments)[..q]) + j < |Flatten(fragments)|
      && Flatten(fragments)[Sum(Lengths(fragments)[..q]) + j] == fragments[q][j]
  {
    var n := |fragments|;
    var init := fragments[..n - 1];
    var c := Lengths(fragments);
    var ci := Lengths(init);
    assert c[..n - 1] == ci;
    assert Flatten(fragments) == Flatten(init) + fragments[n - 1];
    FlattenLength(fragments);
    FlattenLength(init);
    if q == n - 1 {
      assert c[..q] == ci;
    } else {
      assert c[..q] == ci[..q];
      FlattenAt(init, q, j);
    }
  }

  lemma {:induction false} FlattenLength<T>(fragments: seq<seq<T>>)
    ensures |Flatten(fragments)| == Sum(Lengths(fragments))
  {
    if |fragments| > 0 {
      var n := |fragments|;
      assert Lengths(fragments)[..n - 1] == Lengths(fragments[..n - 1]);
      FlattenLength(fragments[..n - 1]);
    }
  }


  // ---------------------------------------------------------------------------------
  // Boundary coupling

  /** A coupling face found by one rank: the rank-local element, the element-local face and the
      problem-global boundary id (one entry of the element, face and boundary_id arrays). */
  datatype BoundaryFace = BoundaryFace(element: int, face: int, boundaryId: int)

  /** The surface-coupling registry (mesh::boundaryCoupling). `faces` holds the element, face and
      boundary_id arrays for all ranks, `process` the owning rank of each face, `counts` the
      number of faces per rank. */
  class BoundaryCoupling {
    var faces: seq<BoundaryFace>
    var process: seq<int>
    var counts: seq<int>
    var nFaces: int
    var totalNFaces: int
    var offset: int

    /** The all-rank part of the invariant: counts and arrays agree, and every face is owned by
        the rank whose block holds it. */
    ghost predicate Layout()
      reads this
    {
      && NonNegative(counts)
      && totalNFaces == Sum(counts)
      && |faces| == totalNFaces
      && |process| == totalNFaces
      && process == Owners(counts)
    }

    /** The part of the invariant that depends on which rank this copy lives on. */
    ghost predicate OwnedBy(rank: int)
      reads this
    {
      && 0 <= rank < |counts|
      && nFaces == counts[rank]
      && offset == Sum(counts[..rank])
    }

    constructor ()
      ensures faces == [] && process == [] && counts == []
    {
      faces, process, counts := [], [], [];
      nFaces, totalNFaces, offset := 0, 0, 0;
    }

    /** Builds the registry (storeBoundaryCoupling) on rank `rank` from the faces each rank
        found on its part of the mesh; a second call replaces the first. Returns the total
        number of coupling faces. */
    method Store(rank: int, fragments: seq<seq<BoundaryFace>>) returns (n: int)
      requires 0 <= rank < |fragments|
      modifies this
      ensures Layout() && OwnedBy(rank)
      ensures counts == Lengths(fragments)
      ensures faces == Flatten(fragments)
      ensures n == totalNFaces
    {
      counts := Lengths(fragments);
      assert NonNegative(counts);
      faces := Flatten(fragments);
      process := Owners(counts);
      totalNFaces := Sum(counts);
      nFaces := counts[rank];
      offset := Sum(counts[..rank]);
      FlattenLength(fragments);
      OwnersLength(counts);
      n := totalNFaces;
    }

    /** The rank owning coupling face `e` (processor_id): the rank whose block of the all-rank
        arrays contains `e`. */
    function ProcessorId(e: int): (p: int)
      reads this
      requires Layout()
      requires 0 <= e < totalNFaces
      ensures p == process[e]
      ensures 0 <= p < |counts|
      ensures Sum(counts[..p]) <= e < Sum(counts[..p]) + counts[p]
    {
      OwnersBlock(counts, e);
      process[e]
    }

    /** This rank's own faces occupy [offset, offset + nFaces) of the all-rank arrays, and
        those positions, and only those, are owned by this rank. */
    lemma OwnRange(rank: int, e: int)
      requires Layout() && OwnedBy(rank)
      requires 0 <= e < totalNFaces
      ensures 0 <= offset && offset + nFaces <= totalNFaces
      ensures ProcessorId(e) == rank <==> offset <= e < offset + nFaces
    {
      SumNext(counts, rank);
      SumMonotone(counts, 0, rank);
      SumMonotone(counts, rank + 1, |counts|);
      SumWhole(counts);
      var p := ProcessorId(e);
      if p < rank {
        SumNext(counts, p);
        SumMonotone(counts, p + 1, rank);
      } else if p > rank {
        SumMonotone(counts, rank + 1, p);
      }
    }
  }

  // ---------------------------------------------------------------------------------
  // Volume coupling

  /** A coupling element found by one rank: the rank-local element id, the sideset ids of its
      faces and how many of its faces lie on a boundary of interest. */
  datatype VolumeElement = VolumeElement(element: int, boundary: seq<int>, facesOnBoundary: int)

  /** The volume-coupling registry (mesh::volumeCoupling). `elements` holds the element,
      boundary and n_faces_on_boundary arrays for all ranks, `process` the owning rank of each
      element, `counts` the number of elements per rank. */
  class VolumeCoupling {
    var elements: seq<VolumeElement>
    var process: seq<int>
    var counts: seq<int>
    var nElems: int
    var totalNElems: int

    ghost predicate Layout()
      reads this
    {
      && NonNegative(counts)
      && totalNElems == Sum(counts)
      && |elements| == totalNElems
      && |process| == totalNElems
      && process == Owners(counts)
    }

    ghost predicate OwnedBy(rank: int)
      reads this
    {
      0 <= rank < |counts| && nElems == counts[rank]
    }

    constructor ()
      ensures elements == [] && process == [] && counts == []
    {
      elements, process, counts := [], [], [];
      nElems, totalNElems := 0, 0;
    }

    /** Builds the registry (storeVolumeCoupling) on rank `rank` from the elements each rank
        holds; a second call replaces the first. Returns the total number of elements. */
    method Store(rank: int, fragments: seq<seq<VolumeElement>>) returns (n: int)
      requires 0 <= rank < |fragments|
      modifies this
      ensures Layout() && OwnedBy(rank)
      ensures counts == Lengths(fragments)
      ensures elements == Flatten(fragments)
      ensures n == totalNElems
    {
      counts := Lengths(fragments);
      assert NonNegative(counts);
      elements := Flatten(fragments);
      process := Owners(counts);
      totalNElems := Sum(counts);
      nElems := counts[rank];
      FlattenLength(fragments);
      OwnersLength(counts);
      n := totalNElems;
    }

    /** The rank owning coupling element `e` (processor_id). */
    function ProcessorId(e: int): (p: int)
      reads this
      requires Layout()
      requires 0 <= e < totalNElems
      ensures p == process[e]
      ensures 0 <= p < |counts|
      ensures Sum(counts[..p]) <= e < Sum(counts[..p]) + counts[p]
    {
      OwnersBlock(counts, e);
      process[e]
    }
  }

  // ---------------------------------------------------------------------------------
  // Boundary-id validation

  /** nekRS numbers its `nBoundaries` boundaries 1, ..., nBoundaries. */
  predicate IsValidBoundaryId(b: int, nBoundaries: int)
  {
    1 <= b <= nBoundaries
  }

  /** Checks requested ids against the number of boundaries in the nekRS mesh
      (validBoundaryIDs). `nBoundaryId` stands for NboundaryID() and `firstInvalidIdIn` for the
      caller's first_invalid_id, which is only written when an invalid id is found. */
  method ValidBoundaryIds(boundaryId: seq<int>, nBoundaryId: int, firstInvalidIdIn: int)
    returns (valid: bool, firstInvalidId: int, nBoundaries: int)
    ensures nBoundaries == nBoundaryId
    ensures valid <==> forall i :: 0 <= i < |boundaryId| ==> IsValidBoundaryId(boundaryId[i], nBoundaryId)
    ensures valid ==> firstInvalidId == firstInvalidIdIn
    ensures !valid ==> (exists k :: 0 <= k < |boundaryId| && boundaryId[k] == firstInvalidId
                          && !IsValidBoundaryId(boundaryId[k], nBoundaryId)
                          && forall j :: 0 <= j < k ==> IsValidBoundaryId(boundaryId[j], nBoundaryId))
  {
    nBoundaries := nBoundaryId;
    valid := true;
    firstInvalidId := firstInvalidIdIn;
    var i := 0;
    while i < |boundaryId| && valid
      invariant 0 <= i <= |boundaryId|
      invariant valid ==> firstInvalidId == firstInvalidIdIn
      invariant valid ==> forall j :: 0 <= j < i ==> IsValidBoundaryId(boundaryId[j], nBoundaries)
      invariant !valid ==> (0 < i && boundaryId[i - 1] == firstInvalidId
                             && !IsValidBoundaryId(boundaryId[i - 1], nBoundaries)
                             && forall j :: 0 <= j < i - 1 ==> IsValidBoundaryId(boundaryId[j], nBoundaries))
    {
      if !IsValidBoundaryId(boundaryId[i], nBoundaries) {
        valid := false;
        firstInvalidId := boundaryId[i];
      }
      i := i + 1;
    }
  }
}
