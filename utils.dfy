/**
 * The per-volume enrichment steps of nifti2database/utils.py: writing the
 * geometry read from a NIfTI header into each volume's parameter map, and
 * merging the classification fields into it.
 *
 * A volume is an object whose `seqparam` dictionary is updated in place;
 * the header that `nibabel.load` would read from `niiPath` is supplied by
 * the caller as a function from path to header.
 */
module Utils {
  import opened JsonValues

  /** What the enrichment reads from a NIfTI header: the data shape and the voxel sizes. */
  datatype Header = Header(shape: seq<int>, zooms: seq<real>)

  /** One image volume: its file path, its parameter map and its classification fields. */
  class Volume {
    const niiPath: string
    var seqparam: map<string, Json>
    var bidsfields: map<string, Json>
  }

  /** The process-wide list of created volumes (`Volume.instances`). */
  class VolumeRegistry {
    var instances: seq<Volume>
  }

  /** The three keys the header read writes. */
  const MatrixKey := "Matrix"
  const ResolutionKey := "Resolution"
  const FovKey := "FoV"

  /** Python's `int()` on a float: truncation toward zero. */
  function Trunc(x: real): int
  {
    if 0.0 <= x then x.Floor else -((-x).Floor)
  }

  /** `Trunc` drops the fractional part: the result is the integer next to `x` on the side of zero. */
  lemma TruncTowardZero(x: real)
    ensures 0.0 <= x ==> Trunc(x) as real <= x < Trunc(x) as real + 1.0
    ensures x < 0.0 ==> Trunc(x) as real - 1.0 < x <= Trunc(x) as real
  {
  }

  /** `list(matrix)`: the shape tuple as a list of integers, same length and order. */
  function MatrixItems(shape: seq<int>): (r: seq<Json>)
    ensures |r| == |shape|
    ensures forall i :: 0 <= i < |shape| ==> r[i] == JInt(shape[i])
  {
    if shape == [] then [] else [JInt(shape[0])] + MatrixItems(shape[1..])
  }

  /** The rounded voxel sizes; the rounding itself is the caller's `round3`. */
  function ResolutionItems(zooms: seq<real>, round3: real -> real): (r: seq<Json>)
    ensures |r| == |zooms|
    ensures forall i :: 0 <= i < |zooms| ==> r[i] == JReal(round3(zooms[i]))
  {
    if zooms == [] then [] else [JReal(round3(zooms[0]))] + ResolutionItems(zooms[1..], round3)
  }

  /** One FoV entry before truncation: the number of voxels times the voxel size. */
  function Extent(mx: int, res: real): real
  {
    mx as real * res
  }

  /**
   * `[mx*res for mx, res in zip(matrix, resolution)]`: zip stops at the
   * shorter input, and each product uses the unrounded voxel size.
   */
  function FovProducts(shape: seq<int>, zooms: seq<real>): (r: seq<real>)
    ensures |r| == if |shape| <= |zooms| then |shape| else |zooms|
    ensures forall i :: 0 <= i < |r| ==> r[i] == Extent(shape[i], zooms[i])
  {
    if shape == [] || zooms == [] then []
    else [Extent(shape[0], zooms[0])] + FovProducts(shape[1..], zooms[1..])
  }

  /** `[int(x) for x in fov]`: each product truncated toward zero. */
  function TruncItems(fov: seq<real>): (r: seq<Json>)
    ensures |r| == |fov|
    ensures forall i :: 0 <= i < |fov| ==> r[i] == JInt(Trunc(fov[i]))
  {
    if fov == [] then [] else [JInt(Trunc(fov[0]))] + TruncItems(fov[1..])
  }

  /** The FoV list written for a header. */
  function FovItems(h: Header): (r: seq<Json>)
    ensures |r| == if |h.shape| <= |h.zooms| then |h.shape| else |h.zooms|
    ensures forall i :: 0 <= i < |r| ==> r[i] == JInt(Trunc(Extent(h.shape[i], h.zooms[i])))
  {
    var fov := FovProducts(h.shape, h.zooms);
    var r := TruncItems(fov);
    assert forall i :: 0 <= i < |r| ==> fov[i] == Extent(h.shape[i], h.zooms[i]);
    r
  }

  /** A parameter map after the header of its volume has been read into it. */
  function WithGeometry(seqparam: map<string, Json>, h: Header, round3: real -> real): (r: map<string, Json>)
    ensures r.Keys == seqparam.Keys + {MatrixKey, ResolutionKey, FovKey}
    ensures forall k :: k in seqparam && k != MatrixKey && k != ResolutionKey && k != FovKey ==> r[k] == seqparam[k]
    ensures r[MatrixKey].JArray? && |r[MatrixKey].items| == |h.shape|
    ensures forall i :: 0 <= i < |h.shape| ==> r[MatrixKey].items[i] == JInt(h.shape[i])
    ensures r[ResolutionKey].JArray? && |r[ResolutionKey].items| == |h.zooms|
    ensures forall i :: 0 <= i < |h.zooms| ==> r[ResolutionKey].items[i] == JReal(round3(h.zooms[i]))
    ensures r[FovKey].JArray?
    ensures |r[FovKey].items| == if |h.shape| <= |h.zooms| then |h.shape| else |h.zooms|
    ensures forall i :: 0 <= i < |r[FovKey].items| ==>
              r[FovKey].items[i] == JInt(Trunc(Extent(h.shape[i], h.zooms[i])))
  {
    var fov := FovItems(h);
    var r := seqparam[MatrixKey := JArray(MatrixItems(h.shape))]
                     [ResolutionKey := JArray(ResolutionItems(h.zooms, round3))]
                     [FovKey := JArray(fov)];
    assert r[FovKey].items == fov;
    r
  }

  /** Reading the same header twice leaves the map as reading it once. */
  lemma WithGeometryIdempotent(seqparam: map<string, Json>, h: Header, round3: real -> real)
    ensures WithGeometry(WithGeometry(seqparam, h, round3), h, round3) == WithGeometry(seqparam, h, round3)
  {
  }

  /** `seqparam.update(bidsfields)`: the classification fields win on a collision. */
  function Merge(seqparam: map<string, Json>, bidsfields: map<string, Json>): (r: map<string, Json>)
    ensures r.Keys == seqparam.Keys + bidsfields.Keys
    ensures forall k :: k in bidsfields ==> r[k] == bidsfields[k]
    ensures forall k :: k in seqparam && k !in bidsfields ==> r[k] == seqparam[k]
  {
    seqparam + bidsfields
  }

  /** Merging the same fields a second time changes nothing. */
  lemma MergeIdempotent(seqparam: map<string, Json>, bidsfields: map<string, Json>)
    ensures Merge(Merge(seqparam, bidsfields), bidsfields) == Merge(seqparam, bidsfields)
  {
  }

  /** The body of the loop of `read_all_nifti_header`, for one volume. */
  method ReadNiftiHeader(vol: Volume, load: string -> Header, round3: real -> real)
    modifies vol`seqparam
    ensures vol.seqparam == WithGeometry(old(vol.seqparam), load(vol.niiPath), round3)
  {
    var h := load(vol.niiPath);
    vol.seqparam := vol.seqparam[MatrixKey := JArray(MatrixItems(h.shape))];
    vol.seqparam := vol.seqparam[ResolutionKey := JArray(ResolutionItems(h.zooms, round3))];
    vol.seqparam := vol.seqparam[FovKey := JArray(FovItems(h))];
  }

  /**
   * `read_all_nifti_header`: every volume of the list gets Matrix, Resolution
   * and FoV from the header at its path; nothing else in any map changes.
   * A volume listed twice is simply processed twice, to the same effect.
   */
  method ReadAllNiftiHeader(volumeList: seq<Volume>, load: string -> Header, round3: real -> real)
    modifies volumeList`seqparam
    ensures forall v :: v in volumeList ==>
              v.seqparam == WithGeometry(old(v.seqparam), load(v.niiPath), round3)
    ensures forall v :: v in volumeList ==> v.bidsfields == old(v.bidsfields)
  {
    var i := 0;
    while i < |volumeList|
      invariant 0 <= i <= |volumeList|
      invariant forall v :: v in volumeList[..i] ==>
                  v.seqparam == WithGeometry(old(v.seqparam), load(v.niiPath), round3)
      invariant forall v :: v in volumeList && v !in volumeList[..i] ==> v.seqparam == old(v.seqparam)
    {
      var vol := volumeList[i];
      WithGeometryIdempotent(old(vol.seqparam), load(vol.niiPath), round3);
      ReadNiftiHeader(vol, load, round3);
      assert volumeList[..i + 1] == volumeList[..i] + [vol];
      i := i + 1;
    }
    assert volumeList[..i] == volumeList;
  }

  /**
   * `concat_bidsfields_to_seqparam`: each volume's classification fields are
   * merged into its parameter map; the classification maps are not touched.
   */
  method ConcatBidsfieldsToSeqparam(volumeList: seq<Volume>)
    modifies volumeList`seqparam
    ensures forall v :: v in volumeList ==> v.seqparam == Merge(old(v.seqparam), v.bidsfields)
    ensures forall v :: v in volumeList ==> v.bidsfields == old(v.bidsfields)
  {
    var i := 0;
    while i < |volumeList|
      invariant 0 <= i <= |volumeList|
      invariant forall v :: v in volumeList[..i] ==> v.seqparam == Merge(old(v.seqparam), v.bidsfields)
      invariant forall v :: v in volumeList && v !in volumeList[..i] ==> v.seqparam == old(v.seqparam)
    {
      var vol := volumeList[i];
      MergeIdempotent(old(vol.seqparam), vol.bidsfields);
      vol.seqparam := vol.seqparam + vol.bidsfields;
      assert volumeList[..i + 1] == volumeList[..i] + [vol];
      i := i + 1;
    }
    assert volumeList[..i] == volumeList;
  }
}
