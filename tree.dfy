/** The buffer and leaf-scale logic of src/components/DappledLight/tree.ts: the
    branch filter of `createBranchGeometry`, `mergeGeometries` (concatenating
    position, normal and index buffers with index rebasing), `smoothstep`, and
    the canopy-clearing scale of `createLeafData`, driven by the seeded
    Park–Miller generator. Vectors are abstracted away: a branch segment keeps
    its length, radius and level, and a leaf keeps the distance of its shadow
    from the clearing's centre. */
module Tree {
  import opened Common
  import opened ParkMiller
  import LSystem

  /** A buffer geometry: flat xyz position and normal arrays and an optional index array. */
  datatype Geometry = Geometry(positions: seq<real>, normals: seq<real>, index: Option<seq<int>>)

  /** The empty `THREE.BufferGeometry`. */
  const EmptyGeometry: Geometry := Geometry([], [], None)

  /** Every geometry three.js builds here has one normal per vertex and 3 floats per vertex. */
  predicate WellFormed(g: Geometry) {
    |g.positions| % 3 == 0 && |g.normals| == |g.positions|
  }

  /** `getAttribute("position").count`. */
  function VertCount(g: Geometry): nat {
    |g.positions| / 3
  }

  /** `g.index ? g.index.count : 0`. */
  function IndexCount(g: Geometry): nat {
    match g.index
    case None => 0
    case Some(ix) => |ix|
  }

  function IndicesOf(g: Geometry): seq<int> {
    match g.index
    case None => []
    case Some(ix) => ix
  }

  /** The vertices of all geometries, in order. */
  function TotalVerts(gs: seq<Geometry>): nat {
    if |gs| == 0 then 0 else TotalVerts(gs[..|gs| - 1]) + VertCount(gs[|gs| - 1])
  }

  /** The indices of all geometries, in order. */
  function TotalIndices(gs: seq<Geometry>): nat {
    if |gs| == 0 then 0 else TotalIndices(gs[..|gs| - 1]) + IndexCount(gs[|gs| - 1])
  }

  /** The position arrays laid end to end. */
  function MergedPositions(gs: seq<Geometry>): seq<real> {
    if |gs| == 0 then [] else MergedPositions(gs[..|gs| - 1]) + gs[|gs| - 1].positions
  }

  /** The normal arrays laid end to end. */
  function MergedNormals(gs: seq<Geometry>): seq<real> {
    if |gs| == 0 then [] else MergedNormals(gs[..|gs| - 1]) + gs[|gs| - 1].normals
  }

  /** An index block shifted by the number of vertices that precede its geometry. */
  function Rebase(ix: seq<int>, offset: int): (r: seq<int>)
    ensures |r| == |ix| && forall j :: 0 <= j < |ix| ==> r[j] == ix[j] + offset
  {
    seq(|ix|, j requires 0 <= j < |ix| => ix[j] + offset)
  }

  /** The index blocks laid end to end, each rebased onto its geometry's first vertex. */
  function MergedIndices(gs: seq<Geometry>): seq<int> {
    if |gs| == 0 then []
    else MergedIndices(gs[..|gs| - 1]) + Rebase(IndicesOf(gs[|gs| - 1]), TotalVerts(gs[..|gs| - 1]))
  }

  /** The merged buffers have 3 floats per vertex of every geometry and one entry per index. */
  lemma {:induction false} MergedSizes(gs: seq<Geometry>)
    requires forall i :: 0 <= i < |gs| ==> WellFormed(gs[i])
    ensures |MergedPositions(gs)| == 3 * TotalVerts(gs)
    ensures |MergedNormals(gs)| == 3 * TotalVerts(gs)
    ensures |MergedIndices(gs)| == TotalIndices(gs)
  {
    if |gs| > 0 {
      MergedSizes(gs[..|gs| - 1]);
    }
  }

  /** The totals of a prefix of the geometries are at most the totals of all of them. */
  lemma {:induction false} TotalsPrefix(gs: seq<Geometry>, k: nat)
    requires k <= |gs|
    ensures TotalVerts(gs[..k]) <= TotalVerts(gs) && TotalIndices(gs[..k]) <= TotalIndices(gs)
    decreases |gs| - k
  {
    if k == |gs| {
      assert gs[..k] == gs;
    } else {
      var init := gs[..|gs| - 1];
      assert init[..k] == gs[..k];
      TotalsPrefix(init, k);
    }
  }

  /** Merging a prefix of the geometries gives a prefix of each merged buffer. */
  lemma {:induction false} MergedPrefix(gs: seq<Geometry>, k: nat)
    requires k <= |gs|
    ensures MergedPositions(gs[..k]) <= MergedPositions(gs)
    ensures MergedNormals(gs[..k]) <= MergedNormals(gs)
    ensures MergedIndices(gs[..k]) <= MergedIndices(gs)
    decreases |gs| - k
  {
    if k == |gs| {
      assert gs[..k] == gs;
    } else {
      var init := gs[..|gs| - 1];
      assert init[..k] == gs[..k];
      MergedPrefix(init, k);
    }
  }

  /** Appending geometry k to the first k extends every total and buffer by its own share. */
  lemma MergeStep(gs: seq<Geometry>, k: nat)
    requires k < |gs|
    ensures TotalVerts(gs[..k + 1]) == TotalVerts(gs[..k]) + VertCount(gs[k])
    ensures TotalIndices(gs[..k + 1]) == TotalIndices(gs[..k]) + IndexCount(gs[k])
    ensures MergedPositions(gs[..k + 1]) == MergedPositions(gs[..k]) + gs[k].positions
    ensures MergedNormals(gs[..k + 1]) == MergedNormals(gs[..k]) + gs[k].normals
    ensures MergedIndices(gs[..k + 1]) == MergedIndices(gs[..k]) + Rebase(IndicesOf(gs[k]), TotalVerts(gs[..k]))
  {
    assert gs[..k + 1][..k] == gs[..k];
  }

  /** The block of a concatenation that the second part occupies, seen through any extension. */
  lemma SliceOfExtension<T>(x: seq<T>, y: seq<T>, whole: seq<T>)
    requires x + y <= whole
    ensures |x| + |y| <= |whole| && whole[|x| .. |x| + |y|] == y
  {
    assert whole[|x| .. |x| + |y|] == (x + y)[|x| .. |x| + |y|];
  }

  /** Geometry k's positions and normals are copied verbatim starting at float
      3·(vertices before it). */
  lemma {:induction false} VertexBlockOfGeometry(gs: seq<Geometry>, k: nat)
    requires k < |gs|
    requires forall i :: 0 <= i < |gs| ==> WellFormed(gs[i])
    ensures var v0, v1 := TotalVerts(gs[..k]), TotalVerts(gs[..k + 1]);
      v0 <= v1 && 3 * v1 <= |MergedPositions(gs)| && 3 * v1 <= |MergedNormals(gs)| &&
      MergedPositions(gs)[3 * v0 .. 3 * v1] == gs[k].positions &&
      MergedNormals(gs)[3 * v0 .. 3 * v1] == gs[k].normals
  {
    var pre, g := gs[..k], gs[k];
    MergeStep(gs, k);
    MergedPrefix(gs, k + 1);
    MergedSizes(pre);
    SliceOfExtension(MergedPositions(pre), g.positions, MergedPositions(gs));
    SliceOfExtension(MergedNormals(pre), g.normals, MergedNormals(gs));
  }

  /** Geometry k's indices, rebased by the number of vertices before it, start
      right after the indices of the geometries before it. */
  lemma {:induction false} IndexBlockOfGeometry(gs: seq<Geometry>, k: nat)
    requires k < |gs|
    requires forall i :: 0 <= i < |gs| ==> WellFormed(gs[i])
    ensures var i0, i1 := TotalIndices(gs[..k]), TotalIndices(gs[..k + 1]);
      i0 <= i1 <= |MergedIndices(gs)| &&
      MergedIndices(gs)[i0 .. i1] == Rebase(IndicesOf(gs[k]), TotalVerts(gs[..k]))
  {
    var pre, g := gs[..k], gs[k];
    MergeStep(gs, k);
    MergedPrefix(gs, k + 1);
    MergedSizes(pre);
    SliceOfExtension(MergedIndices(pre), Rebase(IndicesOf(g), TotalVerts(pre)), MergedIndices(gs));
  }

  /** `dst.set(src, at)` on a typed array. */
  method CopyInto(dst: array<real>, at: nat, src: seq<real>)
    requires at + |src| <= dst.Length
    modifies dst
    ensures dst[..at + |src|] == old(dst[..at]) + src
  {
    forall j | 0 <= j < |src| {
      dst[at + j] := src[j];
    }
    assert dst[..at + |src|] == old(dst[..at]) + src by {
      assert forall j :: 0 <= j < at + |src| ==> dst[..at + |src|][j] == (old(dst[..at]) + src)[j];
    }
  }

  /** The inner loop writing one geometry's indices, shifted by its vertex offset. */
  method RebaseInto(dst: array<int>, at: nat, ix: seq<int>, offset: int)
    requires at + |ix| <= dst.Length
    modifies dst
    ensures dst[..at + |ix|] == old(dst[..at]) + Rebase(ix, offset)
  {
    var i := 0;
    while i < |ix|
      invariant 0 <= i <= |ix|
      invariant dst[..at + i] == old(dst[..at]) + Rebase(ix, offset)[..i]
    {
      dst[at + i] := ix[i] + offset;
      assert Rebase(ix, offset)[..i + 1] == Rebase(ix, offset)[..i] + [ix[i] + offset];
      i := i + 1;
    }
    assert Rebase(ix, offset)[..|ix|] == Rebase(ix, offset);
  }

  /** The first loop of `mergeGeometries`: the vertex and index totals. */
  method Totals(geos: seq<Geometry>) returns (totalVerts: nat, totalIndices: nat)
    ensures totalVerts == TotalVerts(geos) && totalIndices == TotalIndices(geos)
  {
    totalVerts, totalIndices := 0, 0;
    var k := 0;
    while k < |geos|
      invariant 0 <= k <= |geos|
      invariant totalVerts == TotalVerts(geos[..k]) && totalIndices == TotalIndices(geos[..k])
    {
      MergeStep(geos, k);
      totalVerts := totalVerts + VertCount(geos[k]);
      totalIndices := totalIndices + IndexCount(geos[k]);
      k := k + 1;
    }
    assert geos[..|geos|] == geos;
  }

  /** Geometry k's buffers fit in the merged arrays after those of the geometries before it. */
  lemma {:induction false} CopyFits(gs: seq<Geometry>, k: nat)
    requires k < |gs|
    requires forall i :: 0 <= i < |gs| ==> WellFormed(gs[i])
    ensures 3 * TotalVerts(gs[..k]) + |gs[k].positions| <= 3 * TotalVerts(gs)
    ensures |gs[k].normals| == |gs[k].positions| == 3 * VertCount(gs[k])
    ensures TotalIndices(gs[..k]) + IndexCount(gs[k]) <= TotalIndices(gs)
  {
    MergeStep(gs, k);
    TotalsPrefix(gs, k + 1);
  }

  /** `mergeGeometries`: sizes the typed arrays from the totals, then copies each
      geometry's positions and normals at the running vertex offset and its
      indices, rebased, at the running index offset. No index buffer is set when
      there are no indices at all. */
  method MergeGeometries(geos: seq<Geometry>) returns (merged: Geometry)
    requires forall i :: 0 <= i < |geos| ==> WellFormed(geos[i])
    ensures merged.positions == MergedPositions(geos)
    ensures merged.normals == MergedNormals(geos)
    ensures merged.index == (if TotalIndices(geos) > 0 then Some(MergedIndices(geos)) else None)
  {
    var totalVerts, totalIndices := Totals(geos);
    var positions := new real[totalVerts * 3];
    var normals := new real[totalVerts * 3];
    var indices := new int[totalIndices];

    var vertOffset := 0;
    var idxOffset := 0;
    var k := 0;
    while k < |geos|
      invariant 0 <= k <= |geos|
      invariant vertOffset == TotalVerts(geos[..k]) && idxOffset == TotalIndices(geos[..k])
      invariant vertOffset <= totalVerts && idxOffset <= totalIndices
      invariant positions[..3 * vertOffset] == MergedPositions(geos[..k])
      invariant normals[..3 * vertOffset] == MergedNormals(geos[..k])
      invariant indices[..idxOffset] == MergedIndices(geos[..k])
    {
      AppendGeometry(geos, k, positions, normals, indices);
      vertOffset := vertOffset + VertCount(geos[k]);
      idxOffset := idxOffset + IndexCount(geos[k]);
      k := k + 1;
    }
    assert geos[..|geos|] == geos;
    MergedSizes(geos);
    assert positions[..] == positions[..3 * vertOffset];
    assert normals[..] == normals[..3 * vertOffset];
    assert indices[..] == indices[..idxOffset];
    merged := Geometry(positions[..], normals[..], if totalIndices > 0 then Some(indices[..]) else None);
  }

  /** One iteration of `mergeGeometries`' copy loop: geometry k's buffers are
      written after those of the geometries before it. */
  method AppendGeometry(geos: seq<Geometry>, k: nat, positions: array<real>, normals: array<real>, indices: array<int>)
    requires k < |geos|
    requires forall i :: 0 <= i < |geos| ==> WellFormed(geos[i])
    requires positions != normals
    requires positions.Length == normals.Length == 3 * TotalVerts(geos) && indices.Length == TotalIndices(geos)
    requires TotalVerts(geos[..k]) <= TotalVerts(geos) && TotalIndices(geos[..k]) <= TotalIndices(geos)
    requires positions[..3 * TotalVerts(geos[..k])] == MergedPositions(geos[..k])
    requires normals[..3 * TotalVerts(geos[..k])] == MergedNormals(geos[..k])
    requires indices[..TotalIndices(geos[..k])] == MergedIndices(geos[..k])
    modifies positions, normals, indices
    ensures TotalVerts(geos[..k + 1]) == TotalVerts(geos[..k]) + VertCount(geos[k])
    ensures TotalIndices(geos[..k + 1]) == TotalIndices(geos[..k]) + IndexCount(geos[k])
    ensures TotalVerts(geos[..k + 1]) <= TotalVerts(geos) && TotalIndices(geos[..k + 1]) <= TotalIndices(geos)
    ensures positions[..3 * TotalVerts(geos[..k + 1])] == MergedPositions(geos[..k + 1])
    ensures normals[..3 * TotalVerts(geos[..k + 1])] == MergedNormals(geos[..k + 1])
    ensures indices[..TotalIndices(geos[..k + 1])] == MergedIndices(geos[..k + 1])
  {
    var g := geos[k];
    var vertOffset := TotalVerts(geos[..k]);
    MergeStep(geos, k);
    CopyFits(geos, k);
    CopyInto(positions, 3 * vertOffset, g.positions);
    CopyInto(normals, 3 * vertOffset, g.normals);
    if g.index.Some? {
      RebaseInto(indices, TotalIndices(geos[..k]), g.index.value, vertOffset);
    } else {
      assert MergedIndices(geos[..k + 1]) == MergedIndices(geos[..k]);
    }
  }

  /** The tree data's `BranchSegment`s, as the L-system produces them. */
  type BranchSeg = LSystem.BranchSeg

  /** `createBranchGeometry` keeps a segment iff its level lies in [minLevel, maxLevel]
      and it is at least 0.001 long; `maxLevel` None stands for the default `Infinity`. */
  predicate Kept(b: BranchSeg, minLevel: int, maxLevel: Option<int>) {
    minLevel <= b.level && (maxLevel.None? || b.level <= maxLevel.value) && b.length >= 0.001
  }

  /** The segments that get a cylinder, in their original order. */
  function KeptSegments(bs: seq<BranchSeg>, minLevel: int, maxLevel: Option<int>): seq<BranchSeg> {
    if |bs| == 0 then []
    else KeptSegments(bs[..|bs| - 1], minLevel, maxLevel)
         + (if Kept(bs[|bs| - 1], minLevel, maxLevel) then [bs[|bs| - 1]] else [])
  }

  /** A segment gets a cylinder exactly when it is one of the input segments that passes the filter. */
  lemma {:induction false} KeptSegmentsExactly(bs: seq<BranchSeg>, minLevel: int, maxLevel: Option<int>)
    ensures forall b :: b in KeptSegments(bs, minLevel, maxLevel) <==> b in bs && Kept(b, minLevel, maxLevel)
    ensures |KeptSegments(bs, minLevel, maxLevel)| <= |bs|
  {
    if |bs| > 0 {
      var init := bs[..|bs| - 1];
      KeptSegmentsExactly(init, minLevel, maxLevel);
      assert bs == init + [bs[|bs| - 1]];
    }
  }

  /** One cylinder per segment, in order. */
  function Cylinders(bs: seq<BranchSeg>, cylinder: BranchSeg -> Geometry): (r: seq<Geometry>)
    ensures |r| == |bs| && forall j :: 0 <= j < |bs| ==> r[j] == cylinder(bs[j])
  {
    seq(|bs|, j requires 0 <= j < |bs| => cylinder(bs[j]))
  }

  /** `createBranchGeometry`: a cylinder per kept segment, merged; the empty
      geometry when no segment is kept. The cylinder construction is three.js's
      and is a parameter here. */
  method CreateBranchGeometry(branches: seq<BranchSeg>, minLevel: int, maxLevel: Option<int>,
                              cylinder: BranchSeg -> Geometry) returns (g: Geometry)
    requires forall b :: WellFormed(cylinder(b))
    ensures |KeptSegments(branches, minLevel, maxLevel)| == 0 ==> g == EmptyGeometry
    ensures |KeptSegments(branches, minLevel, maxLevel)| > 0 ==>
      var geos := Cylinders(KeptSegments(branches, minLevel, maxLevel), cylinder);
      g.positions == MergedPositions(geos) && g.normals == MergedNormals(geos) &&
      g.index == (if TotalIndices(geos) > 0 then Some(MergedIndices(geos)) else None)
  {
    var kept: seq<BranchSeg> := [];
    var geos: seq<Geometry> := [];
    var k := 0;
    while k < |branches|
      invariant 0 <= k <= |branches|
      invariant kept == KeptSegments(branches[..k], minLevel, maxLevel)
      invariant geos == Cylinders(kept, cylinder)
    {
      var b := branches[k];
      assert branches[..k + 1][..k] == branches[..k];
      if Kept(b, minLevel, maxLevel) {
        kept := kept + [b];
        geos := geos + [cylinder(b)];
      }
      k := k + 1;
    }
    assert branches[..|branches|] == branches;
    if |geos| == 0 {
      return EmptyGeometry;
    }
    g := MergeGeometries(geos);
  }

  /** `smoothstep(edge0, edge1, x)`: Hermite interpolation of the clamped ratio. */
  function Smoothstep(edge0: real, edge1: real, x: real): real
    requires edge0 < edge1
  {
    var t := Clamp01((x - edge0) / (edge1 - edge0));
    t * t * (3.0 - 2.0 * t)
  }

  /** t²(3 − 2t) stays in [0, 1] for t in [0, 1]: 1 − t²(3 − 2t) = (1 − t)²(1 + 2t). */
  lemma HermiteInUnitInterval(t: real)
    requires 0.0 <= t <= 1.0
    ensures 0.0 <= t * t * (3.0 - 2.0 * t) <= 1.0
  {
    var u := 1.0 - t;
    assert t * t * (3.0 - 2.0 * t) == 3.0 * (t * t) - 2.0 * (t * t * t);
    assert u * u * (1.0 + 2.0 * t) == 1.0 - 3.0 * (t * t) + 2.0 * (t * t * t);
    MulNonneg(t * t, 3.0 - 2.0 * t);
    MulNonneg(u * u, 1.0 + 2.0 * t);
  }

  /** Smoothstep lies in [0, 1]: 0 at or below edge0, 1 at or above edge1. */
  lemma {:induction false} SmoothstepBounds(edge0: real, edge1: real, x: real)
    requires edge0 < edge1
    ensures 0.0 <= Smoothstep(edge0, edge1, x) <= 1.0
    ensures x <= edge0 ==> Smoothstep(edge0, edge1, x) == 0.0
    ensures x >= edge1 ==> Smoothstep(edge0, edge1, x) == 1.0
  {
    var q := (x - edge0) / (edge1 - edge0);
    var c := Clamp01(q);
    HermiteInUnitInterval(c);
    assert Smoothstep(edge0, edge1, x) == c * c * (3.0 - 2.0 * c);
    QuotientBounds(x - edge0, edge1 - edge0);
  }

  /** `strength + (1 - strength) * factor`, the clearing's scale multiplier. */
  function ClearingMultiplier(strength: real, factor: real): real {
    strength + (1.0 - strength) * factor
  }

  /** With strength and factor in [0, 1] the multiplier lies in [strength, 1]. */
  lemma ClearingMultiplierBounds(strength: real, factor: real)
    requires 0.0 <= strength <= 1.0 && 0.0 <= factor <= 1.0
    ensures strength <= ClearingMultiplier(strength, factor) <= 1.0
  {
    MulNonneg(1.0 - strength, factor);
    MulNonneg(1.0 - strength, 1.0 - factor);
    assert (1.0 - strength) * (1.0 - factor) == (1.0 - strength) - (1.0 - strength) * factor;
  }

  lemma StepNUnfold(s: int, n: nat)
    ensures StepN(s, n + 5) == Step(Step(Step(Step(Step(StepN(s, n))))))
  {
    assert StepN(s, n + 5) == Step(StepN(s, n + 4));
    assert StepN(s, n + 4) == Step(StepN(s, n + 3));
    assert StepN(s, n + 3) == Step(StepN(s, n + 2));
    assert StepN(s, n + 2) == Step(StepN(s, n + 1));
  }

  /** The seed of `createLeafData`'s generator. */
  const LeafSeed: int := 137

  /** The scale of the leaf whose scale draw came from generator state `s`:
      `0.4 + rand()`, times the clearing multiplier when a clearing is given
      (`dist` is the leaf shadow's normalised distance from the clearing centre). */
  function LeafScale(s: int, dist: real, clearing: Option<real>): real {
    var base := 0.4 + Output(s);
    match clearing
    case None => base
    case Some(strength) => base * ClearingMultiplier(strength, Smoothstep(0.3, 1.0, dist))
  }

  /** The per-leaf loop of `createLeafData`: four draws for the tilt axis and
      angle, then the fifth for the scale; `dists[i]` is leaf i's shadow distance. */
  method LeafScales(dists: seq<real>, clearing: Option<real>) returns (scales: seq<real>)
    ensures |scales| == |dists|
    ensures forall i :: 0 <= i < |dists| ==> scales[i] == LeafScale(StepN(LeafSeed, 5 * i + 5), dists[i], clearing)
  {
    var rand := new SeededRandom(LeafSeed);
    scales := [];
    var i := 0;
    while i < |dists|
      invariant 0 <= i <= |dists|
      invariant rand.s == StepN(LeafSeed, 5 * i)
      invariant |scales| == i
      invariant forall j :: 0 <= j < i ==> scales[j] == LeafScale(StepN(LeafSeed, 5 * j + 5), dists[j], clearing)
    {
      ghost var n := 5 * i;
      var ax := rand.Next();
      var ay := rand.Next();
      var az := rand.Next();
      var tilt := rand.Next();
      var r := rand.Next();
      assert rand.s == StepN(LeafSeed, n + 5) by {
        StepNUnfold(LeafSeed, n);
      }
      var s := LeafScale(rand.s, dists[i], clearing);
      scales := scales + [s];
      i := i + 1;
    }
  }

  /** Every leaf scale lies in [0.4·strength, 1.4) for a clearing strength in
      [0, 1], and in [0.4, 1.4) without a clearing. */
  lemma {:induction false} LeafScaleBounds(i: nat, dist: real, clearing: Option<real>)
    requires clearing.Some? ==> 0.0 <= clearing.value <= 1.0
    ensures var sc := LeafScale(StepN(LeafSeed, 5 * i + 5), dist, clearing);
      sc < 1.4 && sc >= 0.4 * clearing.GetOr(1.0)
  {
    var s := StepN(LeafSeed, 5 * i + 5);
    StepNValid(LeafSeed, 5 * i + 5);
    var r := Output(s);
    assert 0.0 <= r < 1.0 by {
      assert 1 <= s < Modulus;
    }
    if clearing.Some? {
      var strength := clearing.value;
      var f := Smoothstep(0.3, 1.0, dist);
      SmoothstepBounds(0.3, 1.0, dist);
      var m := ClearingMultiplier(strength, f);
      ClearingMultiplierBounds(strength, f);
      ScaledBaseBounds(0.4 + r, m, strength);
    }
  }

  lemma ScaledBaseBounds(base: real, m: real, strength: real)
    requires 0.4 <= base < 1.4 && 0.0 <= strength <= m <= 1.0
    ensures 0.4 * strength <= base * m < 1.4
  {
    assert base * m <= base * 1.0;
    assert base * m >= 0.4 * m;
    assert 0.4 * m >= 0.4 * strength;
  }
}
