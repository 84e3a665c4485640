/** The spine-based tree generator of src/components/DappledLight/lsystem.ts:
    three spines of 12 level-0 segments each, with recursive sub-branches of
    levels 1 to 3 growing at the joints and leaves at the level-2 and level-3
    tips, all drawn from one shared seeded Park–Miller generator. Positions and
    directions are abstracted away: a segment keeps its length, radius and
    level, and a leaf the level of the tip it grows at. Every `rand()` call of
    lsystem.ts is made, in its order, so the generator's state
    advances exactly as there. */
module LSystem {
  import opened Common
  import opened ParkMiller

  const SpineSegments: int := 12
  const SubBranchDecay: real := 0.55
  const SubBranchMaxLevel: int := 3
  const RadiusStart: real := 0.6
  const RadiusDecay: real := 0.75
  const DefaultSeed: int := 42
  const LeavesPerTip: int := 3
  const DefaultSpineLength: real := 50.0
  const DefaultSubBranchLength: real := 6.0

  /** A `BranchSegment`; `length` is the distance from its start to its end. */
  datatype BranchSeg = BranchSeg(length: real, radius: real, level: int)

  /** A `LeafPosition`, kept as the level of the branch tip it was placed at. */
  datatype LeafPos = LeafPos(level: int)

  /** The segments of one level, in order. */
  function OfLevel(segs: seq<BranchSeg>, level: int): seq<BranchSeg> {
    if |segs| == 0 then []
    else OfLevel(segs[..|segs| - 1], level) + (if segs[|segs| - 1].level == level then [segs[|segs| - 1]] else [])
  }

  lemma {:induction false} OfLevelAppend(a: seq<BranchSeg>, b: seq<BranchSeg>, level: int)
    ensures OfLevel(a + b, level) == OfLevel(a, level) + OfLevel(b, level)
    decreases |b|
  {
    if |b| == 0 {
      assert a + b == a;
    } else {
      var b' := b[..|b| - 1];
      assert (a + b)[..|a + b| - 1] == a + b';
      OfLevelAppend(a, b', level);
    }
  }

  /** No segment of a level below all the given ones. */
  lemma {:induction false} OfLevelAbove(segs: seq<BranchSeg>, level: int)
    requires forall j :: 0 <= j < |segs| ==> segs[j].level > level
    ensures OfLevel(segs, level) == []
  {
    if |segs| > 0 {
      OfLevelAbove(segs[..|segs| - 1], level);
    }
  }

  /** A sub-branch's own segment comes first and every descendant is deeper:
      the sub-tree holds exactly one segment of its root's level and none above. */
  lemma {:induction false} OfLevelSubtree(segs: seq<BranchSeg>, level: int, upper: int)
    requires |segs| > 0 && segs[0].level == level && upper <= level
    requires forall j :: 0 < j < |segs| ==> segs[j].level > level
    ensures OfLevel(segs, level) == [segs[0]]
    ensures upper < level ==> OfLevel(segs, upper) == []
  {
    assert segs == [segs[0]] + segs[1..];
    OfLevelAppend([segs[0]], segs[1..], level);
    OfLevelAbove(segs[1..], level);
    assert OfLevel([segs[0]], level) == [segs[0]] by {
      assert [segs[0]][..0] == [];
    }
    if upper < level {
      OfLevelAppend([segs[0]], segs[1..], upper);
      OfLevelAbove(segs[1..], upper);
      assert OfLevel([segs[0]], upper) == [] by {
        assert [segs[0]][..0] == [];
      }
    }
  }

  /** `x` shrunk `n` times by `factor`: the length or radius `n` levels below a segment. */
  function Decayed(x: real, factor: real, n: nat): real
    decreases n
  {
    if n == 0 then x else Decayed(x * factor, factor, n - 1)
  }

  /** `radius` of spine segment s: `0.6 * (1 - (s / 12) * 0.6)`. */
  function SpineRadius(s: int): real {
    RadiusStart * (1.0 - (s as real / SpineSegments as real) * 0.6)
  }

  /** The spine tapers: each segment is strictly thinner than the ones before it. */
  lemma SpineRadiusDecreasing(s: int, t: int)
    requires s < t
    ensures SpineRadius(t) < SpineRadius(s)
  {
  }

  /** ... and never reaches zero along the 12 segments. */
  lemma SpineRadiusPositive(s: int)
    requires 0 <= s < SpineSegments
    ensures 0.0 < SpineRadius(s) <= RadiusStart
  {
  }

  /** Sub-branches spawned at joint s: none at the first, 3 on every third, else 2. */
  function SubBranchesAt(s: int): int {
    if s >= 1 then (if s % 3 == 0 then 3 else 2) else 0
  }

  /** Sub-branches spawned at the first n joints. */
  function SubBranchesBefore(n: nat): int {
    if n == 0 then 0 else SubBranchesBefore(n - 1) + SubBranchesAt(n - 1)
  }

  /** A spine has 25 level-1 sub-branches: 3 at joints 3, 6 and 9, 2 at the eight others. */
  lemma {:induction false} SubBranchesPerSpine()
    ensures SubBranchesBefore(12) == 25
  {
    assert SubBranchesBefore(4) == 7;
    assert SubBranchesBefore(8) == 16;
  }

  /** `2 + Math.floor(rand() * 2)`. */
  function ChildCount(r: real): int {
    2 + Floor(r * 2.0)
  }

  /** A draw in [0, 1) gives 2 or 3 children. */
  lemma ChildCountRange(r: real)
    requires 0.0 <= r < 1.0
    ensures ChildCount(r) == 2 || ChildCount(r) == 3
  {
  }

  /** A level-1 root's length `subBranchLen * (0.8 + rand() * 0.4)`. */
  function RootLength(subBranchLen: real, r: real): real {
    subBranchLen * (0.8 + r * 0.4)
  }

  /** A draw in [0, 1) puts a root's length in [0.8, 1.2) times the sub-branch length. */
  lemma RootLengthRange(subBranchLen: real, r: real)
    requires subBranchLen > 0.0 && 0.0 <= r < 1.0
    ensures 0.8 * subBranchLen <= RootLength(subBranchLen, r) < 1.2 * subBranchLen
  {
    assert subBranchLen * (r * 0.4) >= 0.0;
    assert subBranchLen * (r * 0.4) < subBranchLen * 0.4;
  }

  /** The first n segments of a spine with segments of length `segLen`. */
  function SpineSegs(n: nat, segLen: real): (r: seq<BranchSeg>)
    ensures |r| == n
    ensures forall k :: 0 <= k < n ==> r[k] == BranchSeg(segLen, SpineRadius(k), 0)
  {
    if n == 0 then [] else SpineSegs(n - 1, segLen) + [BranchSeg(segLen, SpineRadius(n - 1), 0)]
  }

  /** The segments of the first b sub-trees of a joint: b level-1 roots, no
      level-0 segment, every level in [1, 3]. */
  ghost predicate JointSoFar(segs: seq<BranchSeg>, b: int) {
    OfLevel(segs, 0) == [] && |OfLevel(segs, 1)| == b &&
    forall j :: 0 <= j < |segs| ==> 1 <= segs[j].level <= SubBranchMaxLevel
  }

  /** Appending one level-1 sub-tree adds one root to a joint. */
  lemma {:induction false} JointStep(before: seq<BranchSeg>, b: int, sub: seq<BranchSeg>)
    requires JointSoFar(before, b)
    requires |sub| > 0 && sub[0].level == 1
    requires forall j :: 0 < j < |sub| ==> 1 < sub[j].level <= SubBranchMaxLevel
    ensures JointSoFar(before + sub, b + 1)
  {
    OfLevelSubtree(sub, 1, 0);
    OfLevelAppend(before, sub, 0);
    OfLevelAppend(before, sub, 1);
    var next := before + sub;
    forall j | 0 <= j < |next|
      ensures 1 <= next[j].level <= SubBranchMaxLevel
    {
      if j >= |before| {
        assert next[j] == sub[j - |before|];
      }
    }
  }

  /** The segments of the first s iterations of the spine loop: their level-0
      segments are the first s spine segments, their level-1 roots are counted by
      SubBranchesBefore, and every level is in [0, 3]. */
  ghost predicate SpineSoFar(segs: seq<BranchSeg>, s: nat, segLen: real) {
    OfLevel(segs, 0) == SpineSegs(s, segLen) &&
    |OfLevel(segs, 1)| == SubBranchesBefore(s) &&
    forall j :: 0 <= j < |segs| ==> 0 <= segs[j].level <= SubBranchMaxLevel
  }

  /** After all 12 iterations: the 12 spine segments, 25 level-1 roots. */
  lemma {:induction false} SpineComplete(segs: seq<BranchSeg>, segLen: real)
    requires SpineSoFar(segs, SpineSegments, segLen)
    ensures OfLevel(segs, 0) == SpineSegs(SpineSegments, segLen)
    ensures |OfLevel(segs, 1)| == 25
    ensures forall j :: 0 <= j < |segs| ==> 0 <= segs[j].level <= SubBranchMaxLevel
  {
    SubBranchesPerSpine();
  }

  /** One iteration of the spine loop keeps its invariant: the level-0 segments
      so far are the first s + 1 spine segments, the level-1 roots are counted by
      SubBranchesBefore, and every level is in [0, 3]. */
  lemma {:induction false} SpineStepLevels(before: seq<BranchSeg>, s: nat, segLen: real, added: seq<BranchSeg>)
    requires SpineSoFar(before, s, segLen)
    requires OfLevel(added, 0) == [] && |OfLevel(added, 1)| == SubBranchesAt(s)
    requires forall j :: 0 <= j < |added| ==> 1 <= added[j].level <= SubBranchMaxLevel
    ensures SpineSoFar(before + ([BranchSeg(segLen, SpineRadius(s), 0)] + added), s + 1, segLen)
  {
    var seg := BranchSeg(segLen, SpineRadius(s), 0);
    var next := before + [seg] + added;
    AppendAssoc(before, [seg], added);
    OfLevelAppend(before + [seg], added, 0);
    OfLevelAppend(before + [seg], added, 1);
    OfLevelAppend(before, [seg], 0);
    OfLevelAppend(before, [seg], 1);
    assert [seg][..0] == [];
    forall j | 0 <= j < |next|
      ensures 0 <= next[j].level <= SubBranchMaxLevel
    {
      if j < |before| {
        assert next[j] == before[j];
      } else if j > |before| {
        assert next[j] == added[j - |before| - 1];
      }
    }
  }

  /** What the children of a level-`level` branch with `length` and `radius`
      have appended: deeper segments shrunk level by level, and leaves at
      level 2 or deeper. */
  ghost predicate ChildrenSoFar(segs: seq<BranchSeg>, leaves: seq<LeafPos>, length: real, radius: real, level: int) {
    (forall j :: 0 <= j < |segs| ==> level < segs[j].level <= SubBranchMaxLevel) &&
    (forall j :: 0 <= j < |segs| ==>
      segs[j].length == Decayed(length, SubBranchDecay, segs[j].level - level) &&
      segs[j].radius == Decayed(radius, RadiusDecay, segs[j].level - level)) &&
    (forall j :: 0 <= j < |leaves| ==> 2 <= leaves[j].level <= SubBranchMaxLevel && level < leaves[j].level)
  }

  /** One more child grown: its sub-tree, rooted one level deeper with length
      × 0.55 and radius × 0.75, keeps ChildrenSoFar and adds exactly its root
      to the segments one level deeper. */
  lemma {:induction false} ChildStep(segs: seq<BranchSeg>, leaves: seq<LeafPos>, length: real, radius: real,
                                     level: int, sub: seq<BranchSeg>, subLeaves: seq<LeafPos>)
    requires 1 <= level < SubBranchMaxLevel
    requires ChildrenSoFar(segs, leaves, length, radius, level)
    requires |sub| > 0 && sub[0] == BranchSeg(length * SubBranchDecay, radius * RadiusDecay, level + 1)
    requires forall j :: 0 < j < |sub| ==> level + 1 < sub[j].level <= SubBranchMaxLevel
    requires forall j :: 0 <= j < |sub| ==>
      sub[j].length == Decayed(length * SubBranchDecay, SubBranchDecay, sub[j].level - (level + 1)) &&
      sub[j].radius == Decayed(radius * RadiusDecay, RadiusDecay, sub[j].level - (level + 1))
    requires forall j :: 0 <= j < |subLeaves| ==> 2 <= subLeaves[j].level <= SubBranchMaxLevel && level + 1 <= subLeaves[j].level
    ensures ChildrenSoFar(segs + sub, leaves + subLeaves, length, radius, level)
    ensures OfLevel(segs + sub, level + 1) == OfLevel(segs, level + 1) + [sub[0]]
  {
    OfLevelAppend(segs, sub, level + 1);
    OfLevelSubtree(sub, level + 1, level);
    var all := segs + sub;
    forall j | 0 <= j < |all|
      ensures level < all[j].level <= SubBranchMaxLevel
      ensures all[j].length == Decayed(length, SubBranchDecay, all[j].level - level)
      ensures all[j].radius == Decayed(radius, RadiusDecay, all[j].level - level)
    {
      if j >= |segs| {
        assert all[j] == sub[j - |segs|];
      }
    }
    var allLeaves := leaves + subLeaves;
    forall j | 0 <= j < |allLeaves|
      ensures 2 <= allLeaves[j].level <= SubBranchMaxLevel && level < allLeaves[j].level
    {
      if j >= |leaves| {
        assert allLeaves[j] == subLeaves[j - |leaves|];
      }
    }
  }

  /** A branch followed by its children's segments and leaves: the children
      all lie deeper, their shrinking carries over from the branch's own
      length and radius, and exactly the children's roots lie one level
      deeper. */
  lemma {:induction false} RootAndChildren(length: real, radius: real, level: int, children: seq<BranchSeg>,
                                           ownLeaves: seq<LeafPos>, childLeaves: seq<LeafPos>)
    requires 1 <= level < SubBranchMaxLevel
    requires ChildrenSoFar(children, childLeaves, length, radius, level)
    requires forall j :: 0 <= j < |ownLeaves| ==> ownLeaves[j].level == level && 2 <= level
    ensures var added := [BranchSeg(length, radius, level)] + children;
      (forall j :: 0 < j < |added| ==> level < added[j].level <= SubBranchMaxLevel) &&
      (forall j :: 0 <= j < |added| ==>
        added[j].length == Decayed(length, SubBranchDecay, added[j].level - level) &&
        added[j].radius == Decayed(radius, RadiusDecay, added[j].level - level)) &&
      OfLevel(added, level + 1) == OfLevel(children, level + 1)
    ensures var newLeaves := ownLeaves + childLeaves;
      forall j :: 0 <= j < |newLeaves| ==> 2 <= newLeaves[j].level <= SubBranchMaxLevel && level <= newLeaves[j].level
  {
    var seg := BranchSeg(length, radius, level);
    var added := [seg] + children;
    OfLevelAppend([seg], children, level + 1);
    assert OfLevel([seg], level + 1) == [] by {
      assert [seg][..0] == [];
    }
    forall j | 0 <= j < |added|
      ensures 0 < j ==> level < added[j].level <= SubBranchMaxLevel
      ensures added[j].length == Decayed(length, SubBranchDecay, added[j].level - level)
      ensures added[j].radius == Decayed(radius, RadiusDecay, added[j].level - level)
    {
      if j > 0 {
        assert added[j] == children[j - 1];
      }
    }
    var newLeaves := ownLeaves + childLeaves;
    forall j | 0 <= j < |newLeaves|
      ensures 2 <= newLeaves[j].level <= SubBranchMaxLevel && level <= newLeaves[j].level
    {
      if j >= |ownLeaves| {
        assert newLeaves[j] == childLeaves[j - |ownLeaves|];
      }
    }
  }

  /** The shared `branches` and `leaves` arrays and the shared `rand` closure. */
  class Builder {
    var branches: seq<BranchSeg>
    var leaves: seq<LeafPos>
    const rand: SeededRandom

    constructor (seed: int)
      ensures branches == [] && leaves == [] && rand.s == seed
      ensures fresh(rand)
    {
      branches := [];
      leaves := [];
      rand := new SeededRandom(seed);
    }

    /** `randomBranchDir`: five draws (base angle, spread angle, three jitters). */
    method RandomBranchDir()
      modifies rand
      ensures rand.s == StepN(old(rand.s), 5)
      ensures ValidState(old(rand.s)) ==> ValidState(rand.s)
    {
      ghost var s0 := rand.s;
      var baseAngle := rand.Next();
      assert rand.s == StepN(s0, 1);
      var spreadAngle := rand.Next();
      assert rand.s == StepN(s0, 2);
      var jx := rand.Next();
      assert rand.s == StepN(s0, 3);
      var jy := rand.Next();
      assert rand.s == StepN(s0, 4);
      var jz := rand.Next();
    }

    /** Three draws for a leaf's position jitter, then the leaf. */
    method PushLeaf(level: int)
      modifies this, rand
      ensures branches == old(branches) && leaves == old(leaves) + [LeafPos(level)]
      ensures ValidState(old(rand.s)) ==> ValidState(rand.s)
    {
      var jx := rand.Next();
      var jy := rand.Next();
      var jz := rand.Next();
      leaves := leaves + [LeafPos(level)];
    }

    /** `growSubBranch`: pushes its own segment; a level-3 tip gets three leaves
        and no children; otherwise a level-2 branch gets one leaf, and 2 or 3
        children are grown one level deeper with length × 0.55 and radius × 0.75.
        `added` and `newLeaves` name what it appends. */
    method GrowSubBranch(length: real, radius: real, level: int)
      returns (ghost added: seq<BranchSeg>, ghost newLeaves: seq<LeafPos>)
      requires 1 <= level <= SubBranchMaxLevel
      modifies this, rand
      decreases SubBranchMaxLevel - level, 1
      ensures branches == old(branches) + added && leaves == old(leaves) + newLeaves
      ensures |added| > 0 && added[0] == BranchSeg(length, radius, level)
      ensures forall j :: 0 < j < |added| ==> level < added[j].level <= SubBranchMaxLevel
      ensures forall j :: 0 <= j < |added| ==>
        added[j].length == Decayed(length, SubBranchDecay, added[j].level - level) &&
        added[j].radius == Decayed(radius, RadiusDecay, added[j].level - level)
      ensures forall j :: 0 <= j < |newLeaves| ==> 2 <= newLeaves[j].level <= SubBranchMaxLevel && level <= newLeaves[j].level
      ensures level == SubBranchMaxLevel ==> |added| == 1 && |newLeaves| == LeavesPerTip
      ensures level == SubBranchMaxLevel - 1 && ValidState(old(rand.s)) ==>
        (|added| == 3 || |added| == 4) && |newLeaves| == 1 + LeavesPerTip * (|added| - 1)
      ensures level < SubBranchMaxLevel && ValidState(old(rand.s)) ==>
        |OfLevel(added, level + 1)| == 2 || |OfLevel(added, level + 1)| == 3
      ensures ValidState(old(rand.s)) ==> ValidState(rand.s)
    {
      var seg := BranchSeg(length, radius, level);
      branches := branches + [seg];

      if level >= SubBranchMaxLevel {
        added := [seg];
        newLeaves := PushTipLeaves(level);
        return;
      }

      ghost var ownLeaves: seq<LeafPos> := [];
      if level >= SubBranchMaxLevel - 1 {
        PushLeaf(level);
        ownLeaves := [LeafPos(level)];
      }

      var r := rand.Next();
      var numChildren := ChildCount(r);
      if ValidState(old(rand.s)) {
        ChildCountRange(r);
      }
      ghost var branchesBefore, leavesBefore := branches, leaves;
      var children, childLeaves := GrowChildren(length, radius, level, numChildren);
      AppendAssoc(old(branches), [seg], children);
      AppendAssoc(old(leaves), ownLeaves, childLeaves);
      added, newLeaves := [seg] + children, ownLeaves + childLeaves;
      RootAndChildren(length, radius, level, children, ownLeaves, childLeaves);
    }

    /** The leaves at a tip of the last level: `LeavesPerTip` of them, each
        after its five draws. */
    method PushTipLeaves(level: int) returns (ghost newLeaves: seq<LeafPos>)
      modifies this, rand
      ensures branches == old(branches) && leaves == old(leaves) + newLeaves
      ensures |newLeaves| == LeavesPerTip && forall j :: 0 <= j < |newLeaves| ==> newLeaves[j].level == level
      ensures ValidState(old(rand.s)) ==> ValidState(rand.s)
    {
      newLeaves := [];
      var i := 0;
      while i < LeavesPerTip
        invariant 0 <= i <= LeavesPerTip
        invariant branches == old(branches) && leaves == old(leaves) + newLeaves
        invariant |newLeaves| == i && forall j :: 0 <= j < i ==> newLeaves[j].level == level
        invariant ValidState(old(rand.s)) ==> ValidState(rand.s)
      {
        PushLeaf(level);
        AppendAssoc(old(leaves), newLeaves, [LeafPos(level)]);
        newLeaves := newLeaves + [LeafPos(level)];
        i := i + 1;
      }
    }

    /** `growSubBranch`'s loop over its children: `numChildren` sub-branches
        one level deeper, each after a direction's five draws, with length ×
        0.55 and radius × 0.75. */
    method GrowChildren(length: real, radius: real, level: int, numChildren: int)
      returns (ghost added: seq<BranchSeg>, ghost newLeaves: seq<LeafPos>)
      requires 1 <= level < SubBranchMaxLevel
      modifies this, rand
      decreases SubBranchMaxLevel - level, 0
      ensures branches == old(branches) + added && leaves == old(leaves) + newLeaves
      ensures ChildrenSoFar(added, newLeaves, length, radius, level)
      ensures numChildren >= 0 ==> |OfLevel(added, level + 1)| == numChildren
      ensures level == SubBranchMaxLevel - 1 && numChildren >= 0 ==>
        |added| == numChildren && |newLeaves| == LeavesPerTip * numChildren
      ensures ValidState(old(rand.s)) ==> ValidState(rand.s)
    {
      added, newLeaves := [], [];
      var i := 0;
      while i < numChildren
        invariant 0 <= i && (numChildren >= 0 ==> i <= numChildren)
        invariant branches == old(branches) + added && leaves == old(leaves) + newLeaves
        invariant ChildrenSoFar(added, newLeaves, length, radius, level)
        invariant level == SubBranchMaxLevel - 1 ==> |added| == i && |newLeaves| == LeavesPerTip * i
        invariant |OfLevel(added, level + 1)| == i
        invariant ValidState(old(rand.s)) ==> ValidState(rand.s)
      {
        RandomBranchDir();
        var childAdded, childLeaves := GrowSubBranch(length * SubBranchDecay, radius * RadiusDecay, level + 1);
        ChildStep(added, newLeaves, length, radius, level, childAdded, childLeaves);
        AppendAssoc(old(branches), added, childAdded);
        AppendAssoc(old(leaves), newLeaves, childLeaves);
        added, newLeaves := added + childAdded, newLeaves + childLeaves;
        i := i + 1;
      }
    }

    /** The sub-branches of one spine joint: `numSub` level-1 roots of half the
        joint's radius, each after a direction's five draws and a length draw. */
    method GrowJoint(numSub: int, subBranchLen: real, radius: real)
      returns (ghost added: seq<BranchSeg>, ghost newLeaves: seq<LeafPos>)
      requires numSub >= 0
      modifies this, rand
      ensures branches == old(branches) + added && leaves == old(leaves) + newLeaves
      ensures OfLevel(added, 0) == [] && |OfLevel(added, 1)| == numSub
      ensures forall j :: 0 <= j < |added| ==> 1 <= added[j].level <= SubBranchMaxLevel
      ensures ValidState(old(rand.s)) ==> ValidState(rand.s)
    {
      added, newLeaves := [], [];
      var b := 0;
      while b < numSub
        invariant 0 <= b <= numSub
        invariant branches == old(branches) + added && leaves == old(leaves) + newLeaves
        invariant JointSoFar(added, b)
        invariant ValidState(old(rand.s)) ==> ValidState(rand.s)
      {
        RandomBranchDir();
        var r := rand.Next();
        var sub, subLeaves := GrowSubBranch(RootLength(subBranchLen, r), radius * 0.5, 1);
        JointStep(added, b, sub);
        AppendAssoc(old(branches), added, sub);
        AppendAssoc(old(leaves), newLeaves, subLeaves);
        added, newLeaves := added + sub, newLeaves + subLeaves;
        b := b + 1;
      }
    }

    /** One iteration of `generateSpine`'s loop: spine segment s, the joint's
        sub-branches (none at the first joint), then three draws bend the spine. */
    method SpineJoint(s: int, segLen: real, subBranchLen: real)
      returns (ghost added: seq<BranchSeg>, ghost newLeaves: seq<LeafPos>)
      modifies this, rand
      ensures branches == old(branches) + [BranchSeg(segLen, SpineRadius(s), 0)] + added
      ensures leaves == old(leaves) + newLeaves
      ensures OfLevel(added, 0) == [] && |OfLevel(added, 1)| == SubBranchesAt(s)
      ensures forall j :: 0 <= j < |added| ==> 1 <= added[j].level <= SubBranchMaxLevel
      ensures ValidState(old(rand.s)) ==> ValidState(rand.s)
    {
      var t := s as real / SpineSegments as real;
      var radius := RadiusStart * (1.0 - t * 0.6);
      branches := branches + [BranchSeg(segLen, radius, 0)];
      added, newLeaves := [], [];
      if s >= 1 {
        added, newLeaves := GrowJoint(if s % 3 == 0 then 3 else 2, subBranchLen, radius);
      }
      var cx := rand.Next();
      var cy := rand.Next();
      var cz := rand.Next();
    }

    /** `generateSpine`: 12 level-0 segments of equal length with tapering radius;
        at every joint but the first, 2 or 3 level-1 sub-branches with half the
        segment's radius; then three draws bend the spine. */
    method GenerateSpine(spineLength: real, subBranchLen: real)
      returns (ghost added: seq<BranchSeg>, ghost newLeaves: seq<LeafPos>)
      modifies this, rand
      ensures branches == old(branches) + added && leaves == old(leaves) + newLeaves
      ensures OfLevel(added, 0) == SpineSegs(SpineSegments, spineLength / 12.0)
      ensures |OfLevel(added, 1)| == 25
      ensures forall j :: 0 <= j < |added| ==> 0 <= added[j].level <= SubBranchMaxLevel
      ensures ValidState(old(rand.s)) ==> ValidState(rand.s)
    {
      var segLen := spineLength / SpineSegments as real;
      added, newLeaves := [], [];
      var s := 0;
      while s < SpineSegments
        invariant 0 <= s <= SpineSegments
        invariant branches == old(branches) + added && leaves == old(leaves) + newLeaves
        invariant SpineSoFar(added, s, segLen)
        invariant ValidState(old(rand.s)) ==> ValidState(rand.s)
      {
        var joint, jointLeaves := SpineJoint(s, segLen, subBranchLen);
        ghost var step := [BranchSeg(segLen, SpineRadius(s), 0)] + joint;
        assert branches == old(branches) + added + step;
        AppendAssoc(old(branches), added, step);
        AppendAssoc(old(leaves), newLeaves, jointLeaves);
        SpineStepLevels(added, s, segLen, joint);
        added, newLeaves := added + step, newLeaves + jointLeaves;
        s := s + 1;
      }
      SpineComplete(added, segLen);
    }
  }

  /** The spine segments of `k` spines in a row. */
  function Repeat(x: seq<BranchSeg>, k: nat): (r: seq<BranchSeg>)
    ensures |r| == k * |x|
  {
    if k == 0 then [] else Repeat(x, k - 1) + x
  }

  /** `generateTree`: three spines from the origin, sharing one generator seeded
      with `seed` (42 by default). */
  method GenerateTree(seed: Option<int>, spineLength: Option<real>, subBranchLength: Option<real>)
    returns (branches: seq<BranchSeg>, leaves: seq<LeafPos>)
    ensures OfLevel(branches, 0) == Repeat(SpineSegs(SpineSegments, spineLength.GetOr(DefaultSpineLength) / 12.0), 3)
    ensures |OfLevel(branches, 0)| == 3 * SpineSegments
    ensures |OfLevel(branches, 1)| == 3 * 25
    ensures forall j :: 0 <= j < |branches| ==> 0 <= branches[j].level <= SubBranchMaxLevel
  {
    var b := new Builder(seed.GetOr(DefaultSeed));
    var len := spineLength.GetOr(DefaultSpineLength);
    var sub := subBranchLength.GetOr(DefaultSubBranchLength);
    ghost var spine := SpineSegs(SpineSegments, len / 12.0);
    var k := 0;
    while k < 3
      invariant 0 <= k <= 3
      invariant OfLevel(b.branches, 0) == Repeat(spine, k)
      invariant |OfLevel(b.branches, 1)| == 25 * k
      invariant forall j :: 0 <= j < |b.branches| ==> 0 <= b.branches[j].level <= SubBranchMaxLevel
    {
      ghost var before := b.branches;
      var added, newLeaves := b.GenerateSpine(len, sub);
      OfLevelAppend(before, added, 0);
      OfLevelAppend(before, added, 1);
      k := k + 1;
    }
    branches, leaves := b.branches, b.leaves;
  }
}
