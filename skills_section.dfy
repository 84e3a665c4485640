/** The scroll highlight of src/components/SkillsSection/index.tsx. The skill
    names carry `data-id` 1, 2, ..., n. An intersection observer reports
    batches of entries; the smallest and largest id seen intersecting since the
    last apply are tracked, and 25 ms after the latest batch every name whose id
    lies in that range is highlighted, so names the observer skipped during a
    fast scroll light up too. */
module Skills {
  import opened Common

  /** The debounce delay of the apply, in milliseconds. */
  const ApplyDelay: real := 25.0

  /** One `IntersectionObserverEntry`: the target's `data-id` and whether it
      is intersecting. */
  datatype Entry = Entry(id: int, isIntersecting: bool)

  /** The `minId`/`maxId` pair, `None` while either is `null`. */
  type Range = Option<(int, int)>

  /** The body of the `forEach` in `reportIntersection`, for one entry. */
  function Step(r: Range, e: Entry): Range {
    if !e.isIntersecting then r
    else match r
      case None => Some((e.id, e.id))
      case Some((lo, hi)) => Some((MinInt(lo, e.id), MaxInt(hi, e.id)))
  }

  /** The range after the entries of a batch, in order. */
  function Accumulate(r: Range, es: seq<Entry>): Range
    decreases |es|
  {
    if es == [] then r else Step(Accumulate(r, es[..|es| - 1]), es[|es| - 1])
  }

  /** The ids of the intersecting entries. */
  ghost function IntersectingIds(es: seq<Entry>): set<int> {
    set k | 0 <= k < |es| && es[k].isIntersecting :: es[k].id
  }

  /** The ids a range stands for: its two ends. */
  ghost function Ends(r: Range): set<int> {
    if r.None? then {} else {r.value.0, r.value.1}
  }

  /** Dropping the last entry drops at most its id. */
  lemma IntersectingIdsSnoc(es: seq<Entry>)
    requires es != []
    ensures var last := es[|es| - 1];
      IntersectingIds(es) == IntersectingIds(es[..|es| - 1]) + (if last.isIntersecting then {last.id} else {})
  {
    var init := es[..|es| - 1];
    var last := es[|es| - 1];
    forall x | x in IntersectingIds(es)
      ensures x in IntersectingIds(init) + (if last.isIntersecting then {last.id} else {})
    {
      var k :| 0 <= k < |es| && es[k].isIntersecting && es[k].id == x;
      if k < |es| - 1 {
        assert init[k] == es[k];
      }
    }
    forall x | x in IntersectingIds(init)
      ensures x in IntersectingIds(es)
    {
      var k :| 0 <= k < |init| && init[k].isIntersecting && init[k].id == x;
      assert es[k] == init[k];
    }
  }

  /** A batch turns a range into exactly the smallest and largest of its own
      ends and the intersecting ids; non-intersecting entries play no part,
      and the range stays empty only when nothing intersected. */
  lemma {:induction false} AccumulateIsMinMax(r: Range, es: seq<Entry>)
    requires r.Some? ==> r.value.0 <= r.value.1
    ensures var s := Ends(r) + IntersectingIds(es);
      var a := Accumulate(r, es);
      (a.None? <==> s == {}) &&
      (a.Some? ==> a.value.0 <= a.value.1 && a.value.0 in s && a.value.1 in s &&
                   forall x :: x in s ==> a.value.0 <= x <= a.value.1)
    decreases |es|
  {
    if es == [] {
      assert IntersectingIds(es) == {};
    } else {
      var init := es[..|es| - 1];
      var last := es[|es| - 1];
      AccumulateIsMinMax(r, init);
      IntersectingIdsSnoc(es);
      var s := Ends(r) + IntersectingIds(es);
      var s0 := Ends(r) + IntersectingIds(init);
      assert s == s0 + (if last.isIntersecting then {last.id} else {});
      var a0 := Accumulate(r, init);
      if a0.Some? && last.isIntersecting {
        assert a0.value.0 in s0 && a0.value.1 in s0;
      }
    }
  }

  /** `applyChanges`' test for an element: `minId && elementId >= minId &&
      maxId && elementId <= maxId`, with JavaScript truthiness (0 is false). */
  predicate Marks(minId: Option<int>, maxId: Option<int>, id: int) {
    minId.Some? && minId.value != 0 && id >= minId.value &&
    maxId.Some? && maxId.value != 0 && id <= maxId.value
  }

  /** Since ids start at 1 the truthiness tests never reject a recorded id:
      an element is marked exactly when its id lies in the inclusive range,
      and nothing is marked while either end is null. */
  lemma MarksInclusive(minId: Option<int>, maxId: Option<int>, id: int)
    requires minId.Some? ==> minId.value >= 1
    requires maxId.Some? ==> maxId.value >= 1
    ensures Marks(minId, maxId, id) <==> minId.Some? && maxId.Some? && minId.value <= id <= maxId.value
    ensures minId.None? || maxId.None? ==> !Marks(minId, maxId, id)
  {
  }

  /** The effect's closure state and the skill elements' `data-highlight`. */
  class SkillsTracker {
    /** How many skill names there are; element `k` has `data-id` k + 1. */
    const count: nat
    var minId: Option<int>
    var maxId: Option<int>
    var highlight: seq<bool>
    /** When the pending `applyChanges` timeout fires, if one is set. */
    var applyAt: Option<real>

    ghost function RangeOf(): Range
      reads this
    {
      if minId.Some? && maxId.Some? then Some((minId.value, maxId.value)) else None
    }

    /** One attribute per element; the two ends are set and cleared together,
        in order, and hold ids of elements. */
    ghost predicate Valid()
      reads this
    {
      |highlight| == count &&
      minId.Some? == maxId.Some? &&
      (minId.Some? ==> 1 <= minId.value <= maxId.value <= count)
    }

    constructor (count: nat)
      ensures this.count == count && Valid()
      ensures minId.None? && maxId.None? && applyAt.None?
      ensures highlight == seq(count, _ => false)
    {
      this.count := count;
      minId := None;
      maxId := None;
      highlight := seq(count, _ => false);
      applyAt := None;
    }

    /** `reportIntersection`: folds the batch into the range and moves the
        apply to 25 ms after this batch. */
    method ReportIntersection(entries: seq<Entry>, now: real)
      requires Valid()
      requires forall k :: 0 <= k < |entries| ==> 1 <= entries[k].id <= count
      modifies this
      ensures Valid()
      ensures RangeOf() == Accumulate(old(RangeOf()), entries)
      ensures applyAt == Some(now + ApplyDelay)
      ensures highlight == old(highlight)
    {
      var i := 0;
      while i < |entries|
        invariant 0 <= i <= |entries| && Valid()
        invariant RangeOf() == Accumulate(old(RangeOf()), entries[..i])
        invariant highlight == old(highlight)
      {
        var entry := entries[i];
        if entry.isIntersecting {
          if minId.None? || maxId.None? {
            minId, maxId := Some(entry.id), Some(entry.id);
          } else {
            minId, maxId := Some(MinInt(minId.value, entry.id)), Some(MaxInt(maxId.value, entry.id));
          }
        }
        assert entries[..i + 1][..i] == entries[..i];
        i := i + 1;
      }
      assert entries[..i] == entries;
      applyAt := Some(now + ApplyDelay);
    }

    /** `applyChanges`: marks every element the range covers, never unmarks
        one, and resets the range. */
    method ApplyChanges()
      requires Valid()
      modifies this
      ensures Valid()
      ensures |highlight| == count
      ensures forall k :: 0 <= k < count ==>
        highlight[k] == (old(highlight[k]) || Marks(old(minId), old(maxId), k + 1))
      ensures forall k :: 0 <= k < count ==> old(highlight[k]) ==> highlight[k]
      ensures minId.None? && maxId.None?
      ensures applyAt == old(applyAt)
    {
      var k := 0;
      while k < count
        invariant 0 <= k <= count && |highlight| == count
        invariant minId == old(minId) && maxId == old(maxId) && applyAt == old(applyAt)
        invariant forall j :: 0 <= j < k ==> highlight[j] == (old(highlight[j]) || Marks(minId, maxId, j + 1))
        invariant forall j :: k <= j < count ==> highlight[j] == old(highlight[j])
      {
        var elementId := k + 1;
        if minId.Some? && minId.value != 0 && elementId >= minId.value &&
           maxId.Some? && maxId.value != 0 && elementId <= maxId.value {
          highlight := highlight[k := true];
        }
        k := k + 1;
      }
      minId := None;
      maxId := None;
    }

    /** The debounce timeout fires. */
    method FireApply(now: real)
      requires Valid() && applyAt == Some(now)
      modifies this
      ensures Valid() && applyAt.None?
      ensures forall k :: 0 <= k < count ==>
        highlight[k] == (old(highlight[k]) || Marks(old(minId), old(maxId), k + 1))
      ensures minId.None? && maxId.None?
    {
      ApplyChanges();
      applyAt := None;
    }
  }

  /** One batch after a reset, then the apply: exactly the names whose ids lie
      between the smallest and the largest intersecting id come on, on top of
      those already on. */
  method BatchThenApply(t: SkillsTracker, entries: seq<Entry>, now: real)
    requires t.Valid() && t.minId.None?
    requires forall k :: 0 <= k < |entries| ==> 1 <= entries[k].id <= t.count
    modifies t
    ensures t.Valid()
    ensures forall k :: 0 <= k < t.count ==>
      t.highlight[k] == (old(t.highlight[k]) ||
        (exists lo, hi :: lo in IntersectingIds(entries) && hi in IntersectingIds(entries) && lo <= k + 1 <= hi))
  {
    t.ReportIntersection(entries, now);
    AccumulateIsMinMax(None, entries);
    assert Ends(None) == {};
    ghost var r := Accumulate(None, entries);
    assert r == t.RangeOf();
    t.FireApply(now + ApplyDelay);
    forall k | 0 <= k < t.count
      ensures t.highlight[k] == (old(t.highlight[k]) ||
        (exists lo, hi :: lo in IntersectingIds(entries) && hi in IntersectingIds(entries) && lo <= k + 1 <= hi))
    {
      if r.Some? {
        MarksInclusive(Some(r.value.0), Some(r.value.1), k + 1);
        if exists lo, hi :: lo in IntersectingIds(entries) && hi in IntersectingIds(entries) && lo <= k + 1 <= hi {
          var lo, hi :| lo in IntersectingIds(entries) && hi in IntersectingIds(entries) && lo <= k + 1 <= hi;
          assert r.value.0 <= lo && hi <= r.value.1;
        }
      }
    }
  }
}
