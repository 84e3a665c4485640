/** The typewriter hook of src/hooks/useTyper.tsx: a machine over the refs
    (roleIdx, charIdx, deleting) whose `tick` deletes the shown role one
    character at a time, moves on to the next role, types it one character at a
    time, and returns the delay until the next tick. A `setTimeout` loop starts
    3000 ms after the element first comes into view, and a 530 ms interval
    toggles the cursor while it is in view. Timers are modelled by the time at
    which each pending callback is due; `Math.random()` is a parameter. */
module Typer {
  import opened Common

  const TypeSpeed: real := 80.0
  const DeleteSpeed: real := 40.0
  const PauseAfterType: real := 2000.0
  const PauseAfterDelete: real := 400.0
  const StartDelay: real := 3000.0
  const CursorInterval: real := 530.0

  /** `UseTyperOptions`; `typeSpeed` is accepted but never read by `tick`. */
  datatype TyperOptions = TyperOptions(
    typeSpeed: Option<real>, deleteSpeed: Option<real>,
    pauseAfterType: Option<real>, pauseAfterDelete: Option<real>)

  /** `options?.deleteSpeed ?? 40`, and likewise for the two pauses. */
  function DeleteSpeedOf(options: Option<TyperOptions>): real {
    if options.Some? then options.value.deleteSpeed.GetOr(DeleteSpeed) else DeleteSpeed
  }

  function PauseAfterTypeOf(options: Option<TyperOptions>): real {
    if options.Some? then options.value.pauseAfterType.GetOr(PauseAfterType) else PauseAfterType
  }

  function PauseAfterDeleteOf(options: Option<TyperOptions>): real {
    if options.Some? then options.value.pauseAfterDelete.GetOr(PauseAfterDelete) else PauseAfterDelete
  }

  /** `s.slice(0, end)`: a negative end counts from the back, an end past the
      string stops at its length. */
  function SlicePrefix(s: string, end: int): (r: string)
    ensures 0 <= end <= |s| ==> r == s[..end]
    ensures end < 0 ==> r == s[..MaxInt(0, |s| + end)]
    ensures end > |s| ==> r == s
  {
    if end < 0 then s[..MaxInt(0, |s| + end)]
    else if end > |s| then s
    else s[..end]
  }

  /** The three refs the tick reads and writes. */
  datatype Machine = Machine(roleIdx: int, charIdx: int, deleting: bool)

  /** The machine before the first tick: the first role fully shown, deleting. */
  function Initial(items: seq<string>): Machine
    requires |items| > 0
  {
    Machine(0, |items[0]|, true)
  }

  /** `tick()`: the next machine and the delay it returns, for a draw `r` of
      `Math.random()`. */
  function TickStep(items: seq<string>, m: Machine, r: real, options: Option<TyperOptions>): (Machine, real)
    requires 0 <= m.roleIdx < |items|
  {
    var role := items[m.roleIdx];
    if !m.deleting then
      var c := m.charIdx + 1;
      if c == |role| then (Machine(m.roleIdx, c, true), PauseAfterTypeOf(options))
      else (Machine(m.roleIdx, c, false), TypeSpeed + r * 40.0)
    else
      var c := m.charIdx - 1;
      if c == 0 then (Machine((m.roleIdx + 1) % |items|, c, false), PauseAfterDeleteOf(options))
      else (Machine(m.roleIdx, c, true), DeleteSpeedOf(options))
  }

  /** The text the machine shows: `role.slice(0, charIdx)`. */
  function Shown(items: seq<string>, m: Machine): string
    requires 0 <= m.roleIdx < |items|
  {
    SlicePrefix(items[m.roleIdx], m.charIdx)
  }

  /** What holds between ticks when every role is non-empty: the role index is
      valid, the shown text is a prefix of the role, a deleting machine still has
      a character to delete and a typing one a character to type. */
  ghost predicate Inv(items: seq<string>, m: Machine) {
    (forall k :: 0 <= k < |items| ==> |items[k]| > 0) &&
    0 <= m.roleIdx < |items| &&
    0 <= m.charIdx <= |items[m.roleIdx]| &&
    (m.deleting ==> m.charIdx >= 1) &&
    (!m.deleting ==> m.charIdx < |items[m.roleIdx]|)
  }

  /** The hook starts in the invariant, showing the whole first role. */
  lemma InitialInv(items: seq<string>)
    requires |items| > 0 && forall k :: 0 <= k < |items| ==> |items[k]| > 0
    ensures Inv(items, Initial(items))
    ensures Shown(items, Initial(items)) == items[0]
  {
  }

  /** Every tick keeps the invariant. */
  lemma {:induction false} TickPreservesInv(items: seq<string>, m: Machine, r: real, options: Option<TyperOptions>)
    requires Inv(items, m)
    ensures Inv(items, TickStep(items, m, r, options).0)
  {
    var m' := TickStep(items, m, r, options).0;
    if m.deleting && m.charIdx == 1 {
      assert 0 <= m'.roleIdx < |items|;
      assert |items[m'.roleIdx]| > 0;
    }
  }

  /** Under the invariant a tick types or deletes exactly one character: typing
      shows one more character of the role, deleting one fewer; the text shown
      is always an exact prefix of the current role. */
  lemma {:induction false} TickShowsOneMore(items: seq<string>, m: Machine, r: real, options: Option<TyperOptions>)
    requires Inv(items, m)
    ensures Shown(items, m) == items[m.roleIdx][..m.charIdx]
    ensures var m' := TickStep(items, m, r, options).0;
      (!m.deleting ==> Shown(items, m') == Shown(items, m) + [items[m.roleIdx][m.charIdx]]) &&
      (m.deleting ==> Shown(items, m') == Shown(items, m)[..m.charIdx - 1])
  {
    var m' := TickStep(items, m, r, options).0;
    TickPreservesInv(items, m, r, options);
    var role := items[m.roleIdx];
    if !m.deleting {
      assert role[..m.charIdx + 1] == role[..m.charIdx] + [role[m.charIdx]];
    } else if m.charIdx == 1 {
      assert Shown(items, m') == [];
    }
  }

  /** The delay a tick returns: the pause after a whole role is typed or
      deleted, the delete speed while deleting, and 80 to 120 ms per typed
      character. */
  lemma {:induction false} TickDelays(items: seq<string>, m: Machine, r: real, options: Option<TyperOptions>)
    requires Inv(items, m) && 0.0 <= r < 1.0
    ensures var (m', delay) := TickStep(items, m, r, options);
      (!m.deleting && m'.deleting ==> delay == PauseAfterTypeOf(options) && m'.charIdx == |items[m.roleIdx]|) &&
      (!m.deleting && !m'.deleting ==> TypeSpeed <= delay < TypeSpeed + 40.0) &&
      (m.deleting && !m'.deleting ==> delay == PauseAfterDeleteOf(options) && m'.charIdx == 0 &&
                                      m'.roleIdx == (m.roleIdx + 1) % |items|) &&
      (m.deleting && m'.deleting ==> delay == DeleteSpeedOf(options))
  {
    assert 0.0 <= r * 40.0 < 40.0;
  }

  /** The hook's refs, state and pending timers. */
  class TyperHook {
    const items: seq<string>
    const options: Option<TyperOptions>
    var display: string
    var cursorVisible: bool
    var inView: bool
    /** Whether the intersection observer is attached and not yet disconnected. */
    var observing: bool
    var roleIdx: int
    var charIdx: int
    var deleting: bool
    /** When the pending `loop` timeout is due, if one is pending. */
    var tickAt: Option<real>
    /** When the cursor interval next fires, if it runs. */
    var cursorAt: Option<real>

    ghost function State(): Machine
      reads this
    {
      Machine(roleIdx, charIdx, deleting)
    }

    /** The timers run exactly while the element is in view. */
    ghost predicate Valid()
      reads this
    {
      |items| > 0 && 0 <= roleIdx < |items| &&
      (inView <==> tickAt.Some?) && (inView <==> cursorAt.Some?)
    }

    /** `useTyper(items, options)` on first render; `items[0]` must exist. */
    constructor (items: seq<string>, options: Option<TyperOptions>)
      requires |items| > 0
      ensures this.items == items && this.options == options
      ensures display == items[0] && cursorVisible && !inView && !observing
      ensures State() == Initial(items)
      ensures tickAt.None? && cursorAt.None?
      ensures Valid()
    {
      this.items := items;
      this.options := options;
      display := items[0];
      cursorVisible := true;
      inView := false;
      observing := false;
      roleIdx := 0;
      charIdx := |items[0]|;
      deleting := true;
      tickAt := None;
      cursorAt := None;
    }

    /** `observerRef(node)` with a node: the observer starts watching it. */
    method Attach()
      modifies this
      ensures observing
      ensures display == old(display) && cursorVisible == old(cursorVisible) && inView == old(inView)
      ensures State() == old(State()) && tickAt == old(tickAt) && cursorAt == old(cursorAt)
    {
      observing := true;
    }

    /** The observer's callback at time `now`: `setInView(isIntersecting)`, and a
        disconnect once intersecting. Coming into view arms the first tick 3000 ms
        later and the cursor interval; going out of view clears both. */
    method Observe(isIntersecting: bool, now: real)
      requires Valid()
      modifies this
      ensures Valid()
      ensures display == old(display) && cursorVisible == old(cursorVisible) && State() == old(State())
      ensures !old(observing) ==> inView == old(inView) && tickAt == old(tickAt) && cursorAt == old(cursorAt) && !observing
      ensures old(observing) ==> inView == isIntersecting && observing == !isIntersecting
      ensures old(observing) && isIntersecting && !old(inView) ==>
        tickAt == Some(now + StartDelay) && cursorAt == Some(now + CursorInterval)
      ensures old(observing) && isIntersecting == old(inView) ==> tickAt == old(tickAt) && cursorAt == old(cursorAt)
    {
      if observing {
        if isIntersecting != inView {
          inView := isIntersecting;
          if isIntersecting {
            tickAt := Some(now + StartDelay);
            cursorAt := Some(now + CursorInterval);
          } else {
            tickAt := None;
            cursorAt := None;
          }
        }
        if isIntersecting {
          observing := false;
        }
      }
    }

    /** `tick()`, with `r` the value `Math.random()` returns. */
    method Tick(r: real) returns (delay: real)
      requires Valid()
      modifies this
      ensures (State(), delay) == TickStep(items, old(State()), r, options)
      ensures display == Shown(items, State())
      ensures Valid()
      ensures cursorVisible == old(cursorVisible) && inView == old(inView) && observing == old(observing)
      ensures tickAt == old(tickAt) && cursorAt == old(cursorAt)
    {
      var role := items[roleIdx];
      if !deleting {
        charIdx := charIdx + 1;
        display := SlicePrefix(role, charIdx);
        if charIdx == |role| {
          deleting := true;
          return PauseAfterTypeOf(options);
        }
        return TypeSpeed + r * 40.0;
      } else {
        charIdx := charIdx - 1;
        display := SlicePrefix(role, charIdx);
        if charIdx == 0 {
          deleting := false;
          roleIdx := (roleIdx + 1) % |items|;
          return PauseAfterDeleteOf(options);
        }
        return DeleteSpeedOf(options);
      }
    }

    /** The `loop` timeout firing at its due time: one tick, then the next
        timeout after the returned delay (a negative delay fires at once). */
    method FireTick(now: real, r: real)
      requires Valid() && tickAt == Some(now)
      modifies this
      ensures State() == TickStep(items, old(State()), r, options).0
      ensures display == Shown(items, State())
      ensures tickAt == Some(now + Max(0.0, TickStep(items, old(State()), r, options).1))
      ensures Valid()
      ensures cursorVisible == old(cursorVisible) && inView == old(inView) && observing == old(observing)
      ensures cursorAt == old(cursorAt)
    {
      var delay := Tick(r);
      tickAt := Some(now + Max(0.0, delay));
    }

    /** The cursor interval firing: the cursor toggles, and fires again 530 ms later. */
    method FireCursor(now: real)
      requires Valid() && cursorAt == Some(now)
      modifies this
      ensures cursorVisible == !old(cursorVisible) && cursorAt == Some(now + CursorInterval)
      ensures display == old(display) && State() == old(State()) && inView == old(inView)
      ensures observing == old(observing) && tickAt == old(tickAt)
      ensures Valid()
    {
      cursorVisible := !cursorVisible;
      cursorAt := Some(now + CursorInterval);
    }
  }

  /** The ticks a run of the timeout loop performs from machine `m`, the first
      due at `start`, with `rs` the successive `Math.random()` draws: the text
      each tick shows and the time it fires. */
  function Schedule(items: seq<string>, m: Machine, rs: seq<real>, options: Option<TyperOptions>, start: real): (r: seq<(string, real)>)
    requires 0 <= m.roleIdx < |items|
    ensures |r| == |rs|
    decreases |rs|
  {
    if rs == [] then []
    else
      var next := TickStep(items, m, rs[0], options);
      if 0 <= next.0.roleIdx < |items| then
        [(Shown(items, next.0), start)] + Schedule(items, next.0, rs[1..], options, start + Max(0.0, next.1))
      else assert false; []
  }

  /** One step of a schedule, with the tick's result given. */
  lemma ScheduleStep(items: seq<string>, m: Machine, rs: seq<real>, options: Option<TyperOptions>, start: real,
                     next: Machine, delay: real)
    requires 0 <= m.roleIdx < |items| && rs != []
    requires TickStep(items, m, rs[0], options) == (next, delay) && 0 <= next.roleIdx < |items|
    ensures Schedule(items, m, rs, options, start) ==
      [(Shown(items, next), start)] + Schedule(items, next, rs[1..], options, start + Max(0.0, delay))
  {
  }

  /** The second half of the ["Hi", "Go"] trace (HiGoTrace): "Go", shown in
      full until t0 + 5520, is deleted and "Hi" typed again. */
  lemma HiGoTraceCycle(t0: real)
    ensures var s := Schedule(["Hi", "Go"], Machine(1, 2, true), [0.0, 0.0, 0.0, 0.0], None, t0 + 5520.0);
      s[0] == ("G", t0 + 5520.0) && s[1] == ("", t0 + 5560.0) && s[2] == ("H", t0 + 5960.0) && s[3] == ("Hi", t0 + 6040.0)
  {
    var items := ["Hi", "Go"];
    var z := [0.0, 0.0, 0.0, 0.0];
    assert "Hi"[..1] == "H" && "Go"[..1] == "G" && "Hi"[..2] == "Hi";
    ScheduleStep(items, Machine(0, 1, false), z[3..], None, t0 + 6040.0, Machine(0, 2, true), 2000.0);
    ScheduleStep(items, Machine(0, 0, false), z[2..], None, t0 + 5960.0, Machine(0, 1, false), 80.0);
    ScheduleStep(items, Machine(1, 1, true), z[1..], None, t0 + 5560.0, Machine(0, 0, false), 400.0);
    ScheduleStep(items, Machine(1, 2, true), z, None, t0 + 5520.0, Machine(1, 1, true), 40.0);
  }

  /** The first two ticks of the ["Hi", "Go"] trace (HiGoTrace): "Hi" is
      deleted 40 ms apart, then a 400 ms pause. */
  lemma HiGoTraceDeleting(t0: real)
    ensures Schedule(["Hi", "Go"], Initial(["Hi", "Go"]), [0.0, 0.0, 0.0, 0.0, 0.0, 0.0, 0.0, 0.0], None, t0 + StartDelay) ==
      [("H", t0 + 3000.0), ("", t0 + 3040.0)] +
      Schedule(["Hi", "Go"], Machine(1, 0, false), [0.0, 0.0, 0.0, 0.0, 0.0, 0.0], None, t0 + 3440.0)
  {
    var items := ["Hi", "Go"];
    var z := [0.0, 0.0, 0.0, 0.0, 0.0, 0.0, 0.0, 0.0];
    assert "Hi"[..1] == "H" && "Hi"[..0] == "";
    assert z[1..][1..] == [0.0, 0.0, 0.0, 0.0, 0.0, 0.0];
    ScheduleStep(items, Machine(0, 1, true), z[1..], None, t0 + 3040.0, Machine(1, 0, false), 400.0);
    ScheduleStep(items, Initial(items), z, None, t0 + StartDelay, Machine(0, 1, true), 40.0);
  }

  /** The next two ticks of the ["Hi", "Go"] trace (HiGoTrace): "Go" typed
      80 ms apart, then a 2000 ms pause. */
  lemma HiGoTraceTyping(t0: real)
    ensures Schedule(["Hi", "Go"], Machine(1, 0, false), [0.0, 0.0, 0.0, 0.0, 0.0, 0.0], None, t0 + 3440.0) ==
      [("G", t0 + 3440.0), ("Go", t0 + 3520.0)] +
      Schedule(["Hi", "Go"], Machine(1, 2, true), [0.0, 0.0, 0.0, 0.0], None, t0 + 5520.0)
  {
    var items := ["Hi", "Go"];
    var z := [0.0, 0.0, 0.0, 0.0, 0.0, 0.0];
    assert "Go"[..1] == "G" && "Go"[..2] == "Go";
    assert z[1..][1..] == [0.0, 0.0, 0.0, 0.0];
    ScheduleStep(items, Machine(1, 1, false), z[1..], None, t0 + 3520.0, Machine(1, 2, true), 2000.0);
    ScheduleStep(items, Machine(1, 0, false), z, None, t0 + 3440.0, Machine(1, 1, false), 80.0);
  }

  /** The trace of ["Hi", "Go"] with `Math.random()` returning 0, coming into
      view at time t0, so that the first tick is due at t0 + 3000: delete,
      delete, pause, type, type, pause, delete, delete, pause, type, back on the
      first role. */
  lemma HiGoTrace(t0: real)
    ensures var s := Schedule(["Hi", "Go"], Initial(["Hi", "Go"]), [0.0, 0.0, 0.0, 0.0, 0.0, 0.0, 0.0, 0.0], None, t0 + StartDelay);
      s[0] == ("H", t0 + 3000.0) && s[1] == ("", t0 + 3040.0) && s[2] == ("G", t0 + 3440.0) && s[3] == ("Go", t0 + 3520.0) &&
      s[4] == ("G", t0 + 5520.0) && s[5] == ("", t0 + 5560.0) && s[6] == ("H", t0 + 5960.0) && s[7] == ("Hi", t0 + 6040.0)
  {
    HiGoTraceDeleting(t0);
    HiGoTraceTyping(t0);
    HiGoTraceCycle(t0);
  }

  /** The cursor, visible at first, toggles at 530 ms and back at 1060 ms
      after coming into view, while the text has not changed yet. */
  method CursorTrace() returns (visible: seq<bool>, shown: string)
    ensures visible == [true, false, true]
    ensures shown == "Hi"
  {
    var t := new TyperHook(["Hi", "Go"], None);
    t.Attach();
    t.Observe(true, 0.0);
    visible := [t.cursorVisible];
    t.FireCursor(530.0);
    visible := visible + [t.cursorVisible];
    t.FireCursor(1060.0);
    visible := visible + [t.cursorVisible];
    shown := t.display;
  }
}
