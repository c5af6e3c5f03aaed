/**
 * `AnimatedToggle` of app/main.py as a state machine: the labels, the
 * selected index, the `animating` and `disabled` flags, and the crossfade
 * frame that `after` has scheduled, if any.  Button colours are not part of
 * the state; a frame only advances the crossfade.
 */
module Toggle {
  import opened Base

  /** `_ANIM_FRAMES`: the crossfade ends at the first step above it. */
  const AnimFrames: nat := 12

  /** A scheduled call `_crossfade(from, to, step)`. */
  datatype Crossfade = Crossfade(from: nat, to: nat, step: nat)

  datatype Toggle = Toggle(
    values: seq<string>,
    selected: nat,
    animating: bool,
    disabled: bool,
    pending: Option<Crossfade>)

  /**
   * The states a toggle reaches: the selection is a label's index, a frame
   * is scheduled exactly while animating, and its step is at most one past
   * the last interpolation step.
   */
  predicate Valid(t: Toggle)
  {
    && t.selected < |t.values|
    && (t.animating <==> t.pending.Some?)
    && (t.pending.Some? ==> t.pending.value.step <= AnimFrames + 1
                            && t.pending.value.from < |t.values| && t.pending.value.to < |t.values|)
  }

  /** A new toggle: the first label selected, idle and enabled. */
  function New(values: seq<string>): (t: Toggle)
    requires |values| > 0
    ensures Valid(t) && t.selected == 0 && !t.animating && !t.disabled
  {
    Toggle(values, 0, false, false, None)
  }

  /** `get()`: the selected label. */
  function Get(t: Toggle): (v: string)
    requires Valid(t)
    ensures v in t.values
  {
    t.values[t.selected]
  }

  /** `values.index(v)`: the first position holding `v`. */
  function IndexOf(values: seq<string>, v: string): (i: nat)
    requires v in values
    ensures i < |values| && values[i] == v
    ensures forall j :: 0 <= j < i ==> values[j] != v
  {
    if values[0] == v then 0 else 1 + IndexOf(values[1..], v)
  }

  /** `set(value)`: selects the first label equal to `value`; an unknown value changes nothing. */
  function Set(t: Toggle, value: string): (u: Toggle)
    requires Valid(t)
    ensures Valid(u)
    ensures value !in t.values ==> u == t
    ensures value in t.values ==> Get(u) == value
    ensures value in t.values ==> forall j :: 0 <= j < u.selected ==> u.values[j] != value
    ensures u.values == t.values && u.animating == t.animating && u.disabled == t.disabled
    ensures u == t.(selected := u.selected)
  {
    if value !in t.values then t else t.(selected := IndexOf(t.values, value))
  }

  /** `configure(state=...)`: `None` when no `state` keyword is given. */
  function Configure(t: Toggle, state: Option<string>): (u: Toggle)
    requires Valid(t)
    ensures Valid(u)
    ensures state.Some? ==> (u.disabled <==> state.value == "disabled")
    ensures state.None? ==> u == t
    ensures u.selected == t.selected && u.animating == t.animating && u.pending == t.pending
    ensures u == t.(disabled := u.disabled)
  {
    if state.Some? then t.(disabled := state.value == "disabled") else t
  }

  /** `_crossfade(from, to, step)`: the last call clears `animating`, the others schedule the next. */
  function RunCrossfade(t: Toggle, c: Crossfade): (u: Toggle)
    requires c.step <= AnimFrames + 1
    ensures c.step > AnimFrames ==> !u.animating && u.pending.None?
    ensures c.step <= AnimFrames ==> u.animating && u.pending == Some(Crossfade(c.from, c.to, c.step + 1))
    ensures u.values == t.values && u.selected == t.selected && u.disabled == t.disabled
  {
    if c.step > AnimFrames then t.(animating := false, pending := None)
    else t.(animating := true, pending := Some(Crossfade(c.from, c.to, c.step + 1)))
  }

  /**
   * `_on_click(idx)`: ignored while disabled, on the selected button or
   * during an animation; otherwise selects `idx` and starts the crossfade,
   * whose first step runs at once.  Buttons exist only for valid indices.
   */
  function Click(t: Toggle, idx: nat): (u: Toggle)
    requires Valid(t) && idx < |t.values|
    ensures Valid(u)
    ensures t.disabled || idx == t.selected || t.animating ==> u == t
    ensures !(t.disabled || idx == t.selected || t.animating) ==>
              u.selected == idx && u.animating && u.pending == Some(Crossfade(t.selected, idx, 1))
    ensures !(t.disabled || idx == t.selected || t.animating) ==>
              u == t.(selected := idx, animating := true, pending := Some(Crossfade(t.selected, idx, 1)))
  {
    if t.disabled || idx == t.selected || t.animating then t
    else RunCrossfade(t.(selected := idx, animating := true), Crossfade(t.selected, idx, 0))
  }

  /** The `after` callback firing: runs the scheduled crossfade step, if any. */
  function Frame(t: Toggle): (u: Toggle)
    requires Valid(t)
    ensures Valid(u)
    ensures u.values == t.values && u.selected == t.selected && u.disabled == t.disabled
    ensures !t.animating ==> u == t
  {
    if t.pending.Some? then RunCrossfade(t.(pending := None), t.pending.value) else t
  }

  /** How many more frames the running crossfade needs. */
  function FramesLeft(t: Toggle): nat
    requires Valid(t)
  {
    if t.pending.Some? then AnimFrames + 2 - t.pending.value.step else 0
  }

  /** `n` frames in a row. */
  function Frames(t: Toggle, n: nat): (u: Toggle)
    requires Valid(t)
    ensures Valid(u)
    decreases n
  {
    if n == 0 then t else Frames(Frame(t), n - 1)
  }

  /**
   * The crossfade terminates: after `FramesLeft` frames the toggle is no
   * longer animating, and before that it still is.
   */
  lemma {:induction false} AnimationEnds(t: Toggle)
    requires Valid(t)
    ensures !Frames(t, FramesLeft(t)).animating
    ensures forall n :: 0 <= n < FramesLeft(t) ==> Frames(t, n).animating
    decreases FramesLeft(t)
  {
    if FramesLeft(t) > 0 {
      var u := Frame(t);
      assert FramesLeft(u) == FramesLeft(t) - 1;
      AnimationEnds(u);
      forall n | 0 <= n < FramesLeft(t)
        ensures Frames(t, n).animating
      {
        if n > 0 {
          assert Frames(t, n) == Frames(u, n - 1);
        }
      }
    }
  }

  /** A click that starts a crossfade leaves 13 frames to run: steps 1 to 12 and the closing step. */
  lemma ClickThenFrames(t: Toggle, idx: nat)
    requires Valid(t) && idx < |t.values|
    requires !t.disabled && idx != t.selected && !t.animating
    ensures FramesLeft(Click(t, idx)) == AnimFrames + 1
    ensures var u := Frames(Click(t, idx), AnimFrames + 1);
            !u.animating && u.selected == idx
  {
    AnimationEnds(Click(t, idx));
    FramesKeepSelection(Click(t, idx), AnimFrames + 1);
  }

  lemma {:induction false} FramesKeepSelection(t: Toggle, n: nat)
    requires Valid(t)
    ensures Frames(t, n).selected == t.selected
    decreases n
  {
    if n > 0 {
      FramesKeepSelection(Frame(t), n - 1);
    }
  }

  /** While a crossfade runs, clicks change nothing. */
  lemma ClickDuringAnimation(t: Toggle, idx: nat)
    requires Valid(t) && idx < |t.values| && t.animating
    ensures Click(t, idx) == t
  {
  }

  /** `set` followed by `get` returns the value set, when it is one of the labels. */
  lemma SetThenGet(t: Toggle, value: string)
    requires Valid(t) && value in t.values
    ensures Get(Set(t, value)) == value
  {
  }
}
