/** Global hotkeys with repeat suppression
    (app/macos/Sources/EventLoopQueueApp/GlobalHotKeyController.swift). Instants and the
    interval are exact numbers of seconds. */
module HotKeyDebounce {
  import opened Prelude

  datatype Action =
    | Advance | DoneNext | ExecuteRecommendedAction | DeferOneHour | RestoreWorkspace
    | ReturnHere | ToggleManualMode | MasterCommand | HotKeys

  datatype Press = Press(id: nat, at: real)

  const LEGACY_ADVANCE := 1
  const LEGACY_TOGGLE_MANUAL_MODE := 2
  const LEGACY_MASTER_COMMAND := 3
  const ADVANCE := 10
  const DONE_NEXT := 11
  const EXECUTE_RECOMMENDED_ACTION := 12
  const DEFER_ONE_HOUR := 13
  const RESTORE_WORKSPACE := 14
  const RETURN_HERE := 15
  const TOGGLE_MANUAL_MODE := 16
  const MASTER_COMMAND := 17
  const HOTKEYS := 18

  function DebounceKey(id: nat): nat {
    if id == LEGACY_ADVANCE || id == ADVANCE then ADVANCE
    else if id == LEGACY_TOGGLE_MANUAL_MODE || id == TOGGLE_MANUAL_MODE then TOGGLE_MANUAL_MODE
    else if id == LEGACY_MASTER_COMMAND || id == MASTER_COMMAND then MASTER_COMMAND
    else id
  }

  function ActionFor(id: nat): Option<Action> {
    if id == LEGACY_ADVANCE || id == ADVANCE then Some(Advance)
    else if id == DONE_NEXT then Some(DoneNext)
    else if id == EXECUTE_RECOMMENDED_ACTION then Some(ExecuteRecommendedAction)
    else if id == DEFER_ONE_HOUR then Some(DeferOneHour)
    else if id == RESTORE_WORKSPACE then Some(RestoreWorkspace)
    else if id == RETURN_HERE then Some(ReturnHere)
    else if id == LEGACY_TOGGLE_MANUAL_MODE || id == TOGGLE_MANUAL_MODE then Some(ToggleManualMode)
    else if id == LEGACY_MASTER_COMMAND || id == MASTER_COMMAND then Some(MasterCommand)
    else if id == HOTKEYS then Some(HotKeys)
    else None
  }

  /** The ids known, the first three from before, and what each performs. */
  lemma ActionsOfIds(id: nat)
    ensures ActionFor(1) == Some(Advance) && ActionFor(10) == Some(Advance)
    ensures ActionFor(2) == Some(ToggleManualMode) && ActionFor(16) == Some(ToggleManualMode)
    ensures ActionFor(3) == Some(MasterCommand) && ActionFor(17) == Some(MasterCommand)
    ensures ActionFor(11) == Some(DoneNext) && ActionFor(12) == Some(ExecuteRecommendedAction)
    ensures ActionFor(13) == Some(DeferOneHour) && ActionFor(14) == Some(RestoreWorkspace)
    ensures ActionFor(15) == Some(ReturnHere) && ActionFor(18) == Some(HotKeys)
    ensures ActionFor(id).Some? <==> 1 <= id <= 3 || 10 <= id <= 18
  {
  }

  /** When `action` was last performed, by whichever of its ids. */
  function LastPerformed(performed: seq<Press>, action: Action): Option<real> {
    if performed == [] then None
    else
      var latest := performed[|performed| - 1];
      if ActionFor(latest.id) == Some(action) then Some(latest.at)
      else LastPerformed(performed[..|performed| - 1], action)
  }

  /** Whether a press performs its action, told from the presses performed before it. */
  predicate Fires(interval: real, performed: seq<Press>, press: Press) {
    var action := ActionFor(press.id);
    && action.Some?
    && var last := LastPerformed(performed, action.value);
       interval <= 0.0 || last.None? || press.at < last.value || press.at >= last.value + interval
  }

  /** The presses of a run that perform their action. */
  function Performed(interval: real, presses: seq<Press>): seq<Press> {
    if presses == [] then []
    else
      var before, press := Performed(interval, presses[..|presses| - 1]), presses[|presses| - 1];
      if Fires(interval, before, press) then before + [press] else before
  }

  /** The dictionary holds, under each action's key, when the action was last performed. */
  ghost predicate Records(lastDispatchByActionKey: map<nat, real>, performed: seq<Press>) {
    forall id: nat :: ActionFor(id).Some? ==>
      var last := LastPerformed(performed, ActionFor(id).value);
      && (DebounceKey(id) in lastDispatchByActionKey <==> last.Some?)
      && (last.Some? ==> lastDispatchByActionKey[DebounceKey(id)] == last.value)
  }

  lemma RecordsNext(lastDispatchByActionKey: map<nat, real>, performed: seq<Press>, press: Press)
    requires Records(lastDispatchByActionKey, performed) && ActionFor(press.id).Some?
    ensures Records(lastDispatchByActionKey[DebounceKey(press.id) := press.at], performed + [press])
  {
    KeysAreActions(press.id);
    assert (performed + [press])[..|performed|] == performed;
  }

  lemma PerformedNext(interval: real, presses: seq<Press>, press: Press)
    ensures var performed := Performed(interval, presses);
            Performed(interval, presses + [press]) ==
            if Fires(interval, performed, press) then performed + [press] else performed
  {
    assert (presses + [press])[..|presses|] == presses;
  }

  class GlobalHotKeyController {
    const repeatDebounceInterval: real
    var lastDispatchByActionKey: map<nat, real>
    /** The presses handled so far. */
    ghost var presses: seq<Press>

    ghost predicate Valid()
      reads this
    {
      Records(lastDispatchByActionKey, Performed(repeatDebounceInterval, presses))
    }

    constructor (interval: real)
      ensures Valid() && repeatDebounceInterval == interval && presses == []
    {
      repeatDebounceInterval := interval;
      lastDispatchByActionKey, presses := map[], [];
    }

    /** Answers the action that is performed, None where the press is dropped. */
    method DispatchHotKeyAction(id: nat, now: real) returns (action: Option<Action>)
      requires Valid()
      modifies this
      ensures Valid() && presses == old(presses) + [Press(id, now)]
      ensures action == if Fires(repeatDebounceInterval, Performed(repeatDebounceInterval, old(presses)), Press(id, now))
                        then ActionFor(id) else None
    {
      ghost var performed, press := Performed(repeatDebounceInterval, presses), Press(id, now);
      PerformedNext(repeatDebounceInterval, presses, press);
      presses := presses + [press];
      action := ActionFor(id);
      if action.None? {
        return None;
      }
      var key := DebounceKey(id);
      if repeatDebounceInterval > 0.0 && key in lastDispatchByActionKey {
        var elapsed := now - lastDispatchByActionKey[key];
        if elapsed >= 0.0 && elapsed < repeatDebounceInterval {
          return None;
        }
      }
      RecordsNext(lastDispatchByActionKey, performed, press);
      lastDispatchByActionKey := lastDispatchByActionKey[key := now];
    }
  }

  // ---------------------------------------------------------------- keys

  /** Suppression is per action: known ids share a key exactly when they share the action. */
  lemma KeysAreActions(a: nat)
    ensures forall b: nat :: ActionFor(a).Some? && ActionFor(b).Some? ==>
              (DebounceKey(a) == DebounceKey(b) <==> ActionFor(a) == ActionFor(b))
  {
  }

  // ---------------------------------------------------------------- spacing

  /** The clock does not go back. */
  predicate Ordered(presses: seq<Press>) {
    forall i, j :: 0 <= i <= j < |presses| ==> presses[i].at <= presses[j].at
  }

  predicate Spaced(interval: real, performed: seq<Press>) {
    forall i, j :: 0 <= i < j < |performed| && ActionFor(performed[i].id) == ActionFor(performed[j].id) ==>
      performed[j].at - performed[i].at >= interval
  }

  /** The press is timed before the last performance of its action: the elapsed time is
      negative, and the press is let through. */
  predicate TimedBack(performed: seq<Press>, press: Press) {
    var action := ActionFor(press.id);
    && action.Some?
    && var last := LastPerformed(performed, action.value);
       last.Some? && press.at < last.value
  }

  predicate NeverTimedBack(interval: real, presses: seq<Press>) {
    presses == [] ||
    (NeverTimedBack(interval, presses[..|presses| - 1]) &&
     !TimedBack(Performed(interval, presses[..|presses| - 1]), presses[|presses| - 1]))
  }

  lemma {:induction false} LastIsLatest(interval: real, performed: seq<Press>, i: nat)
    requires Spaced(interval, performed) && interval > 0.0
    requires i < |performed| && ActionFor(performed[i].id).Some?
    ensures LastPerformed(performed, ActionFor(performed[i].id).value).Some?
    ensures performed[i].at <= LastPerformed(performed, ActionFor(performed[i].id).value).value
  {
    var last := |performed| - 1;
    if i < last && ActionFor(performed[last].id) != ActionFor(performed[i].id) {
      LastIsLatest(interval, performed[..last], i);
    }
  }

  lemma {:induction false} LastIsOne(performed: seq<Press>, action: Action)
    requires LastPerformed(performed, action).Some?
    ensures exists p :: p in performed && ActionFor(p.id) == Some(action) && p.at == LastPerformed(performed, action).value
  {
    var last := |performed| - 1;
    if ActionFor(performed[last].id) == Some(action) {
      assert performed[last] in performed;
    } else {
      LastIsOne(performed[..last], action);
    }
  }

  lemma {:induction false} PerformedMeaning(interval: real, presses: seq<Press>)
    ensures forall p :: p in Performed(interval, presses) ==> p in presses && ActionFor(p.id).Some?
  {
    if presses != [] {
      PerformedMeaning(interval, presses[..|presses| - 1]);
    }
  }

  lemma FiringKeepsSpacing(interval: real, performed: seq<Press>, press: Press)
    requires Spaced(interval, performed) && interval > 0.0
    requires Fires(interval, performed, press) && !TimedBack(performed, press)
    ensures Spaced(interval, performed + [press])
  {
    forall i | 0 <= i < |performed| && ActionFor(performed[i].id) == ActionFor(press.id)
      ensures press.at - performed[i].at >= interval
    {
      LastIsLatest(interval, performed, i);
    }
  }

  lemma TimingBackBreaksSpacing(interval: real, performed: seq<Press>, press: Press)
    requires interval > 0.0 && TimedBack(performed, press)
    ensures !Spaced(interval, performed + [press])
  {
    LastIsOne(performed, ActionFor(press.id).value);
    var p :| p in performed && ActionFor(p.id) == ActionFor(press.id) && press.at < p.at;
    var i :| 0 <= i < |performed| && performed[i] == p;
    assert (performed + [press])[i] == p && (performed + [press])[|performed|] == press;
  }

  lemma SpacingOfStart(interval: real, performed: seq<Press>, press: Press)
    requires Spaced(interval, performed + [press])
    ensures Spaced(interval, performed)
  {
    var more := performed + [press];
    assert forall i :: 0 <= i < |performed| ==> more[i] == performed[i];
  }

  /** Performances of one action, by its old id or its new one, are at least the interval
      apart, if and only if no press is ever timed before the last performance of its action.
      Clocks that go back and forth between different actions do no harm. */
  lemma {:induction false} SpacedExactly(interval: real, presses: seq<Press>)
    requires interval > 0.0
    ensures Spaced(interval, Performed(interval, presses)) <==> NeverTimedBack(interval, presses)
  {
    if presses != [] {
      var before, press := Performed(interval, presses[..|presses| - 1]), presses[|presses| - 1];
      SpacedExactly(interval, presses[..|presses| - 1]);
      if Fires(interval, before, press) {
        if TimedBack(before, press) {
          TimingBackBreaksSpacing(interval, before, press);
        } else if Spaced(interval, before) {
          FiringKeepsSpacing(interval, before, press);
        } else if Spaced(interval, before + [press]) {
          SpacingOfStart(interval, before, press);
        }
      }
    }
  }

  lemma {:induction false} OrderedClock(interval: real, presses: seq<Press>)
    requires Ordered(presses)
    ensures NeverTimedBack(interval, presses)
  {
    if presses != [] {
      var before, press := presses[..|presses| - 1], presses[|presses| - 1];
      OrderedClock(interval, before);
      PerformedMeaning(interval, before);
      if ActionFor(press.id).Some? && LastPerformed(Performed(interval, before), ActionFor(press.id).value).Some? {
        LastIsOne(Performed(interval, before), ActionFor(press.id).value);
      }
    }
  }

  /** In particular a clock that does not go back keeps the performances apart. */
  lemma PressesAreSpaced(interval: real, presses: seq<Press>)
    requires Ordered(presses) && interval > 0.0
    ensures Spaced(interval, Performed(interval, presses))
  {
    OrderedClock(interval, presses);
    SpacedExactly(interval, presses);
  }

  /** A press of a known key that is not timed back is performed exactly when no performance
      of the same action lies less than the interval back. */
  lemma FiresExactly(interval: real, presses: seq<Press>, press: Press)
    requires NeverTimedBack(interval, presses + [press]) && interval > 0.0 && ActionFor(press.id).Some?
    ensures Fires(interval, Performed(interval, presses), press) <==>
            forall p :: p in Performed(interval, presses) && ActionFor(p.id) == ActionFor(press.id) ==>
              press.at - p.at >= interval
  {
    var performed, action := Performed(interval, presses), ActionFor(press.id).value;
    assert (presses + [press])[..|presses|] == presses;
    SpacedExactly(interval, presses);
    if LastPerformed(performed, action).Some? {
      LastIsOne(performed, action);
    }
    forall p | p in performed && ActionFor(p.id) == Some(action)
      ensures LastPerformed(performed, action).Some? && p.at <= LastPerformed(performed, action).value
    {
      var i :| 0 <= i < |performed| && performed[i] == p;
      LastIsLatest(interval, performed, i);
    }
  }

  /** For instance, a clock that goes back within one action: three performances within one interval. */
  lemma ClockGoingBack()
    ensures var presses := [Press(ADVANCE, 1.0), Press(LEGACY_ADVANCE, 0.5), Press(ADVANCE, 1.5)];
            Performed(1.0, presses) == presses
  {
    var presses := [Press(ADVANCE, 1.0), Press(LEGACY_ADVANCE, 0.5), Press(ADVANCE, 1.5)];
    assert presses[..2][..1] == [Press(ADVANCE, 1.0)] && presses[..2] == [Press(ADVANCE, 1.0), Press(LEGACY_ADVANCE, 0.5)];
    assert [Press(ADVANCE, 1.0)][..0] == [];
    assert Performed(1.0, presses[..1]) == presses[..1];
    assert Performed(1.0, presses[..2]) == presses[..2];
  }

  // ---------------------------------------------------------------- windows

  /** The performances of `action` between `start` and `start + length`, both included. */
  function Within(performed: seq<Press>, action: Action, start: real, length: real): seq<Press> {
    if performed == [] then []
    else
      var before, press := Within(performed[..|performed| - 1], action, start, length), performed[|performed| - 1];
      if ActionFor(press.id) == Some(action) && start <= press.at <= start + length then before + [press] else before
  }

  lemma {:induction false} WithinMeaning(interval: real, performed: seq<Press>, action: Action, start: real, length: real)
    requires Spaced(interval, performed)
    ensures var window := Within(performed, action, start, length);
            && Spaced(interval, window)
            && forall p :: p in window ==>
                 p in performed && ActionFor(p.id) == Some(action) && start <= p.at <= start + length
  {
    if performed != [] {
      var last := |performed| - 1;
      WithinMeaning(interval, performed[..last], action, start, length);
      forall p | p in performed[..last] && ActionFor(p.id) == ActionFor(performed[last].id)
        ensures performed[last].at - p.at >= interval
      {
        var k :| 0 <= k < last && performed[..last][k] == p;
        assert performed[k] == p;
      }
    }
  }

  function Times(n: nat, interval: real): real {
    if n == 0 then 0.0 else Times(n - 1, interval) + interval
  }

  lemma {:induction false} TimesMultiplies(n: nat, interval: real)
    ensures Times(n, interval) == n as real * interval
  {
    if n > 0 {
      TimesMultiplies(n - 1, interval);
      assert n as real * interval == (n - 1) as real * interval + interval;
    }
  }

  lemma {:induction false} SpacingAddsUp(interval: real, window: seq<Press>, action: Action)
    requires Spaced(interval, window) && window != []
    requires forall p :: p in window ==> ActionFor(p.id) == Some(action)
    ensures window[|window| - 1].at - window[0].at >= Times(|window| - 1, interval)
  {
    var last := |window| - 1;
    if last > 0 {
      SpacingAddsUp(interval, window[..last], action);
      assert window[last - 1] in window && window[last] in window;
    }
  }

  lemma FloorBound(n: nat, length: real, interval: real)
    requires interval > 0.0 && n as real * interval <= length
    ensures n <= (length / interval).Floor
  {
    var slack := length / interval - n as real;
    assert slack * interval == length - n as real * interval;
    assert slack >= 0.0;
  }

  lemma WindowIsShort(interval: real, window: seq<Press>, action: Action, start: real, length: real)
    requires Spaced(interval, window) && window != [] && interval > 0.0
    requires forall p :: p in window ==> ActionFor(p.id) == Some(action) && start <= p.at <= start + length
    ensures |window| - 1 <= (length / interval).Floor
  {
    SpacingAddsUp(interval, window, action);
    TimesMultiplies(|window| - 1, interval);
    assert window[0] in window && window[|window| - 1] in window;
    FloorBound(|window| - 1, length, interval);
  }

  /** However often its keys are pressed, and with no press timed back, an action is performed at most
      floor(length / interval) + 1 times in any window. */
  lemma WindowBound(interval: real, presses: seq<Press>, action: Action, start: real, length: real)
    requires NeverTimedBack(interval, presses) && interval > 0.0 && length >= 0.0
    ensures |Within(Performed(interval, presses), action, start, length)| <= (length / interval).Floor + 1
  {
    SpacedExactly(interval, presses);
    var window := Within(Performed(interval, presses), action, start, length);
    WithinMeaning(interval, Performed(interval, presses), action, start, length);
    if window == [] {
      FloorBound(0, length, interval);
    } else {
      WindowIsShort(interval, window, action, start, length);
    }
  }

  /** `n` presses of one key, each an interval after the one before. */
  function Train(id: nat, start: real, interval: real, n: nat): (train: seq<Press>)
    ensures |train| == n
  {
    if n == 0 then [] else Train(id, start, interval, n - 1) + [Press(id, start + Times(n - 1, interval))]
  }

  /** The bound is met: a known key pressed once every interval is performed every time. */
  lemma {:induction false} TrainIsPerformed(id: nat, start: real, interval: real, n: nat)
    requires ActionFor(id).Some? && interval > 0.0
    ensures Performed(interval, Train(id, start, interval, n)) == Train(id, start, interval, n)
  {
    if n > 0 {
      TrainIsPerformed(id, start, interval, n - 1);
      var train := Train(id, start, interval, n);
      assert train[..n - 1] == Train(id, start, interval, n - 1);
    }
  }
}
