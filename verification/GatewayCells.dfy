/** The gateway's two cells, manual mode and current task, and the times they carry
    (`setManualModeActive` and `setCurrentTaskId` in app/orchestrator/src/gateway_store.ts). */
module GatewayCells {
  import opened Prelude

  datatype ManualMode = ManualMode(active: bool, enteredAt: Option<int>, reason: Option<string>, updatedAt: int)

  datatype ManualModeCall = ManualModeCall(active: bool, reason: Option<string>, now: int)

  datatype CurrentTask = CurrentTask(taskId: Option<string>, enteredAt: Option<int>, updatedAt: int)

  datatype CurrentTaskCall = CurrentTaskCall(taskId: Option<string>, now: int)

  const NO_MANUAL_MODE := ManualMode(false, None, None, 0)
  const NO_TASK := CurrentTask(None, None, 0)

  function Or<T>(a: Option<T>, b: Option<T>): Option<T> {
    if a.Some? then a else b
  }

  function SetManualMode(previous: ManualMode, call: ManualModeCall): ManualMode {
    if call.active then
      ManualMode(true, if previous.active then Or(previous.enteredAt, Some(call.now)) else Some(call.now),
                 Or(call.reason, previous.reason), call.now)
    else ManualMode(false, None, None, call.now)
  }

  function SetCurrentTask(previous: CurrentTask, call: CurrentTaskCall): CurrentTask {
    if call.taskId.None? then CurrentTask(None, None, call.now)
    else
      CurrentTask(call.taskId,
                  if previous.taskId == call.taskId then Or(previous.enteredAt, Some(call.now)) else Some(call.now),
                  call.now)
  }

  class Cells {
    var manualMode: ManualMode
    var currentTask: CurrentTask

    constructor ()
      ensures manualMode == NO_MANUAL_MODE && currentTask == NO_TASK
    {
      manualMode, currentTask := NO_MANUAL_MODE, NO_TASK;
    }

    method SetManualModeActive(active: bool, reason: Option<string>, now: int) returns (r: ManualMode)
      modifies this`manualMode
      ensures r == manualMode == SetManualMode(old(manualMode), ManualModeCall(active, reason, now))
    {
      var previous := manualMode;
      if active {
        var entered := now;
        if previous.active && previous.enteredAt.Some? {
          entered := previous.enteredAt.value;
        }
        manualMode := ManualMode(true, Some(entered), if reason.Some? then reason else previous.reason, now);
      } else {
        manualMode := ManualMode(false, None, None, now);
      }
      r := manualMode;
    }

    method SetCurrentTaskId(taskId: Option<string>, now: int) returns (r: CurrentTask)
      modifies this`currentTask
      ensures r == currentTask == SetCurrentTask(old(currentTask), CurrentTaskCall(taskId, now))
    {
      var previous := currentTask;
      if taskId.None? {
        currentTask := CurrentTask(None, None, now);
        return currentTask;
      }
      var entered := now;
      if previous.taskId == taskId && previous.enteredAt.Some? {
        entered := previous.enteredAt.value;
      }
      currentTask := CurrentTask(taskId, Some(entered), now);
      r := currentTask;
    }
  }

  function ManualModeAfter(calls: seq<ManualModeCall>): ManualMode {
    if calls == [] then NO_MANUAL_MODE
    else SetManualMode(ManualModeAfter(calls[..|calls| - 1]), calls[|calls| - 1])
  }

  function CurrentTaskAfter(calls: seq<CurrentTaskCall>): CurrentTask {
    if calls == [] then NO_TASK
    else SetCurrentTask(CurrentTaskAfter(calls[..|calls| - 1]), calls[|calls| - 1])
  }

  /** Before any call manual mode is off and no task is current, since the epoch. */
  lemma NothingIsSet()
    ensures var (mode, current) := (ManualModeAfter([]), CurrentTaskAfter([]));
            && !mode.active && mode.enteredAt.None? && mode.reason.None? && mode.updatedAt == 0
            && current.taskId.None? && current.enteredAt.None? && current.updatedAt == 0
  {
  }

  /** A cell that was loaded on but without an entry time gets one at the next call. */
  lemma LoadedWithoutTime(mode: ManualMode, current: CurrentTask, reason: Option<string>, now: int)
    requires mode.active && mode.enteredAt.None? && current.taskId.Some? && current.enteredAt.None?
    ensures SetManualMode(mode, ManualModeCall(true, reason, now)).enteredAt == Some(now)
    ensures SetCurrentTask(current, CurrentTaskCall(current.taskId, now)).enteredAt == Some(now)
  {
  }

  /** The calls from `start` on are the stretch at the end in which `inside` never fails. */
  ghost predicate LastStretch<T>(calls: seq<T>, start: nat, inside: T -> bool) {
    && start < |calls|
    && (forall i :: start <= i < |calls| ==> inside(calls[i]))
    && (start > 0 ==> !inside(calls[start - 1]))
  }

  /** `reason` is the last one given from `start` on, if any was. */
  ghost predicate LastReason(calls: seq<ManualModeCall>, start: nat, reason: Option<string>) {
    if reason.None? then forall i :: start <= i < |calls| ==> calls[i].reason.None?
    else exists i :: start <= i < |calls| && calls[i].reason == reason &&
                     forall j :: i < j < |calls| ==> calls[j].reason.None?
  }

  lemma StretchGoesOn<T>(calls: seq<T>, start: nat, inside: T -> bool)
    requires calls != [] && LastStretch(calls[..|calls| - 1], start, inside) && inside(calls[|calls| - 1])
    ensures LastStretch(calls, start, inside)
  {
    assert forall i :: 0 <= i < |calls| - 1 ==> calls[..|calls| - 1][i] == calls[i];
  }

  lemma NoReasonGoesOn(calls: seq<ManualModeCall>, start: nat)
    requires start < |calls| && LastReason(calls[..|calls| - 1], start, None) && calls[|calls| - 1].reason.None?
    ensures LastReason(calls, start, None)
  {
    forall i | start <= i < |calls|
      ensures calls[i].reason.None?
    {
      if i < |calls| - 1 {
        assert calls[..|calls| - 1][i] == calls[i];
      }
    }
  }

  lemma OldReasonGoesOn(calls: seq<ManualModeCall>, start: nat, reason: Option<string>)
    requires start < |calls| && reason.Some? && calls[|calls| - 1].reason.None?
    requires LastReason(calls[..|calls| - 1], start, reason)
    ensures LastReason(calls, start, reason)
  {
    var before := calls[..|calls| - 1];
    var i :| start <= i < |before| && before[i].reason == reason && forall j :: i < j < |before| ==> before[j].reason.None?;
    assert calls[i] == before[i];
    forall j | i < j < |calls|
      ensures calls[j].reason.None?
    {
      if j < |before| {
        assert before[j] == calls[j];
      }
    }
  }

  lemma ReasonGoesOn(calls: seq<ManualModeCall>, start: nat, reason: Option<string>)
    requires start < |calls| - 1 && LastReason(calls[..|calls| - 1], start, reason)
    ensures LastReason(calls, start, Or(calls[|calls| - 1].reason, reason))
  {
    if calls[|calls| - 1].reason.None? {
      if reason.None? {
        NoReasonGoesOn(calls, start);
      } else {
        OldReasonGoesOn(calls, start, reason);
      }
    }
  }

  /** After any calls, manual mode is on exactly if the last call turned it on; then its entry
      time is that of the first call of the current unbroken stretch, however often it was
      turned on again since, and its reason is the last one given in that stretch. */
  lemma {:induction false} ManualModeEntry(calls: seq<ManualModeCall>) returns (start: nat)
    requires calls != []
    ensures var state := ManualModeAfter(calls);
            && state.updatedAt == calls[|calls| - 1].now
            && (state.active <==> calls[|calls| - 1].active)
            && (!state.active ==> state.enteredAt.None? && state.reason.None?)
            && (state.active ==>
                  LastStretch(calls, start, (c: ManualModeCall) => c.active) &&
                  state.enteredAt == Some(calls[start].now) && LastReason(calls, start, state.reason))
  {
    var n := |calls| - 1;
    start := n;
    if n > 0 && calls[n].active && calls[n - 1].active {
      start := ManualModeEntry(calls[..n]);
      assert calls[..n][n - 1].active;
      StretchGoesOn(calls, start, (c: ManualModeCall) => c.active);
      ReasonGoesOn(calls, start, ManualModeAfter(calls[..n]).reason);
    } else if n > 0 {
      var _ := ManualModeEntry(calls[..n]);
    }
  }

  /** After any calls the current task is the one last named, and its entry time is that of
      the last switch onto it: naming it again does not move the time. */
  lemma {:induction false} CurrentTaskEntry(calls: seq<CurrentTaskCall>) returns (start: nat)
    requires calls != []
    ensures var state := CurrentTaskAfter(calls);
            var last := calls[|calls| - 1];
            && state.taskId == last.taskId && state.updatedAt == last.now
            && (state.taskId.None? ==> state.enteredAt.None?)
            && (state.taskId.Some? ==>
                  LastStretch(calls, start, (c: CurrentTaskCall) => c.taskId == last.taskId) &&
                  state.enteredAt == Some(calls[start].now))
  {
    var n := |calls| - 1;
    start := n;
    if n > 0 {
      var before := CurrentTaskEntry(calls[..n]);
      assert calls[..n][n - 1] == calls[n - 1];
      if calls[n].taskId.Some? && calls[n - 1].taskId == calls[n].taskId {
        start := before;
      }
    }
  }
}
