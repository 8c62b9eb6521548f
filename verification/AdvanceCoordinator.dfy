/** The advance key: one decision per press over queue, tasks and desktops
    (app/macos/Sources/EventLoopQueueCore/AdvanceCoordinator.swift), and its effect
    (app/macos/Sources/EventLoopQueueCore/QueueViewModel.swift), for requests that succeed. */
module AdvanceCoordinator {
  import opened Prelude

  datatype Paper = Paper(id: string, taskId: Option<string>)

  /** A dictionary from workspace to task, in its iteration order, whichever that is. */
  type Desktops = seq<(string, string)>

  datatype Anchor = CodexThread(id: string) | GhosttyWindow(id: string)

  datatype AdvanceState =
    | ManualMode
    | OnBoundDesktopWithPaper(taskId: string, packetId: string)
    | OnBoundDesktop(taskId: string)
    | Limbo

  datatype Surroundings = Surroundings(
    manualModeActive: bool,
    currentWorkspaceId: Option<string>,
    codexThreadId: Option<string>,
    ghosttyWindowId: Option<string>,
    limboWorkspaceId: string)

  datatype Snapshot = Snapshot(
    around: Surroundings,
    currentTask: Option<string>,
    queue: seq<Paper>,
    tasksByWorkspace: Desktops)

  datatype Action =
    | ToastManualModeActive
    | ToastNoForegroundCodex
    | CreateTaskFromForeground(anchor: Anchor, workspaceId: string)
    | SaveLayoutAndPullPaper(currentTaskId: string, nextPacketId: string, nextWorkspaceId: string)
    | SaveLayoutAndEnterLimbo(currentTaskId: string, limboWorkspaceId: string)
    | MarkPaperDoneAndPullNext(packetId: string, nextPacketId: string, nextWorkspaceId: string)
    | MarkPaperDoneAndReturnToTask(packetId: string, taskId: string, taskWorkspaceId: string)
    | MarkPaperDoneAndEnterLimbo(packetId: string, limboWorkspaceId: string)

  // ---------------------------------------------------------------- the decision

  function PapersOf(queue: seq<Paper>, taskId: string): (papers: seq<Paper>)
    ensures forall p :: p in papers <==> p in queue && p.taskId == Some(taskId)
  {
    Filter(queue, (p: Paper) => p.taskId == Some(taskId))
  }

  function Without(queue: seq<Paper>, packetId: string): (papers: seq<Paper>)
    ensures forall p :: p in papers <==> p in queue && p.id != packetId
  {
    Filter(queue, (p: Paper) => p.id != packetId)
  }

  function WorkspaceFor(taskId: Option<string>, desktops: Desktops): (workspace: Option<string>)
    ensures workspace.Some? <==> taskId.Some? && exists i :: 0 <= i < |desktops| && desktops[i].1 == taskId.value
    ensures workspace.Some? ==> (workspace.value, taskId.value) in desktops
  {
    if taskId.None? || desktops == [] then None
    else if desktops[0].1 == taskId.value then Some(desktops[0].0)
    else WorkspaceFor(taskId, desktops[1..])
  }

  function Classify(snapshot: Snapshot): AdvanceState {
    if snapshot.around.manualModeActive then ManualMode
    else if snapshot.currentTask.None? then Limbo
    else
      var taskId := snapshot.currentTask.value;
      var papers := PapersOf(snapshot.queue, taskId);
      if papers != [] then OnBoundDesktopWithPaper(taskId, papers[0].id) else OnBoundDesktop(taskId)
  }

  function NextAction(snapshot: Snapshot): Action {
    var around := snapshot.around;
    match Classify(snapshot)
    case ManualMode => ToastManualModeActive
    case Limbo =>
      if around.currentWorkspaceId.None? then ToastNoForegroundCodex
      else if around.codexThreadId.Some? then
        CreateTaskFromForeground(CodexThread(around.codexThreadId.value), around.currentWorkspaceId.value)
      else if around.ghosttyWindowId.Some? then
        CreateTaskFromForeground(GhosttyWindow(around.ghosttyWindowId.value), around.currentWorkspaceId.value)
      else ToastNoForegroundCodex
    case OnBoundDesktop(taskId) =>
      var workspace := HeadWorkspace(snapshot.queue, snapshot.tasksByWorkspace);
      if workspace.Some? then SaveLayoutAndPullPaper(taskId, snapshot.queue[0].id, workspace.value)
      else SaveLayoutAndEnterLimbo(taskId, around.limboWorkspaceId)
    case OnBoundDesktopWithPaper(taskId, packetId) =>
      var remaining := Without(snapshot.queue, packetId);
      var workspace := HeadWorkspace(remaining, snapshot.tasksByWorkspace);
      var own := WorkspaceFor(Some(taskId), snapshot.tasksByWorkspace);
      if workspace.Some? then MarkPaperDoneAndPullNext(packetId, remaining[0].id, workspace.value)
      else if own.Some? then MarkPaperDoneAndReturnToTask(packetId, taskId, own.value)
      else MarkPaperDoneAndEnterLimbo(packetId, around.limboWorkspaceId)
  }

  function HeadWorkspace(queue: seq<Paper>, desktops: Desktops): (workspace: Option<string>)
    ensures workspace.Some? ==> queue != []
  {
    if queue == [] then None else WorkspaceFor(queue[0].taskId, desktops)
  }

  predicate OnDesktop(snapshot: Snapshot, taskId: Option<string>, workspace: string) {
    taskId.Some? && (workspace, taskId.value) in snapshot.tasksByWorkspace
  }

  predicate Nowhere(snapshot: Snapshot, taskId: Option<string>) {
    taskId.None? || forall d :: d in snapshot.tasksByWorkspace ==> d.1 != taskId.value
  }

  /** Whatever is decided names the right things: a paper is marked done only if it is the
      first one of the current task; the paper pulled is the first of the others and the
      workspace is a desktop of its task; and the key stays or leaves only if the first of the
      others is on no desktop. */
  lemma ActionMeaning(snapshot: Snapshot)
    requires !snapshot.around.manualModeActive && snapshot.currentTask.Some?
    ensures var current := snapshot.currentTask.value;
            var papers := PapersOf(snapshot.queue, current);
            match NextAction(snapshot)
            case SaveLayoutAndPullPaper(taskId, next, workspace) =>
              && papers == [] && taskId == current && snapshot.queue != []
              && next == snapshot.queue[0].id && OnDesktop(snapshot, snapshot.queue[0].taskId, workspace)
            case SaveLayoutAndEnterLimbo(taskId, workspace) =>
              && papers == [] && taskId == current && workspace == snapshot.around.limboWorkspaceId
              && (snapshot.queue == [] || Nowhere(snapshot, snapshot.queue[0].taskId))
            case MarkPaperDoneAndPullNext(packetId, next, workspace) =>
              && papers != [] && packetId == papers[0].id
              && var others := Without(snapshot.queue, packetId);
                 others != [] && next == others[0].id && OnDesktop(snapshot, others[0].taskId, workspace)
            case MarkPaperDoneAndReturnToTask(packetId, taskId, workspace) =>
              && papers != [] && packetId == papers[0].id && taskId == current
              && OnDesktop(snapshot, Some(current), workspace)
              && var others := Without(snapshot.queue, packetId);
                 others == [] || Nowhere(snapshot, others[0].taskId)
            case MarkPaperDoneAndEnterLimbo(packetId, workspace) =>
              && papers != [] && packetId == papers[0].id && workspace == snapshot.around.limboWorkspaceId
              && Nowhere(snapshot, Some(current))
              && var others := Without(snapshot.queue, packetId);
                 others == [] || Nowhere(snapshot, others[0].taskId)
            case _ => false
  {
  }

  // ---------------------------------------------------------------- the effect

  /** A task and the desktop it is bound to, if it has one. */
  datatype Task = Task(id: string, workspace: Option<string>)

  /** What the server holds: tasks in listing order, open papers, current task, and the
      papers completed so far. */
  datatype Desk = Desk(tasks: seq<Task>, queue: seq<Paper>, current: Option<string>, completed: seq<string>)
  {
    predicate HasTask(taskId: string) {
      exists i :: 0 <= i < |tasks| && tasks[i].id == taskId
    }

    predicate Relevant(taskId: string) {
      current == Some(taskId) || exists i :: 0 <= i < |queue| && queue[i].taskId == Some(taskId)
    }

    ghost predicate Valid() {
      && (current.Some? ==> HasTask(current.value))
      && DistinctIds(queue)
    }
  }

  /** Tasks that matter to this press, each under its desktop; the first on a desktop stays. */
  function TasksByWorkspace(desk: Desk, count: nat): Desktops
    requires count <= |desk.tasks|
  {
    if count == 0 then []
    else
      var before := TasksByWorkspace(desk, count - 1);
      var task := desk.tasks[count - 1];
      if desk.Relevant(task.id) && task.workspace.Some? && forall d :: d in before ==> d.0 != task.workspace.value
      then before + [(task.workspace.value, task.id)]
      else before
  }

  function LoadSnapshot(desk: Desk, around: Surroundings): Snapshot {
    Snapshot(around, desk.current, desk.queue, TasksByWorkspace(desk, |desk.tasks|))
  }

  function Complete(desk: Desk, packetId: string): Desk {
    desk.(queue := Without(desk.queue, packetId), completed := desk.completed + [packetId])
  }

  /** Entering a task the server does not know is refused and ignored. */
  function Enter(desk: Desk, taskId: Option<string>): Desk {
    if taskId.Some? && desk.HasTask(taskId.value) then desk.(current := taskId) else desk
  }

  function SwitchTo(desk: Desk, packetId: string): Desk {
    var found := Filter(desk.queue, (p: Paper) => p.id == packetId);
    if found == [] then desk else Enter(desk, found[0].taskId)
  }

  function Execute(desk: Desk, action: Action): Desk {
    match action
    case ToastManualModeActive => desk
    case ToastNoForegroundCodex => desk
    case CreateTaskFromForeground(_, _) => desk
    case SaveLayoutAndPullPaper(taskId, next, _) => if desk.HasTask(taskId) then SwitchTo(desk, next) else desk
    case SaveLayoutAndEnterLimbo(taskId, _) => if desk.HasTask(taskId) then desk.(current := None) else desk
    case MarkPaperDoneAndPullNext(packetId, next, _) => SwitchTo(Complete(desk, packetId), next)
    case MarkPaperDoneAndReturnToTask(packetId, taskId, _) => Enter(Complete(desk, packetId), Some(taskId))
    case MarkPaperDoneAndEnterLimbo(packetId, _) => Complete(desk, packetId).(current := None)
  }

  /** One press of the key. A run of presses ends in limbo: what a press does there starts a
      new task or leases a paper, and is not part of the run. */
  function Press(desk: Desk, around: Surroundings): Desk {
    if desk.current.None? then desk else Execute(desk, NextAction(LoadSnapshot(desk, around)))
  }

  function Presses(desk: Desk, arounds: seq<Surroundings>): Desk
    decreases |arounds|
  {
    if arounds == [] then desk else Presses(Press(desk, arounds[0]), arounds[1..])
  }

  // ---------------------------------------------------------------- manual mode and limbo

  /** In manual mode, and only then, the decision is to say so; nothing changes. */
  lemma ManualModeKeeps(desk: Desk, around: Surroundings)
    ensures NextAction(LoadSnapshot(desk, around)) == ToastManualModeActive <==> around.manualModeActive
    ensures around.manualModeActive ==> Press(desk, around) == desk
  {
  }

  /** The presses made outside manual mode. */
  function AtWork(arounds: seq<Surroundings>): (r: seq<Surroundings>)
    ensures forall around :: around in r <==> around in arounds && !around.manualModeActive
  {
    Filter(arounds, (around: Surroundings) => !around.manualModeActive)
  }

  /** Presses in manual mode drop out of a run: it ends as that of its other presses does. */
  lemma {:induction false} ManualPressesDropOut(desk: Desk, arounds: seq<Surroundings>)
    ensures Presses(desk, arounds) == Presses(desk, AtWork(arounds))
    decreases |arounds|
  {
    if arounds != [] {
      ManualModeKeeps(desk, arounds[0]);
      ManualPressesDropOut(Press(desk, arounds[0]), arounds[1..]);
      var rest := AtWork(arounds[1..]);
      assert AtWork(arounds) == if arounds[0].manualModeActive then rest else [arounds[0]] + rest;
      assert ([arounds[0]] + rest)[1..] == rest;
    }
  }

  /** In limbo a task is created if and only if a workspace has the focus and a Codex thread or a
      Ghostty window is in front: on that workspace, and for the thread wherever there is one.
      Otherwise the decision is to say that nothing is in front. */
  lemma LimboCreates(snapshot: Snapshot)
    requires snapshot.currentTask.None? && !snapshot.around.manualModeActive
    ensures var (action, around) := (NextAction(snapshot), snapshot.around);
            var inFront := around.codexThreadId.Some? || around.ghosttyWindowId.Some?;
            && (action.CreateTaskFromForeground? <==> around.currentWorkspaceId.Some? && inFront)
            && (action.CreateTaskFromForeground? ==>
                  && Some(action.workspaceId) == around.currentWorkspaceId
                  && (if action.anchor.CodexThread? then Some(action.anchor.id) == around.codexThreadId
                      else around.codexThreadId.None? && Some(action.anchor.id) == around.ghosttyWindowId))
            && (!action.CreateTaskFromForeground? ==> action == ToastNoForegroundCodex)
  {
  }

  /** No task is created, and nothing in front asked for, while a task is current. */
  lemma OnlyLimboCreates(snapshot: Snapshot)
    ensures NextAction(snapshot).CreateTaskFromForeground? || NextAction(snapshot).ToastNoForegroundCodex? ==>
              snapshot.currentTask.None? && !snapshot.around.manualModeActive
  {
  }

  // ---------------------------------------------------------------- one press

  function OpenPaper(desk: Desk): Option<Paper> {
    if desk.current.None? then None
    else
      var papers := PapersOf(desk.queue, desk.current.value);
      if papers == [] then None else Some(papers[0])
  }

  lemma {:induction false} DesktopsAreTasks(desk: Desk, count: nat)
    requires count <= |desk.tasks|
    ensures forall d :: d in TasksByWorkspace(desk, count) ==>
              exists i :: 0 <= i < count && desk.tasks[i] == Task(d.1, Some(d.0)) && desk.Relevant(d.1)
  {
    if count > 0 {
      DesktopsAreTasks(desk, count - 1);
    }
  }

  predicate DistinctIds(queue: seq<Paper>) {
    forall i, j :: 0 <= i < j < |queue| ==> queue[i].id != queue[j].id
  }

  /** Taking out the one paper of that id keeps the others, in order. */
  lemma {:induction false} WithoutOne(queue: seq<Paper>, paper: Paper)
    requires DistinctIds(queue) && paper in queue
    ensures DistinctIds(Without(queue, paper.id))
    ensures |Without(queue, paper.id)| == |queue| - 1
    ensures forall p :: p in queue <==> p == paper || p in Without(queue, paper.id)
  {
    var rest := queue[1..];
    assert queue == [queue[0]] + rest;
    if queue[0] == paper {
      WithoutNone(rest, paper.id);
    } else {
      WithoutOne(rest, paper);
    }
  }

  lemma {:induction false} WithoutNone(queue: seq<Paper>, id: string)
    requires forall p :: p in queue ==> p.id != id
    ensures Without(queue, id) == queue
  {
    if queue != [] {
      WithoutNone(queue[1..], id);
    }
  }

  /** The papers left once the one on the current desktop is done. */
  function Left(desk: Desk): seq<Paper> {
    if OpenPaper(desk).Some? then Without(desk.queue, OpenPaper(desk).value.id) else desk.queue
  }

  predicate Known(desk: Desk, taskId: Option<string>) {
    WorkspaceFor(taskId, TasksByWorkspace(desk, |desk.tasks|)).Some?
  }

  lemma SwitchToHead(desk: Desk)
    requires desk.queue != []
    ensures SwitchTo(desk, desk.queue[0].id) == Enter(desk, desk.queue[0].taskId)
  {
  }

  lemma KnownIsTask(desk: Desk, taskId: Option<string>)
    requires Known(desk, taskId)
    ensures taskId.Some? && desk.HasTask(taskId.value)
  {
    DesktopsAreTasks(desk, |desk.tasks|);
  }

  lemma DecisionWithPaper(desk: Desk, around: Surroundings)
    requires desk.current.Some? && !around.manualModeActive && OpenPaper(desk).Some?
    ensures var (action, left) := (NextAction(LoadSnapshot(desk, around)), Left(desk));
            if left != [] && Known(desk, left[0].taskId) then
              action.MarkPaperDoneAndPullNext? && action.packetId == OpenPaper(desk).value.id &&
              action.nextPacketId == left[0].id
            else if Known(desk, desk.current) then
              action.MarkPaperDoneAndReturnToTask? && action.packetId == OpenPaper(desk).value.id &&
              Some(action.taskId) == desk.current
            else action.MarkPaperDoneAndEnterLimbo? && action.packetId == OpenPaper(desk).value.id
  {
  }

  lemma DecisionWithoutPaper(desk: Desk, around: Surroundings)
    requires desk.current.Some? && !around.manualModeActive && OpenPaper(desk).None?
    ensures var action := NextAction(LoadSnapshot(desk, around));
            if desk.queue != [] && Known(desk, desk.queue[0].taskId) then
              action.SaveLayoutAndPullPaper? && Some(action.currentTaskId) == desk.current &&
              action.nextPacketId == desk.queue[0].id
            else action.SaveLayoutAndEnterLimbo? && Some(action.currentTaskId) == desk.current
  {
  }

  lemma PressWithPaper(desk: Desk, around: Surroundings)
    requires desk.Valid() && desk.current.Some? && !around.manualModeActive && OpenPaper(desk).Some?
    ensures var (packetId, left) := (OpenPaper(desk).value.id, Left(desk));
            Press(desk, around) ==
            Desk(desk.tasks, left,
                 if left != [] && Known(desk, left[0].taskId) then left[0].taskId
                 else if Known(desk, desk.current) then desk.current else None,
                 desk.completed + [packetId])
  {
    var left := Left(desk);
    DecisionWithPaper(desk, around);
    if left != [] && Known(desk, left[0].taskId) {
      KnownIsTask(desk, left[0].taskId);
      SwitchToHead(Complete(desk, OpenPaper(desk).value.id));
    }
  }

  lemma PressWithoutPaper(desk: Desk, around: Surroundings)
    requires desk.Valid() && desk.current.Some? && !around.manualModeActive && OpenPaper(desk).None?
    ensures Press(desk, around) ==
            desk.(current := if desk.queue != [] && Known(desk, desk.queue[0].taskId) then desk.queue[0].taskId else None)
  {
    DecisionWithoutPaper(desk, around);
    if desk.queue != [] && Known(desk, desk.queue[0].taskId) {
      KnownIsTask(desk, desk.queue[0].taskId);
      SwitchToHead(desk);
    }
  }

  lemma LeftIsDistinct(desk: Desk)
    requires desk.Valid()
    ensures DistinctIds(Left(desk))
  {
    if OpenPaper(desk).Some? {
      WithoutOne(desk.queue, OpenPaper(desk).value);
    }
  }

  /** What a press on a bound desktop does: the open paper, if any, is completed; then the
      head of the queue is pulled if it has a desktop, otherwise the key returns to the task
      whose paper was completed if that has one, otherwise it enters limbo. */
  lemma PressEffect(desk: Desk, around: Surroundings)
    requires desk.Valid() && desk.current.Some? && !around.manualModeActive
    ensures var open := OpenPaper(desk);
            var left := Left(desk);
            Press(desk, around) ==
            Desk(desk.tasks, left,
                 if left != [] && Known(desk, left[0].taskId) then left[0].taskId
                 else if open.Some? && Known(desk, desk.current) then desk.current
                 else None,
                 if open.Some? then desk.completed + [open.value.id] else desk.completed)
    ensures Press(desk, around).Valid()
  {
    var left := Left(desk);
    LeftIsDistinct(desk);
    if OpenPaper(desk).Some? {
      PressWithPaper(desk, around);
    } else {
      PressWithoutPaper(desk, around);
    }
    if left != [] && Known(desk, left[0].taskId) {
      KnownIsTask(desk, left[0].taskId);
    }
  }

  /** Limbo is entered only with the queue empty or its head on no desktop this press saw. */
  lemma LimboReason(desk: Desk, around: Surroundings)
    requires desk.Valid() && desk.current.Some? && !around.manualModeActive
    requires Press(desk, around).current.None?
    ensures var queue := Press(desk, around).queue;
            queue == [] || !Known(desk, queue[0].taskId)
  {
    var left := Left(desk);
    if left != [] && Known(desk, left[0].taskId) {
      KnownIsTask(desk, left[0].taskId);
    }
    PressEffect(desk, around);
  }

  // ---------------------------------------------------------------- whole runs

  /** Presses still to come at most: two for every paper, one more with no paper open. */
  function Distance(desk: Desk): nat {
    if desk.current.None? then 0
    else 2 * |desk.queue| + if OpenPaper(desk).Some? then 0 else 1
  }

  lemma PressComesCloser(desk: Desk, around: Surroundings)
    requires desk.Valid() && desk.current.Some? && !around.manualModeActive
    ensures Press(desk, around).Valid()
    ensures Distance(Press(desk, around)) < Distance(desk)
  {
    PressEffect(desk, around);
    if OpenPaper(desk).Some? {
      WithoutOne(desk.queue, OpenPaper(desk).value);
    } else if desk.queue != [] && Known(desk, desk.queue[0].taskId) {
      assert desk.queue[0] in PapersOf(desk.queue, desk.queue[0].taskId.value);
    } else {
      assert Press(desk, around).current.None?;
    }
  }

  lemma {:induction false} LimboInTime(desk: Desk, arounds: seq<Surroundings>)
    requires desk.Valid() && |AtWork(arounds)| >= Distance(desk)
    ensures Presses(desk, arounds).current.None?
    decreases |arounds|
  {
    if arounds != [] {
      assert |AtWork(arounds)| == |AtWork(arounds[1..])| + if arounds[0].manualModeActive then 0 else 1;
      ManualModeKeeps(desk, arounds[0]);
      if desk.current.Some? && !arounds[0].manualModeActive {
        PressComesCloser(desk, arounds[0]);
      }
      LimboInTime(Press(desk, arounds[0]), arounds[1..]);
    }
  }

  /** From a bound desktop with n papers, 2n + 1 presses outside manual mode reach limbo, whatever
      has the focus at each of them. */
  lemma LimboIsReached(desk: Desk, arounds: seq<Surroundings>)
    requires desk.Valid()
    requires |AtWork(arounds)| >= 2 * |desk.queue| + 1 || |AtWork(arounds)| >= Distance(desk)
    ensures Presses(desk, arounds).current.None?
  {
    LimboInTime(desk, arounds);
  }

  function Ids(queue: seq<Paper>): seq<string> {
    if queue == [] then [] else [queue[0].id] + Ids(queue[1..])
  }

  lemma {:induction false} IdsWithoutOne(queue: seq<Paper>, paper: Paper)
    requires DistinctIds(queue) && paper in queue
    ensures multiset(Ids(queue)) == multiset(Ids(Without(queue, paper.id))) + multiset{paper.id}
  {
    if queue[0] == paper {
      WithoutNone(queue[1..], paper.id);
    } else {
      IdsWithoutOne(queue[1..], paper);
    }
  }

  /** Every paper is where it was, or moved from the queue to the completed ones. */
  ghost predicate Conserves(before: Desk, after: Desk) {
    && after.Valid() && before.completed <= after.completed
    && multiset(Ids(after.queue)) + multiset(after.completed) ==
       multiset(Ids(before.queue)) + multiset(before.completed)
  }

  lemma PressAtWorkConserves(desk: Desk, around: Surroundings)
    requires desk.Valid() && desk.current.Some? && !around.manualModeActive
    ensures Conserves(desk, Press(desk, around))
  {
    PressEffect(desk, around);
    if OpenPaper(desk).Some? {
      IdsWithoutOne(desk.queue, OpenPaper(desk).value);
    }
  }

  lemma PressConserves(desk: Desk, around: Surroundings)
    requires desk.Valid()
    ensures Conserves(desk, Press(desk, around))
  {
    ManualModeKeeps(desk, around);
    if desk.current.Some? && !around.manualModeActive {
      PressAtWorkConserves(desk, around);
    }
  }

  /** Over any run every paper is either still open or completed, and counted once. */
  lemma {:induction false} PapersAreConserved(desk: Desk, arounds: seq<Surroundings>)
    requires desk.Valid()
    ensures var end := Presses(desk, arounds);
            && multiset(Ids(end.queue)) + multiset(end.completed) == multiset(Ids(desk.queue)) + multiset(desk.completed)
            && desk.completed <= end.completed
    decreases |arounds|
  {
    if arounds != [] {
      PressConserves(desk, arounds[0]);
      PapersAreConserved(Press(desk, arounds[0]), arounds[1..]);
    }
  }

  lemma {:induction false} IdsCountOnce(queue: seq<Paper>, id: string)
    requires DistinctIds(queue)
    ensures multiset(Ids(queue))[id] <= 1
    ensures id in Ids(queue) ==> exists i :: 0 <= i < |queue| && queue[i].id == id
  {
    if queue != [] {
      var rest := queue[1..];
      IdsCountOnce(rest, id);
      assert id in Ids(rest) ==> queue[0].id != id;
    }
  }

  /** No paper is completed twice in one run. */
  lemma NoPaperTwice(desk: Desk, arounds: seq<Surroundings>)
    requires desk.Valid() && desk.completed == []
    ensures Distinct(Presses(desk, arounds).completed)
  {
    PapersAreConserved(desk, arounds);
    var completed := Presses(desk, arounds).completed;
    assert multiset(desk.completed) == multiset{};
    forall id
      ensures multiset(completed)[id] <= 1
    {
      IdsCountOnce(desk.queue, id);
      assert multiset(completed)[id] <= (multiset(Ids(Presses(desk, arounds).queue)) + multiset(completed))[id];
    }
    MultiplicityBack(completed);
  }

  lemma {:induction false} StaysInLimbo(desk: Desk, arounds: seq<Surroundings>)
    requires desk.current.None?
    ensures Presses(desk, arounds) == desk
    decreases |arounds|
  {
    if arounds != [] {
      StaysInLimbo(desk, arounds[1..]);
    }
  }

  lemma LimboAtOnce(desk: Desk, arounds: seq<Surroundings>)
    requires desk.Valid() && desk.current.Some? && arounds != [] && !arounds[0].manualModeActive
    requires Press(desk, arounds[0]).current.None?
    ensures Presses(desk, arounds) == Press(desk, arounds[0])
    ensures var queue := Press(desk, arounds[0]).queue;
            queue == [] || !Known(desk, queue[0].taskId)
  {
    StaysInLimbo(Press(desk, arounds[0]), arounds[1..]);
    LimboReason(desk, arounds[0]);
  }

  lemma LaterPresses(desk: Desk, arounds: seq<Surroundings>, k: nat)
    requires k < |arounds|
    ensures Presses(desk, arounds[..k + 1]) == Presses(Press(desk, arounds[0]), arounds[1..][..k])
  {
    assert arounds[..k + 1][0] == arounds[0] && arounds[..k + 1][1..] == arounds[1..][..k];
  }

  /** A run from a bound desktop that has ended in limbo got there by its press `k`, and is left
      with an empty queue or with a head on no desktop that press saw. */
  lemma {:induction false} LimboOfRun(desk: Desk, arounds: seq<Surroundings>) returns (k: nat)
    requires desk.Valid() && desk.current.Some? && Presses(desk, arounds).current.None?
    ensures k < |arounds| && !arounds[k].manualModeActive
    ensures var (last, end) := (Presses(desk, arounds[..k]), Presses(desk, arounds));
            && last.current.Some? && Press(last, arounds[k]) == end
            && (end.queue == [] || !Known(last, end.queue[0].taskId))
    decreases |arounds|
  {
    PressConserves(desk, arounds[0]);
    ManualModeKeeps(desk, arounds[0]);
    if Press(desk, arounds[0]).current.None? {
      k := 0;
      LimboAtOnce(desk, arounds);
    } else {
      k := LimboOfRun(Press(desk, arounds[0]), arounds[1..]);
      LaterPresses(desk, arounds, k);
      k := k + 1;
    }
  }

  // ---------------------------------------------------------------- when everything is completed

  /** The tasks that matter to a press with these papers: the current one and theirs. */
  function Matter(current: Option<string>, papers: seq<Paper>): set<Option<string>> {
    {current} + set p | p in papers :: p.taskId
  }

  /** Of the tasks that matter, this one is listed first on its desktop. */
  ghost predicate Reaches(tasks: seq<Task>, matter: set<Option<string>>, taskId: Option<string>) {
    taskId.Some? && taskId in matter && exists k :: 0 <= k < |tasks| && FirstThere(tasks, matter, k, taskId.value)
  }

  predicate FirstThere(tasks: seq<Task>, matter: set<Option<string>>, k: nat, taskId: string)
    requires k < |tasks|
  {
    && tasks[k].id == taskId && tasks[k].workspace.Some?
    && forall j :: 0 <= j < k && tasks[j].workspace == tasks[k].workspace ==> Some(tasks[j].id) !in matter
  }

  lemma {:induction false} DesktopIsTaken(desk: Desk, count: nat, j: nat)
    requires j < count <= |desk.tasks| && desk.Relevant(desk.tasks[j].id) && desk.tasks[j].workspace.Some?
    ensures exists d :: d in TasksByWorkspace(desk, count) && d.0 == desk.tasks[j].workspace.value
  {
    if j < count - 1 {
      DesktopIsTaken(desk, count - 1, j);
    } else {
      assert (desk.tasks[j].workspace.value, desk.tasks[j].id) in TasksByWorkspace(desk, count) ||
             exists d :: d in TasksByWorkspace(desk, j) && d.0 == desk.tasks[j].workspace.value;
    }
  }

  /** A desktop is entered for the first task that matters there. */
  lemma {:induction false} DesktopsAreFirsts(desk: Desk, count: nat)
    requires count <= |desk.tasks|
    ensures forall d :: d in TasksByWorkspace(desk, count) ==>
              exists k :: 0 <= k < count && desk.tasks[k] == Task(d.1, Some(d.0)) &&
                          FirstThere(desk.tasks, Matter(desk.current, desk.queue), k, d.1)
  {
    if count > 0 {
      var k, matter := count - 1, Matter(desk.current, desk.queue);
      var task := desk.tasks[k];
      DesktopsAreFirsts(desk, k);
      MatterIsRelevant(desk);
      if task.workspace.Some? && forall d :: d in TasksByWorkspace(desk, k) ==> d.0 != task.workspace.value {
        forall j | 0 <= j < k && desk.tasks[j].workspace == task.workspace
          ensures Some(desk.tasks[j].id) !in matter
        {
          if desk.Relevant(desk.tasks[j].id) {
            DesktopIsTaken(desk, k, j);
          }
        }
        assert FirstThere(desk.tasks, matter, k, task.id);
      }
    }
  }

  lemma MatterIsRelevant(desk: Desk)
    ensures forall id :: Some(id) in Matter(desk.current, desk.queue) <==> desk.Relevant(id)
  {
  }

  lemma {:induction false} FirstIsEntered(desk: Desk, count: nat, k: nat)
    requires k < count <= |desk.tasks| && desk.Relevant(desk.tasks[k].id)
    requires FirstThere(desk.tasks, Matter(desk.current, desk.queue), k, desk.tasks[k].id)
    ensures (desk.tasks[k].workspace.value, desk.tasks[k].id) in TasksByWorkspace(desk, count)
  {
    if k < count - 1 {
      FirstIsEntered(desk, count - 1, k);
    } else {
      DesktopsAreTasks(desk, k);
      MatterIsRelevant(desk);
    }
  }

  /** What a press knows about desktops, told without its dictionary. */
  lemma KnownExactly(desk: Desk, taskId: Option<string>)
    requires taskId in Matter(desk.current, desk.queue)
    ensures Known(desk, taskId) <==> Reaches(desk.tasks, Matter(desk.current, desk.queue), taskId)
  {
    var n, matter := |desk.tasks|, Matter(desk.current, desk.queue);
    if Known(desk, taskId) {
      DesktopsAreFirsts(desk, n);
    }
    if Reaches(desk.tasks, matter, taskId) {
      var k :| 0 <= k < n && FirstThere(desk.tasks, matter, k, taskId.value);
      MatterIsRelevant(desk);
      FirstIsEntered(desk, n, k);
    }
  }

  /** Each of these papers, in order, belongs to a task that is reached when the papers in
      front of it are done. */
  ghost predicate Served(tasks: seq<Task>, current: Option<string>, papers: seq<Paper>)
    decreases |papers|
  {
    papers == [] ||
    (Reaches(tasks, Matter(current, papers), papers[0].taskId) && Served(tasks, papers[0].taskId, papers[1..]))
  }

  /** All papers will be done; a run that has ended has nothing left. */
  ghost predicate Clear(desk: Desk) {
    if desk.current.None? then desk.queue == [] else Served(desk.tasks, desk.current, Left(desk))
  }

  lemma LeftMatters(desk: Desk)
    requires desk.Valid()
    ensures Matter(desk.current, Left(desk)) == Matter(desk.current, desk.queue)
  {
    if OpenPaper(desk).Some? {
      var open := OpenPaper(desk).value;
      WithoutOne(desk.queue, open);
      assert open.taskId == desk.current;
      forall p | p in desk.queue
        ensures p.taskId in Matter(desk.current, Left(desk))
      {
        assert p == open || p in Left(desk);
      }
    }
  }

  lemma HeadIsOpen(desk: Desk)
    requires desk.Valid() && desk.queue != [] && desk.current == desk.queue[0].taskId && desk.current.Some?
    ensures Left(desk) == desk.queue[1..] && OpenPaper(desk) == Some(desk.queue[0])
  {
    assert OpenPaper(desk) == Some(desk.queue[0]);
    WithoutNone(desk.queue[1..], desk.queue[0].id);
  }

  lemma HeadStays(desk: Desk)
    requires desk.Valid() && desk.queue != [] && desk.current != desk.queue[0].taskId
    ensures Left(desk) != [] && Left(desk)[0] == desk.queue[0]
  {
  }

  lemma PressKeepsClear(desk: Desk, around: Surroundings)
    requires desk.Valid() && desk.current.Some? && !around.manualModeActive
    ensures Clear(Press(desk, around)) <==> Clear(desk)
  {
    var left, after := Left(desk), Press(desk, around);
    PressEffect(desk, around);
    LeftMatters(desk);
    if left != [] {
      KnownExactly(desk, left[0].taskId);
      if Known(desk, left[0].taskId) {
        HeadIsOpen(after);
      } else if after.current.Some? {
        HeadStays(after);
        LeftMatters(after);
      }
    }
  }

  lemma {:induction false} ClearThroughout(desk: Desk, arounds: seq<Surroundings>)
    requires desk.Valid()
    ensures Clear(Presses(desk, arounds)) <==> Clear(desk)
    decreases |arounds|
  {
    if arounds != [] {
      ManualModeKeeps(desk, arounds[0]);
      if desk.current.Some? && !arounds[0].manualModeActive {
        PressEffect(desk, arounds[0]);
        PressKeepsClear(desk, arounds[0]);
      }
      ClearThroughout(Press(desk, arounds[0]), arounds[1..]);
    }
  }

  /** A run from a bound desktop completes all papers if and only if each of them, except the
      one already open, belongs to a task that is the first on its desktop among those that
      still matter when its turn comes. */
  lemma DrainsExactly(desk: Desk, arounds: seq<Surroundings>)
    requires desk.Valid() && desk.current.Some?
    requires |AtWork(arounds)| >= 2 * |desk.queue| + 1
    ensures Presses(desk, arounds).queue == [] <==> Served(desk.tasks, desk.current, Left(desk))
  {
    LimboIsReached(desk, arounds);
    ClearThroughout(desk, arounds);
  }

  // ---------------------------------------------------------------- the desktop asked for

  /** The desktop a decision names, and the paper it pulls. */
  function Named(action: Action): Option<string> {
    match action
    case SaveLayoutAndPullPaper(_, _, workspace) => Some(workspace)
    case SaveLayoutAndEnterLimbo(_, workspace) => Some(workspace)
    case MarkPaperDoneAndPullNext(_, _, workspace) => Some(workspace)
    case MarkPaperDoneAndReturnToTask(_, _, workspace) => Some(workspace)
    case MarkPaperDoneAndEnterLimbo(_, workspace) => Some(workspace)
    case _ => None
  }

  function Pulled(action: Action): Option<string> {
    match action
    case SaveLayoutAndPullPaper(_, next, _) => Some(next)
    case MarkPaperDoneAndPullNext(_, next, _) => Some(next)
    case _ => None
  }

  /** A workspace snapshot; `rest` stands for its windows. */
  datatype Layout = Layout(activeWorkspace: Option<string>, rest: int)

  datatype Restored = Restored(packetId: string, layout: Layout, at: real)

  /** What a press finds beside the desk: the snapshots that papers of the queue carry, by the
      ids of the papers, the last restore made, and the clock. */
  datatype Screen = Screen(layouts: map<string, Layout>, lastRestore: Option<Restored>, now: real)
  {
    /** The same restore of the same paper was made within the repeat window. */
    predicate JustRestored(packetId: string, layout: Layout) {
      && lastRestore.Some? && lastRestore.value.packetId == packetId && lastRestore.value.layout == layout
      && now - lastRestore.value.at < REPEAT_WINDOW
    }
  }

  const REPEAT_WINDOW := 2.0

  datatype Request = SwitchWorkspace(workspace: string) | RestoreWorkspace(layout: Layout)

  /** What the executor asks the window manager for: the snapshot of the pulled paper if it
      carries one, unless it was just restored; otherwise the desktop named. */
  function AsksFor(action: Action, screen: Screen): Option<Request> {
    if Named(action).None? then None
    else if Pulled(action).None? || Pulled(action).value !in screen.layouts
    then Some(SwitchWorkspace(Named(action).value))
    else
      var packetId := Pulled(action).value;
      var layout := screen.layouts[packetId];
      if screen.JustRestored(packetId, layout) then None else Some(RestoreWorkspace(layout))
  }

  function DesktopOf(request: Option<Request>): Option<string> {
    if request.None? then None
    else match request.value
      case SwitchWorkspace(workspace) => Some(workspace)
      case RestoreWorkspace(layout) => layout.activeWorkspace
  }

  ghost predicate ItsDesktop(desk: Desk, taskId: Option<string>, workspace: Option<string>) {
    && taskId.Some? && workspace.Some?
    && exists k :: 0 <= k < |desk.tasks| && desk.tasks[k] == Task(taskId.value, workspace)
  }

  lemma KnownDesktops(desk: Desk, around: Surroundings)
    ensures forall taskId, workspace :: OnDesktop(LoadSnapshot(desk, around), taskId, workspace) ==>
              ItsDesktop(desk, taskId, Some(workspace))
    ensures forall taskId :: Nowhere(LoadSnapshot(desk, around), taskId) <==> !Known(desk, taskId)
  {
    DesktopsAreTasks(desk, |desk.tasks|);
  }

  /** The paper the next press will pull, if any: the first of those left, if this press knows
      its task. */
  function NextPaper(desk: Desk): Option<Paper> {
    if Left(desk) != [] && Known(desk, Left(desk)[0].taskId) then Some(Left(desk)[0]) else None
  }

  /** The decision names a desktop of the task that is current after the press, or the limbo
      desktop where none is; and the paper pulled is then the head of the queue and the open
      paper of that task. */
  lemma DecisionFollowsTask(desk: Desk, around: Surroundings)
    requires desk.Valid() && desk.current.Some? && !around.manualModeActive
    ensures var action := NextAction(LoadSnapshot(desk, around));
            var after := Press(desk, around);
            && (if after.current.Some? then ItsDesktop(desk, after.current, Named(action))
                else Named(action) == Some(around.limboWorkspaceId))
            && (Pulled(action).Some? ==>
                  && after.queue != [] && after.queue[0].id == Pulled(action).value
                  && OpenPaper(after) == Some(after.queue[0]))
            && Pulled(action) == (if NextPaper(desk).Some? then Some(NextPaper(desk).value.id) else None)
  {
    PressEffect(desk, around);
    ActionMeaning(LoadSnapshot(desk, around));
    KnownDesktops(desk, around);
    var after := Press(desk, around);
    if after.queue != [] && after.current.Some? && after.current == after.queue[0].taskId {
      HeadIsOpen(after);
    }
  }

  /** A press leads to the task it makes current, that is, asks for a desktop of that task, if
      and only if the paper it pulls, if any, carries no snapshot, or one of a desktop of its task
      that was not just restored. A press that leaves no task current asks for limbo. */
  lemma DesktopFollowsTask(desk: Desk, around: Surroundings, screen: Screen)
    requires desk.Valid() && desk.current.Some? && !around.manualModeActive
    ensures var asked := AsksFor(NextAction(LoadSnapshot(desk, around)), screen);
            var (next, after) := (NextPaper(desk), Press(desk, around));
            && (after.current.None? ==> asked == Some(SwitchWorkspace(around.limboWorkspaceId)))
            && (after.current.Some? ==>
                  (ItsDesktop(desk, after.current, DesktopOf(asked)) <==>
                   (next.Some? && next.value.id in screen.layouts ==>
                      var layout := screen.layouts[next.value.id];
                      ItsDesktop(desk, next.value.taskId, layout.activeWorkspace) &&
                      !screen.JustRestored(next.value.id, layout))))
  {
    DecisionFollowsTask(desk, around);
    PressEffect(desk, around);
  }

  /** Nothing is asked for if and only if the paper pulled carries the very snapshot that was
      restored for it less than two seconds ago. */
  lemma RepeatIsHeldBack(desk: Desk, around: Surroundings, screen: Screen)
    requires desk.Valid() && desk.current.Some? && !around.manualModeActive
    ensures var next := NextPaper(desk);
            AsksFor(NextAction(LoadSnapshot(desk, around)), screen) == None <==>
            && next.Some? && next.value.id in screen.layouts && screen.lastRestore.Some?
            && screen.lastRestore.value.packetId == next.value.id
            && screen.lastRestore.value.layout == screen.layouts[next.value.id]
            && screen.now < screen.lastRestore.value.at + 2.0
  {
    DecisionFollowsTask(desk, around);
    PressEffect(desk, around);
  }

  /** A snapshot taken on another desktop leads away: the task of the paper is current, and the
      desktop restored is not one of it. */
  lemma SnapshotLeadsAway(around: Surroundings, now: real)
    requires !around.manualModeActive
    ensures var desk := Desk([Task("a", Some("1")), Task("b", Some("2"))], [Paper("pb", Some("b"))], Some("a"), []);
            var screen := Screen(map["pb" := Layout(Some("9"), 0)], None, now);
            && Press(desk, around).current == Some("b")
            && AsksFor(NextAction(LoadSnapshot(desk, around)), screen) == Some(RestoreWorkspace(Layout(Some("9"), 0)))
            && !ItsDesktop(desk, Some("b"), Some("9"))
  {
    var desk := Desk([Task("a", Some("1")), Task("b", Some("2"))], [Paper("pb", Some("b"))], Some("a"), []);
    TwoDesktops(desk);
    assert desk.tasks[0].id == "a";
    assert PapersOf(desk.queue, "a") == [];
    PressEffect(desk, around);
    DecisionFollowsTask(desk, around);
  }

  lemma TwoDesktops(desk: Desk)
    requires desk.tasks == [Task("a", Some("1")), Task("b", Some("2"))] && desk.current == Some("a")
    requires desk.queue == [Paper("pb", Some("b"))]
    ensures Known(desk, Some("b"))
  {
    assert desk.queue[0].taskId == Some("b");
    assert TasksByWorkspace(desk, 1) == [("1", "a")];
    assert TasksByWorkspace(desk, 2) == [("1", "a"), ("2", "b")];
    assert TasksByWorkspace(desk, 2)[1] == ("2", "b");
  }

  // ---------------------------------------------------------------- saved layouts

  /** The same but for the desktops of tasks that do not matter. */
  predicate SameWhereItMatters(a: Desk, b: Desk) {
    && a.queue == b.queue && a.current == b.current && a.completed == b.completed && |a.tasks| == |b.tasks|
    && forall i :: 0 <= i < |a.tasks| ==>
         a.tasks[i].id == b.tasks[i].id && (a.Relevant(a.tasks[i].id) ==> a.tasks[i] == b.tasks[i])
  }

  lemma {:induction false} SameDesktops(a: Desk, b: Desk, count: nat)
    requires SameWhereItMatters(a, b) && count <= |a.tasks|
    ensures TasksByWorkspace(a, count) == TasksByWorkspace(b, count)
  {
    if count > 0 {
      SameDesktops(a, b, count - 1);
      assert a.tasks[count - 1].id == b.tasks[count - 1].id;
    }
  }

  lemma SamePress(a: Desk, b: Desk, around: Surroundings)
    requires SameWhereItMatters(a, b) && a.Valid() && b.Valid()
    ensures SameWhereItMatters(Press(a, around), Press(b, around))
  {
    ManualModeKeeps(a, around);
    ManualModeKeeps(b, around);
    if a.current.Some? && !around.manualModeActive {
      PressEffect(a, around);
      PressEffect(b, around);
      SameDesktops(a, b, |a.tasks|);
      MattersLess(a, around);
    }
  }

  lemma MattersLess(desk: Desk, around: Surroundings)
    requires desk.Valid() && desk.current.Some? && !around.manualModeActive
    ensures forall id :: Press(desk, around).Relevant(id) ==> desk.Relevant(id)
  {
    var after := Press(desk, around);
    PressEffect(desk, around);
    LeftMatters(desk);
    MatterIsRelevant(desk);
    MatterIsRelevant(after);
    assert forall p :: p in after.queue ==> p.taskId in Matter(desk.current, Left(desk));
    if after.current.Some? && after.current != desk.current {
      assert after.queue[0] in after.queue;
    }
  }

  /** Saving a layout may move the desktop of the task it is saved for, where that is read off
      the layout. It makes no difference to the run: the desktops of tasks that do not matter do
      not, at any later press. */
  lemma {:induction false} LayoutsMakeNoDifference(a: Desk, b: Desk, arounds: seq<Surroundings>)
    requires SameWhereItMatters(a, b) && a.Valid() && b.Valid()
    ensures SameWhereItMatters(Presses(a, arounds), Presses(b, arounds))
    decreases |arounds|
  {
    if arounds != [] {
      SamePress(a, b, arounds[0]);
      PressConserves(a, arounds[0]);
      PressConserves(b, arounds[0]);
      LayoutsMakeNoDifference(Press(a, arounds[0]), Press(b, arounds[0]), arounds[1..]);
    }
  }

  /** And the task whose layout is saved is one that no longer matters. */
  lemma SavedTaskIsPast(desk: Desk, around: Surroundings)
    requires desk.Valid() && desk.current.Some? && !around.manualModeActive
    requires var action := NextAction(LoadSnapshot(desk, around));
             action.SaveLayoutAndPullPaper? || action.SaveLayoutAndEnterLimbo?
    ensures !Press(desk, around).Relevant(desk.current.value)
  {
    var after := Press(desk, around);
    PressEffect(desk, around);
    ActionMeaning(LoadSnapshot(desk, around));
    KnownDesktops(desk, around);
    forall i | 0 <= i < |desk.queue|
      ensures desk.queue[i].taskId != desk.current
    {
      assert desk.queue[i] !in PapersOf(desk.queue, desk.current.value);
    }
  }

  predicate HasDesktop(tasks: seq<Task>, taskId: Option<string>) {
    taskId.Some? && exists i :: 0 <= i < |tasks| && tasks[i].id == taskId.value && tasks[i].workspace.Some?
  }

  predicate DistinctDesktops(tasks: seq<Task>) {
    forall i, j :: 0 <= i < j < |tasks| && tasks[i].workspace.Some? ==> tasks[i].workspace != tasks[j].workspace
  }

  lemma OwnDesktopIsReached(tasks: seq<Task>, matter: set<Option<string>>, taskId: Option<string>)
    requires DistinctDesktops(tasks) && taskId in matter
    ensures Reaches(tasks, matter, taskId) <==> HasDesktop(tasks, taskId)
  {
    if HasDesktop(tasks, taskId) {
      var k :| 0 <= k < |tasks| && tasks[k].id == taskId.value && tasks[k].workspace.Some?;
      assert FirstThere(tasks, matter, k, taskId.value);
    }
  }

  lemma {:induction false} OwnDesktopsServe(tasks: seq<Task>, current: Option<string>, papers: seq<Paper>)
    requires DistinctDesktops(tasks)
    ensures Served(tasks, current, papers) <==> forall p :: p in papers ==> HasDesktop(tasks, p.taskId)
    decreases |papers|
  {
    if papers != [] {
      assert papers == [papers[0]] + papers[1..];
      OwnDesktopIsReached(tasks, Matter(current, papers), papers[0].taskId);
      OwnDesktopsServe(tasks, papers[0].taskId, papers[1..]);
    }
  }

  /** With every task on a desktop of its own that means: each paper, except the one already
      open, belongs to a task that has a desktop. */
  lemma DrainsWithOwnDesktops(desk: Desk, arounds: seq<Surroundings>)
    requires desk.Valid() && DistinctDesktops(desk.tasks) && desk.current.Some?
    requires |AtWork(arounds)| >= 2 * |desk.queue| + 1
    ensures Presses(desk, arounds).queue == [] <==> forall p :: p in Left(desk) ==> HasDesktop(desk.tasks, p.taskId)
  {
    DrainsExactly(desk, arounds);
    OwnDesktopsServe(desk.tasks, desk.current, Left(desk));
  }

  /** Two tasks sharing a desktop break it: the second task's paper is stranded although its
      task has a desktop, because only the first of them is kept under that desktop. */
  lemma SharedDesktopStrands(around: Surroundings)
    requires !around.manualModeActive
    ensures var tasks := [Task("a", Some("1")), Task("b", Some("1"))];
            var papers := [Paper("pa", Some("a")), Paper("pb", Some("b"))];
            var desk := Desk(tasks, papers, Some("a"), []);
            && (forall p :: p in papers ==> HasDesktop(tasks, p.taskId))
            && Presses(desk, [around, around]) == Desk(tasks, [Paper("pb", Some("b"))], None, ["pa"])
  {
    var tasks := [Task("a", Some("1")), Task("b", Some("1"))];
    FirstPressOfTwo(around);
    SecondPressOfTwo(around);
    var desk := Desk(tasks, [Paper("pa", Some("a")), Paper("pb", Some("b"))], Some("a"), []);
    TwoPresses(desk, around);
    assert tasks[0].id == "a" && tasks[1].id == "b";
  }

  lemma TwoPresses(desk: Desk, around: Surroundings)
    ensures Presses(desk, [around, around]) == Press(Press(desk, around), around)
  {
    var first := Press(desk, around);
    assert [around, around][1..] == [around];
    assert Presses(desk, [around, around]) == Presses(first, [around]);
    assert [around][1..] == [];
    assert Presses(first, [around]) == Presses(Press(first, around), []);
  }

  lemma FirstPressOfTwo(around: Surroundings)
    requires !around.manualModeActive
    ensures var tasks := [Task("a", Some("1")), Task("b", Some("1"))];
            Press(Desk(tasks, [Paper("pa", Some("a")), Paper("pb", Some("b"))], Some("a"), []), around) ==
            Desk(tasks, [Paper("pb", Some("b"))], Some("a"), ["pa"])
  {
    var pa, pb := Paper("pa", Some("a")), Paper("pb", Some("b"));
    var desk := Desk([Task("a", Some("1")), Task("b", Some("1"))], [pa, pb], Some("a"), []);
    OneDesktop(desk);
    assert desk.tasks[0].id == "a";
    assert PapersOf([pa, pb], "a")[0] == pa;
    assert Without([pb], "pa") == [pb];
    assert [pa, pb][1..] == [pb];
    PressEffect(desk, around);
  }

  lemma SecondPressOfTwo(around: Surroundings)
    requires !around.manualModeActive
    ensures var tasks := [Task("a", Some("1")), Task("b", Some("1"))];
            Press(Desk(tasks, [Paper("pb", Some("b"))], Some("a"), ["pa"]), around) ==
            Desk(tasks, [Paper("pb", Some("b"))], None, ["pa"])
  {
    var pb := Paper("pb", Some("b"));
    var desk := Desk([Task("a", Some("1")), Task("b", Some("1"))], [pb], Some("a"), ["pa"]);
    OneDesktop(desk);
    assert desk.tasks[0].id == "a";
    assert PapersOf([pb], "a") == [];
    PressEffect(desk, around);
  }

  lemma OneDesktop(desk: Desk)
    requires desk.tasks == [Task("a", Some("1")), Task("b", Some("1"))] && desk.current == Some("a")
    ensures TasksByWorkspace(desk, 2) == [("1", "a")]
    ensures Known(desk, Some("a")) && !Known(desk, Some("b"))
  {
    assert TasksByWorkspace(desk, 1) == [("1", "a")];
    assert ("1", "a") in TasksByWorkspace(desk, 1);
    assert [("1", "a")][1..] == [];
  }
}
