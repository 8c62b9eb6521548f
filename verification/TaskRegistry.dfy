/** The in-memory gateway's tasks and their layouts (`createTask` and its neighbours in
    app/orchestrator/src/gateway_store.ts). */
module TaskRegistry {
  import opened JsMap
  import opened Prelude

  datatype AnchorKind = CodexThread | GhosttyWindow

  datatype Anchor = Anchor(kind: AnchorKind, id: string)

  datatype Task = Task(
    id: string,
    anchor: Anchor,
    workspace: Option<string>,
    createdAt: int,
    updatedAt: int,
    lastPaperEmittedAt: Option<int>,
    dormantAt: Option<int>,
    autoPaperIdleSeconds: int)

  datatype Layout = Layout(taskId: string, layout: int, updatedAt: int)

  datatype Registry = Registry(tasks: Entries<Task>, layouts: Entries<Layout>)

  /** A request to create a task. `generatedId` is what the id generator gives for this anchor
      and instant; it need not be unused. */
  datatype CreateInput = CreateInput(
    taskId: Option<string>,
    anchor: Anchor,
    layout: int,
    workspace: Option<string>,
    idleSeconds: Option<int>,
    generatedId: string,
    now: int)

  datatype CreateResult = CreateResult(task: Task, layout: Layout, created: bool)

  const DEFAULT_IDLE_SECONDS := 60

  function Existing(registry: Registry, input: CreateInput): Option<Task> {
    var byId := if input.taskId.Some? && input.taskId.value != "" then Get(registry.tasks, input.taskId.value) else None;
    if byId.Some? then byId else ByAnchor(registry, input.anchor)
  }

  function ByAnchor(registry: Registry, anchor: Anchor): Option<Task> {
    Find(registry.tasks, (task: Task) => task.anchor == anchor)
  }

  function NewId(input: CreateInput): string {
    if input.taskId.Some? then input.taskId.value else input.generatedId
  }

  function NewTask(input: CreateInput): Task {
    Task(NewId(input), input.anchor, input.workspace, input.now, input.now, None, None,
         if input.idleSeconds.Some? then Max(1, input.idleSeconds.value) else DEFAULT_IDLE_SECONDS)
  }

  /** An existing task is moved to the desktop asked for, and woken. */
  function Revived(task: Task, input: CreateInput): Task {
    if (input.workspace.Some? && input.workspace != task.workspace) || task.dormantAt.Some?
    then task.(workspace := if input.workspace.Some? then input.workspace else task.workspace,
               dormantAt := None, updatedAt := input.now)
    else task
  }

  function LayoutOf(registry: Registry, task: Task, input: CreateInput): Layout {
    match Get(registry.layouts, task.id)
    case Some(layout) => layout
    case None => Layout(task.id, input.layout, task.updatedAt)
  }

  function Creation(registry: Registry, input: CreateInput): (Registry, CreateResult) {
    match Existing(registry, input)
    case Some(task) =>
      var revived := Revived(task, input);
      (registry.(tasks := if revived == task then registry.tasks else Set(registry.tasks, task.id, revived)),
       CreateResult(revived, LayoutOf(registry, revived, input), false))
    case None =>
      var task := NewTask(input);
      var layout := Layout(task.id, input.layout, input.now);
      (Registry(Set(registry.tasks, task.id, task), Set(registry.layouts, task.id, layout)),
       CreateResult(task, layout, true))
  }

  datatype Op =
    | CreateTask(input: CreateInput)
    | UpdateTaskLayout(taskId: string, layout: int, now: int)
    | RecordTaskPaperEmitted(taskId: string, now: int)
    | MarkTaskDormant(taskId: string, now: int)
    | WakeTask(taskId: string, now: int)

  function Replace(registry: Registry, taskId: string, change: Task -> Task): Registry {
    match Get(registry.tasks, taskId)
    case Some(task) => registry.(tasks := Set(registry.tasks, taskId, change(task)))
    case None => registry
  }

  function Apply(registry: Registry, op: Op): Registry {
    match op
    case CreateTask(input) => Creation(registry, input).0
    case UpdateTaskLayout(taskId, layout, now) =>
      if Get(registry.tasks, taskId).None? then registry
      else Replace(registry.(layouts := Set(registry.layouts, taskId, Layout(taskId, layout, now))), taskId,
                   (task: Task) => task.(updatedAt := now))
    case RecordTaskPaperEmitted(taskId, now) =>
      Replace(registry, taskId, (task: Task) => task.(lastPaperEmittedAt := Some(now), updatedAt := now))
    case MarkTaskDormant(taskId, now) =>
      Replace(registry, taskId, (task: Task) => task.(dormantAt := Some(now), updatedAt := now))
    case WakeTask(taskId, now) =>
      Replace(registry, taskId, (task: Task) => task.(dormantAt := None, updatedAt := now))
  }

  function Run(registry: Registry, ops: seq<Op>): Registry
    decreases |ops|
  {
    if ops == [] then registry else Run(Apply(registry, ops[0]), ops[1..])
  }

  const EMPTY := Registry([], [])

  /** The maps of the gateway and the operations that change them. */
  class TaskStore {
    var tasks: Entries<Task>
    var layouts: Entries<Layout>

    ghost function State(): Registry
      reads this
    {
      Registry(tasks, layouts)
    }

    constructor ()
      ensures State() == EMPTY
    {
      tasks, layouts := [], [];
    }

    method Create(input: CreateInput) returns (result: CreateResult)
      modifies this
      ensures (State(), result) == Creation(old(State()), input)
      ensures State() == Apply(old(State()), CreateTask(input))
    {
      var existing: Option<Task> := None;
      if input.taskId.Some? && input.taskId.value != "" {
        existing := Get(tasks, input.taskId.value);
      }
      if existing.None? {
        existing := Find(tasks, (task: Task) => task.anchor == input.anchor);
      }
      if existing.Some? {
        var task := existing.value;
        var updated := task;
        if (input.workspace.Some? && input.workspace != task.workspace) || task.dormantAt.Some? {
          updated := Revived(task, input);
          tasks := Set(tasks, task.id, updated);
        }
        return CreateResult(updated, LayoutOf(Registry(tasks, layouts), updated, input), false);
      }
      var task := NewTask(input);
      tasks := Set(tasks, task.id, task);
      var layout := Layout(task.id, input.layout, input.now);
      layouts := Set(layouts, task.id, layout);
      return CreateResult(task, layout, true);
    }

    method UpdateLayout(taskId: string, layout: int, now: int) returns (task: Option<Task>)
      modifies this
      ensures State() == Apply(old(State()), UpdateTaskLayout(taskId, layout, now))
      ensures task == if Get(old(tasks), taskId).None? then None else Some(Get(old(tasks), taskId).value.(updatedAt := now))
    {
      task := Get(tasks, taskId);
      if task.Some? {
        layouts := Set(layouts, taskId, Layout(taskId, layout, now));
        task := Some(task.value.(updatedAt := now));
        tasks := Set(tasks, taskId, task.value);
      }
    }

    method RecordPaperEmitted(taskId: string, now: int)
      modifies this
      ensures State() == Apply(old(State()), RecordTaskPaperEmitted(taskId, now))
    {
      var task := Get(tasks, taskId);
      if task.Some? {
        tasks := Set(tasks, taskId, task.value.(lastPaperEmittedAt := Some(now), updatedAt := now));
      }
    }

    method MarkDormant(taskId: string, now: int)
      modifies this
      ensures State() == Apply(old(State()), MarkTaskDormant(taskId, now))
    {
      var task := Get(tasks, taskId);
      if task.Some? {
        tasks := Set(tasks, taskId, task.value.(dormantAt := Some(now), updatedAt := now));
      }
    }

    method Wake(taskId: string, now: int)
      modifies this
      ensures State() == Apply(old(State()), WakeTask(taskId, now))
    {
      var task := Get(tasks, taskId);
      if task.Some? {
        tasks := Set(tasks, taskId, task.value.(dormantAt := None, updatedAt := now));
      }
    }
  }

  // ---------------------------------------------------------------- the invariant

  /** Every key is its record's id and no two tasks share an anchor. */
  ghost predicate TasksFit(tasks: Entries<Task>) {
    && DistinctKeys(tasks)
    && (forall p :: p in tasks ==> p.0 == p.1.id)
    && (forall p, q :: p in tasks && q in tasks && p.1.anchor == q.1.anchor ==> p == q)
  }

  ghost predicate LayoutsFit(layouts: Entries<Layout>) {
    && DistinctKeys(layouts)
    && (forall p :: p in layouts ==> p.0 == p.1.taskId)
  }

  /** There is a layout for exactly the tasks there are. */
  ghost predicate Inv(registry: Registry) {
    TasksFit(registry.tasks) && LayoutsFit(registry.layouts) && Keys(registry.tasks) == Keys(registry.layouts)
  }

  /** Putting a task under its id is safe if no task of another id has its anchor. */
  lemma PutTask(tasks: Entries<Task>, task: Task)
    requires TasksFit(tasks)
    requires forall p :: p in tasks && p.1.anchor == task.anchor ==> p.0 == task.id
    ensures TasksFit(Set(tasks, task.id, task)) && Keys(Set(tasks, task.id, task)) == Keys(tasks) + {task.id}
  {
    SetMeaning(tasks, task.id, task);
    var after := Set(tasks, task.id, task);
    forall p, q | p in after && q in after && p.1.anchor == q.1.anchor
      ensures p == q
    {
      PutPair(tasks, task, p, q);
    }
  }

  lemma PutPair(tasks: Entries<Task>, task: Task, p: (string, Task), q: (string, Task))
    requires forall p, q :: p in tasks && q in tasks && p.1.anchor == q.1.anchor ==> p == q
    requires forall p :: p in tasks && p.1.anchor == task.anchor ==> p.0 == task.id
    requires p == (task.id, task) || (p in tasks && p.0 != task.id)
    requires q == (task.id, task) || (q in tasks && q.0 != task.id)
    requires p.1.anchor == q.1.anchor
    ensures p == q
  {
  }

  lemma PutLayout(layouts: Entries<Layout>, layout: Layout)
    requires LayoutsFit(layouts)
    ensures LayoutsFit(Set(layouts, layout.taskId, layout))
    ensures Keys(Set(layouts, layout.taskId, layout)) == Keys(layouts) + {layout.taskId}
  {
    SetMeaning(layouts, layout.taskId, layout);
  }

  /** Changing a task but not its id or anchor. */
  lemma ReplaceKeepsInv(registry: Registry, taskId: string, change: Task -> Task)
    requires Inv(registry)
    requires forall t: Task :: change(t).id == t.id && change(t).anchor == t.anchor
    ensures Inv(Replace(registry, taskId, change))
  {
    GetMeaning(registry.tasks, taskId);
    if Get(registry.tasks, taskId).Some? {
      var task := Get(registry.tasks, taskId).value;
      assert (taskId, task) in registry.tasks;
      PutTask(registry.tasks, change(task));
    }
  }

  lemma ExistingMeaning(registry: Registry, input: CreateInput)
    requires Inv(registry)
    ensures Existing(registry, input).Some? ==>
              (Existing(registry, input).value.id, Existing(registry, input).value) in registry.tasks
    ensures Existing(registry, input).None? ==> forall p :: p in registry.tasks ==> p.1.anchor != input.anchor
  {
    if input.taskId.Some? {
      GetMeaning(registry.tasks, input.taskId.value);
    }
    FindMeaning(registry.tasks, (task: Task) => task.anchor == input.anchor);
  }

  lemma CreateKeepsInv(registry: Registry, input: CreateInput)
    requires Inv(registry)
    ensures Inv(Creation(registry, input).0)
  {
    ExistingMeaning(registry, input);
    match Existing(registry, input)
    case Some(task) =>
      assert (task.id, task) in registry.tasks;
      PutTask(registry.tasks, Revived(task, input));
    case None =>
      PutTask(registry.tasks, NewTask(input));
      PutLayout(registry.layouts, Layout(NewId(input), input.layout, input.now));
  }

  lemma OpKeepsInv(registry: Registry, op: Op)
    requires Inv(registry)
    ensures Inv(Apply(registry, op))
  {
    match op
    case CreateTask(input) => CreateKeepsInv(registry, input);
    case UpdateTaskLayout(taskId, layout, now) =>
      GetMeaning(registry.tasks, taskId);
      if Get(registry.tasks, taskId).Some? {
        PutLayout(registry.layouts, Layout(taskId, layout, now));
        ReplaceKeepsInv(registry.(layouts := Set(registry.layouts, taskId, Layout(taskId, layout, now))), taskId,
                        (task: Task) => task.(updatedAt := now));
      }
    case RecordTaskPaperEmitted(taskId, now) =>
      ReplaceKeepsInv(registry, taskId, (task: Task) => task.(lastPaperEmittedAt := Some(now), updatedAt := now));
    case MarkTaskDormant(taskId, now) =>
      ReplaceKeepsInv(registry, taskId, (task: Task) => task.(dormantAt := Some(now), updatedAt := now));
    case WakeTask(taskId, now) =>
      ReplaceKeepsInv(registry, taskId, (task: Task) => task.(dormantAt := None, updatedAt := now));
  }

  /** The invariant holds in every state the operations reach from the empty store, with any
      explicit ids and any generated ids, used before or not. */
  lemma {:induction false} ReachableInv(registry: Registry, ops: seq<Op>)
    requires Inv(registry)
    ensures Inv(Run(registry, ops))
    decreases |ops|
  {
    if ops != [] {
      OpKeepsInv(registry, ops[0]);
      ReachableInv(Apply(registry, ops[0]), ops[1..]);
    }
  }

  // ---------------------------------------------------------------- one anchor, one task

  ghost predicate Holds(registry: Registry, anchor: Anchor, id: string) {
    exists p :: p in registry.tasks && p.0 == id && p.1.anchor == anchor
  }

  /** A new task whose id, given or generated, is one already in use. */
  predicate TakesOver(registry: Registry, op: Op, id: string) {
    op.CreateTask? && Existing(registry, op.input).None? && NewId(op.input) == id
  }

  predicate EverTakesOver(registry: Registry, ops: seq<Op>, id: string)
    decreases |ops|
  {
    ops != [] && (TakesOver(registry, ops[0], id) || EverTakesOver(Apply(registry, ops[0]), ops[1..], id))
  }

  lemma ReplaceHolds(registry: Registry, taskId: string, change: Task -> Task, anchor: Anchor, id: string)
    requires Inv(registry) && Holds(registry, anchor, id)
    requires forall t: Task :: change(t).id == t.id && change(t).anchor == t.anchor
    ensures Holds(Replace(registry, taskId, change), anchor, id)
  {
    GetMeaning(registry.tasks, taskId);
    var p :| p in registry.tasks && p.0 == id && p.1.anchor == anchor;
    if Get(registry.tasks, taskId).Some? {
      var task := Get(registry.tasks, taskId).value;
      SetMeaning(registry.tasks, taskId, change(task));
      assert (if id == taskId then (id, change(task)) else p) in Replace(registry, taskId, change).tasks;
    }
  }

  lemma CreationHolds(registry: Registry, input: CreateInput, anchor: Anchor, id: string)
    requires Inv(registry) && Holds(registry, anchor, id)
    ensures Holds(Creation(registry, input).0, anchor, id) <==> !TakesOver(registry, CreateTask(input), id)
  {
    ExistingMeaning(registry, input);
    if Existing(registry, input).Some? {
      RevivalHolds(registry, input, anchor, id);
    } else {
      NewTaskHolds(registry, input, anchor, id);
    }
  }

  lemma RevivalHolds(registry: Registry, input: CreateInput, anchor: Anchor, id: string)
    requires Inv(registry) && Holds(registry, anchor, id) && Existing(registry, input).Some?
    ensures Holds(Creation(registry, input).0, anchor, id)
  {
    ExistingMeaning(registry, input);
    var task := Existing(registry, input).value;
    var p :| p in registry.tasks && p.0 == id && p.1.anchor == anchor;
    SetMeaning(registry.tasks, task.id, Revived(task, input));
    assert p.0 == task.id ==> p.1 == task;
    assert p in Creation(registry, input).0.tasks || (id, Revived(task, input)) in Creation(registry, input).0.tasks;
  }

  lemma NewTaskHolds(registry: Registry, input: CreateInput, anchor: Anchor, id: string)
    requires Inv(registry) && Holds(registry, anchor, id) && Existing(registry, input).None?
    ensures Holds(Creation(registry, input).0, anchor, id) <==> !TakesOver(registry, CreateTask(input), id)
  {
    ExistingMeaning(registry, input);
    var p :| p in registry.tasks && p.0 == id && p.1.anchor == anchor;
    SetMeaning(registry.tasks, NewId(input), NewTask(input));
    if NewId(input) != id {
      assert p in Creation(registry, input).0.tasks;
    }
  }

  /** A task keeps its anchor through every operation except a new task taking over its id,
      and loses it then. */
  lemma AnchorKept(registry: Registry, op: Op, anchor: Anchor, id: string)
    requires Inv(registry) && Holds(registry, anchor, id)
    ensures Holds(Apply(registry, op), anchor, id) <==> !TakesOver(registry, op, id)
  {
    match op
    case CreateTask(input) => CreationHolds(registry, input, anchor, id);
    case UpdateTaskLayout(taskId, layout, now) =>
      if Get(registry.tasks, taskId).Some? {
        GetMeaning(registry.tasks, taskId);
        PutLayout(registry.layouts, Layout(taskId, layout, now));
        var moved := registry.(layouts := Set(registry.layouts, taskId, Layout(taskId, layout, now)));
        assert Holds(moved, anchor, id);
        ReplaceHolds(moved, taskId, (task: Task) => task.(updatedAt := now), anchor, id);
      }
    case RecordTaskPaperEmitted(taskId, now) =>
      ReplaceHolds(registry, taskId, (task: Task) => task.(lastPaperEmittedAt := Some(now), updatedAt := now), anchor, id);
    case MarkTaskDormant(taskId, now) =>
      ReplaceHolds(registry, taskId, (task: Task) => task.(dormantAt := Some(now), updatedAt := now), anchor, id);
    case WakeTask(taskId, now) =>
      ReplaceHolds(registry, taskId, (task: Task) => task.(dormantAt := None, updatedAt := now), anchor, id);
  }

  lemma {:induction false} AnchorKeptThroughout(registry: Registry, ops: seq<Op>, anchor: Anchor, id: string)
    requires Inv(registry) && Holds(registry, anchor, id) && !EverTakesOver(registry, ops, id)
    ensures Holds(Run(registry, ops), anchor, id)
    decreases |ops|
  {
    if ops != [] {
      AnchorKept(registry, ops[0], anchor, id);
      OpKeepsInv(registry, ops[0]);
      AnchorKeptThroughout(Apply(registry, ops[0]), ops[1..], anchor, id);
    }
  }

  /** Creating again for an anchor that has a task, without naming an id, gives that task. */
  lemma CreateFindsHolder(registry: Registry, input: CreateInput, id: string)
    requires Inv(registry) && Holds(registry, input.anchor, id)
    requires input.taskId.None? || input.taskId.value == ""
    ensures !Creation(registry, input).1.created && Creation(registry, input).1.task.id == id
  {
    ExistingMeaning(registry, input);
    FindMeaning(registry.tasks, (task: Task) => task.anchor == input.anchor);
    var p :| p in registry.tasks && p.0 == id && p.1.anchor == input.anchor;
  }

  /** Repeating a creation is idempotent across any run in between: from any reachable store,
      whatever task a request was answered with, a later request for that task's anchor is
      answered with the same task and not created, as long as no new task took its id. */
  lemma CreateIsIdempotent(before: seq<Op>, first: CreateInput, between: seq<Op>, again: CreateInput)
    requires var (after, answer) := Creation(Run(EMPTY, before), first);
             && again.anchor == answer.task.anchor && (again.taskId.None? || again.taskId.value == "")
             && !EverTakesOver(after, between, answer.task.id)
    ensures var (after, answer) := Creation(Run(EMPTY, before), first);
            var repeated := Creation(Run(after, between), again).1;
            !repeated.created && repeated.task.id == answer.task.id
  {
    var registry := Run(EMPTY, before);
    ReachableInv(EMPTY, before);
    CreateKeepsInv(registry, first);
    var (after, answer) := Creation(registry, first);
    AnswerHolds(registry, first);
    AnchorKeptThroughout(after, between, again.anchor, answer.task.id);
    ReachableInv(after, between);
    CreateFindsHolder(Run(after, between), again, answer.task.id);
  }

  /** The answer is the task the store now holds. */
  lemma AnswerHolds(registry: Registry, input: CreateInput)
    requires Inv(registry)
    ensures var (after, answer) := Creation(registry, input);
            (answer.task.id, answer.task) in after.tasks && Holds(after, answer.task.anchor, answer.task.id)
  {
    ExistingMeaning(registry, input);
    match Existing(registry, input)
    case Some(task) => SetMeaning(registry.tasks, task.id, Revived(task, input));
    case None => SetMeaning(registry.tasks, NewId(input), NewTask(input));
  }

  /** Whatever a request finds or makes, it is answered with a task that is awake, is on the
      desktop asked for, and unless it was named by its id has the anchor asked for; a new task
      has the layout given, an old one keeps its own. */
  lemma AnswerFits(registry: Registry, input: CreateInput)
    requires Inv(registry)
    ensures var (after, answer) := Creation(registry, input);
            && answer.task.dormantAt.None?
            && (input.workspace.Some? ==> answer.task.workspace == input.workspace)
            && (answer.task.anchor == input.anchor || (!answer.created && input.taskId == Some(answer.task.id)))
            && Get(after.layouts, answer.task.id) == Some(answer.layout)
            && (answer.created ==> answer.layout.layout == input.layout && answer.task.createdAt == input.now)
            && (!answer.created ==> after.layouts == registry.layouts)
  {
    ExistingMeaning(registry, input);
    match Existing(registry, input)
    case Some(task) =>
      ExistingIsAskedFor(registry, input);
      LayoutOfTask(registry, task);
    case None =>
      SetMeaning(registry.layouts, NewId(input), Layout(NewId(input), input.layout, input.now));
      GetMeaning(Set(registry.layouts, NewId(input), Layout(NewId(input), input.layout, input.now)), NewId(input));
  }

  lemma ExistingIsAskedFor(registry: Registry, input: CreateInput)
    requires Inv(registry) && Existing(registry, input).Some?
    ensures Existing(registry, input).value.anchor == input.anchor ||
            input.taskId == Some(Existing(registry, input).value.id)
  {
    FindMeaning(registry.tasks, (task: Task) => task.anchor == input.anchor);
    if input.taskId.Some? {
      GetMeaning(registry.tasks, input.taskId.value);
    }
  }

  lemma LayoutOfTask(registry: Registry, task: Task)
    requires Inv(registry) && (task.id, task) in registry.tasks
    ensures Get(registry.layouts, task.id).Some?
  {
    var i :| 0 <= i < |registry.tasks| && registry.tasks[i] == (task.id, task);
    assert registry.tasks[i].0 in Keys(registry.tasks);
    GetMeaning(registry.layouts, task.id);
  }

  // ---------------------------------------------------------------- what becomes of one task

  lemma ReplacedTask(registry: Registry, taskId: string, change: Task -> Task, id: string)
    ensures Replace(registry, taskId, change).layouts == registry.layouts
    ensures var was := Get(registry.tasks, id);
            Get(Replace(registry, taskId, change).tasks, id) ==
            if id == taskId && was.Some? then Some(change(was.value)) else was
  {
    if Get(registry.tasks, taskId).Some? {
      GetAfterSet(registry.tasks, taskId, change(Get(registry.tasks, taskId).value), id);
    }
  }

  lemma CreatedTask(registry: Registry, input: CreateInput, id: string)
    requires Inv(registry)
    ensures var (after, answer) := Creation(registry, input);
            Get(after.tasks, id) == if answer.task.id == id then Some(answer.task) else Get(registry.tasks, id)
  {
    ExistingMeaning(registry, input);
    match Existing(registry, input)
    case Some(task) =>
      GetMeaning(registry.tasks, task.id);
      GetAfterSet(registry.tasks, task.id, Revived(task, input), id);
    case None => GetAfterSet(registry.tasks, NewId(input), NewTask(input), id);
  }

  /** A task that is created has the id asked for or generated, its anchor and desktop, no paper
      and no sleep, the times of the request, and an idle time of at least a second, a minute if
      none is asked for. One that was there is moved and woken, if that changes it, at the time of
      the request; the rest of it stays. */
  lemma AnswerIs(registry: Registry, input: CreateInput)
    requires Inv(registry)
    ensures var (after, answer) := Creation(registry, input);
            if answer.created then
              answer.task == Task(if input.taskId.Some? then input.taskId.value else input.generatedId,
                                  input.anchor, input.workspace, input.now, input.now, None, None,
                                  if input.idleSeconds.None? then 60
                                  else if input.idleSeconds.value < 1 then 1 else input.idleSeconds.value)
            else
              var was := Get(registry.tasks, answer.task.id);
              && was.Some?
              && var moved := if input.workspace.Some? then input.workspace else was.value.workspace;
                 answer.task ==
                 if moved == was.value.workspace && was.value.dormantAt.None? then was.value
                 else was.value.(workspace := moved, dormantAt := None, updatedAt := input.now)
  {
    ExistingMeaning(registry, input);
    if Existing(registry, input).Some? {
      GetMeaning(registry.tasks, Existing(registry, input).value.id);
    }
  }

  /** The operation answers or names the task of that id. */
  predicate Concerns(registry: Registry, op: Op, id: string) {
    if op.CreateTask? then Creation(registry, op.input).1.task.id == id else op.taskId == id
  }

  /** A saved layout, an emitted paper, going dormant and waking are recorded with their times in
      the one task named, if it is known; a creation leaves the task it answers; no other task
      changes. */
  lemma TaskAfter(registry: Registry, op: Op, id: string)
    requires Inv(registry)
    ensures var (was, becomes) := (Get(registry.tasks, id), Get(Apply(registry, op).tasks, id));
            && (!Concerns(registry, op, id) ==> becomes == was)
            && (Concerns(registry, op, id) && !op.CreateTask? && was.None? ==> becomes.None?)
            && (Concerns(registry, op, id) && (op.CreateTask? || was.Some?) ==>
                  match op
                  case CreateTask(input) => becomes == Some(Creation(registry, input).1.task)
                  case UpdateTaskLayout(_, _, now) => becomes == Some(was.value.(updatedAt := now))
                  case RecordTaskPaperEmitted(_, now) =>
                    becomes == Some(was.value.(lastPaperEmittedAt := Some(now), updatedAt := now))
                  case MarkTaskDormant(_, now) => becomes == Some(was.value.(dormantAt := Some(now), updatedAt := now))
                  case WakeTask(_, now) => becomes == Some(was.value.(dormantAt := None, updatedAt := now)))
  {
    match op
    case CreateTask(input) => CreatedTask(registry, input, id);
    case UpdateTaskLayout(taskId, layout, now) =>
      var moved := registry.(layouts := Set(registry.layouts, taskId, Layout(taskId, layout, now)));
      ReplacedTask(moved, taskId, (task: Task) => task.(updatedAt := now), id);
    case RecordTaskPaperEmitted(taskId, now) =>
      ReplacedTask(registry, taskId, (task: Task) => task.(lastPaperEmittedAt := Some(now), updatedAt := now), id);
    case MarkTaskDormant(taskId, now) =>
      ReplacedTask(registry, taskId, (task: Task) => task.(dormantAt := Some(now), updatedAt := now), id);
    case WakeTask(taskId, now) =>
      ReplacedTask(registry, taskId, (task: Task) => task.(dormantAt := None, updatedAt := now), id);
  }

  /** The layout of a known task is the one last saved for it. */
  lemma LayoutAfter(registry: Registry, taskId: string, layout: int, now: int, id: string)
    ensures var was := Get(registry.layouts, id);
            Get(Apply(registry, UpdateTaskLayout(taskId, layout, now)).layouts, id) ==
            if id == taskId && Get(registry.tasks, id).Some? then Some(Layout(id, layout, now)) else was
  {
    GetAfterSet(registry.layouts, taskId, Layout(taskId, layout, now), id);
    ReplacedTask(registry.(layouts := Set(registry.layouts, taskId, Layout(taskId, layout, now))), taskId,
                 (task: Task) => task.(updatedAt := now), id);
  }

  /** The operation has a say in whether the task sleeps. */
  predicate Wakes(registry: Registry, op: Op, id: string) {
    (op.MarkTaskDormant? || op.WakeTask? || op.CreateTask?) && Concerns(registry, op, id)
  }

  ghost predicate NeverWakes(registry: Registry, ops: seq<Op>, id: string)
    decreases |ops|
  {
    ops == [] || (!Wakes(registry, ops[0], id) && NeverWakes(Apply(registry, ops[0]), ops[1..], id))
  }

  lemma {:induction false} StaysAsleep(registry: Registry, ops: seq<Op>, id: string)
    requires Inv(registry) && Get(registry.tasks, id).Some? && NeverWakes(registry, ops, id)
    ensures Get(Run(registry, ops).tasks, id).Some?
    ensures Get(Run(registry, ops).tasks, id).value.dormantAt == Get(registry.tasks, id).value.dormantAt
    decreases |ops|
  {
    if ops != [] {
      TaskAfter(registry, ops[0], id);
      OpKeepsInv(registry, ops[0]);
      StaysAsleep(Apply(registry, ops[0]), ops[1..], id);
    }
  }

  /** Whether a task sleeps, and since when, is what the last operation with a say in it left:
      a known task marked dormant sleeps since then, one woken or answered to a creation is
      awake. */
  lemma LastWordOnSleep(registry: Registry, op: Op, ops: seq<Op>, id: string)
    requires Inv(registry) && Wakes(registry, op, id) && (op.CreateTask? || Get(registry.tasks, id).Some?)
    requires NeverWakes(Apply(registry, op), ops, id)
    ensures var finally := Get(Run(registry, [op] + ops).tasks, id);
            && finally.Some?
            && finally.value.dormantAt == if op.MarkTaskDormant? then Some(op.now) else None
  {
    TaskAfter(registry, op, id);
    OpKeepsInv(registry, op);
    if op.CreateTask? {
      AnswerFits(registry, op.input);
    }
    StaysAsleep(Apply(registry, op), ops, id);
    assert ([op] + ops)[1..] == ops;
  }
}
