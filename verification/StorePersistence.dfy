/** The write queue that saves the shared in-memory store after matching calls
    (app/orchestrator/src/persistent_in_memory_gateway_store.ts), as a state machine: every
    `await` is a point where any other step may happen.

    A save looks at memory twice. The entry lists and the root references are copied when it
    begins; what the referenced objects contain is read later, when the copy is printed. */
module StorePersistence {
  import opened Prelude

  /** The identity of a heap object and the text its contents print to. */
  type Ref = nat
  type Text = string
  type Entry = (string, Ref)

  /** The maps that exist, each by its name with its ordered entry list. */
  type Maps = seq<(string, seq<Entry>)>

  /** The shared store: the queue array and the two cells, the maps in the fixed order of the
      map keys, and the objects. */
  datatype Memory = Memory(roots: seq<Ref>, maps: Maps, heap: map<Ref, Text>)

  /** What the first look keeps. */
  datatype Capture = Capture(roots: seq<Ref>, maps: Maps)

  /** The contents of a state file. */
  datatype Image = Image(roots: seq<Text>, maps: seq<(string, seq<(string, Text)>)>)

  /** When the two looks behind a file happened, as positions in the history of memory. */
  datatype Stamp = Stamp(captured: nat, printed: nat)

  datatype Stage = Captured(at: nat, capture: Capture) | Printed(stamp: Stamp, image: Image)

  /** A persisted call. `mark` is the position in the history at which its method was done;
      everything it changed is in memory by then. */
  datatype Call = Waiting(mark: nat) | Saved(mark: nat) | Unsaved(mark: nat) | Returned(mark: nat, ok: bool)

  datatype State = State(
    history: seq<Memory>,
    calls: seq<Call>,
    begun: nat,
    active: Option<Stage>,
    file: Option<Image>,
    stamp: Option<Stamp>)
  {
    function Now(): nat
      requires history != []
    {
      |history| - 1
    }
  }

  datatype Step =
    | Change(memory: Memory)      // any method changes memory, saved or not
    | Enqueue(methodName: string) // a method is done and asks for a save
    | Begin                       // the previous save has settled: look at memory
    | PrepareFails                // the directory cannot be made
    | Print                       // second look, and the temporary file is being written
    | WriteFails                  // writing or renaming is rejected
    | Rename                      // the temporary file becomes the state file
    | Resume(call: nat)           // the waiting caller continues

  const PERSISTED_PREFIXES := ["lease", "renew", "mark", "defer", "ignore", "bump", "save", "create", "claim",
                               "ingest", "record", "finalize", "set", "clear", "update", "delete", "retry",
                               "upsert", "tryRegister", "wake", "prune"]

  predicate ShouldPersistAfter(methodName: string) {
    exists i :: 0 <= i < |PERSISTED_PREFIXES| && PERSISTED_PREFIXES[i] <= methodName
  }

  function CaptureOf(memory: Memory): Capture {
    Capture(memory.roots, memory.maps)
  }

  function Read(heap: map<Ref, Text>, ref: Ref): Text {
    if ref in heap then heap[ref] else "null"
  }

  function ReadRoots(roots: seq<Ref>, heap: map<Ref, Text>): seq<Text> {
    if roots == [] then [] else [Read(heap, roots[0])] + ReadRoots(roots[1..], heap)
  }

  function ReadEntries(entries: seq<Entry>, heap: map<Ref, Text>): seq<(string, Text)> {
    if entries == [] then []
    else [(entries[0].0, Read(heap, entries[0].1))] + ReadEntries(entries[1..], heap)
  }

  function ReadMaps(maps: Maps, heap: map<Ref, Text>): seq<(string, seq<(string, Text)>)> {
    if maps == [] then [] else [(maps[0].0, ReadEntries(maps[0].1, heap))] + ReadMaps(maps[1..], heap)
  }

  function PrintOut(capture: Capture, heap: map<Ref, Text>): Image {
    Image(ReadRoots(capture.roots, heap), ReadMaps(capture.maps, heap))
  }

  /** The file that one look at `memory` would give. */
  function Snapshot(memory: Memory): Image {
    PrintOut(CaptureOf(memory), memory.heap)
  }

  function Initial(memory: Memory, file: Option<Image>): State {
    State([memory], [], 0, None, file, None)
  }

  /** The effect of a step; a step that is not possible changes nothing. */
  function Apply(s: State, step: Step): State
    requires s.history != []
    ensures s.history <= Apply(s, step).history
  {
    match step
    case Change(memory) => s.(history := s.history + [memory])
    case Enqueue(name) =>
      if ShouldPersistAfter(name) then s.(calls := s.calls + [Waiting(s.Now())]) else s
    case Begin =>
      if s.active.None? && s.begun < |s.calls|
      then s.(begun := s.begun + 1, active := Some(Captured(s.Now(), CaptureOf(s.history[s.Now()]))))
      else s
    case PrepareFails =>
      if s.active.Some? && s.active.value.Captured? && s.begun <= |s.calls| && s.begun > 0 then Settle(s, false) else s
    case Print =>
      if s.active.Some? && s.active.value.Captured?
      then s.(active := Some(Printed(Stamp(s.active.value.at, s.Now()),
                                     PrintOut(s.active.value.capture, s.history[s.Now()].heap))))
      else s
    case WriteFails =>
      if s.active.Some? && s.active.value.Printed? && s.begun <= |s.calls| && s.begun > 0 then Settle(s, false) else s
    case Rename =>
      if s.active.Some? && s.active.value.Printed? && s.begun <= |s.calls| && s.begun > 0
      then Settle(s, true).(file := Some(s.active.value.image), stamp := Some(s.active.value.stamp))
      else s
    case Resume(call) =>
      if call < |s.calls| && (s.calls[call].Saved? || s.calls[call].Unsaved?)
      then s.(calls := s.calls[call := Returned(s.calls[call].mark, s.calls[call].Saved?)])
      else s
  }

  /** The save at work ends: its call learns how, and the queue goes on either way. */
  function Settle(s: State, ok: bool): State
    requires 0 < s.begun <= |s.calls|
  {
    var call := s.begun - 1;
    s.(active := None,
       calls := s.calls[call := if ok then Saved(s.calls[call].mark) else Unsaved(s.calls[call].mark)])
  }

  function Run(s: State, steps: seq<Step>): State
    requires s.history != []
    ensures s.history <= Run(s, steps).history
  {
    if steps == [] then s else Apply(Run(s, steps[..|steps| - 1]), steps[|steps| - 1])
  }

  // ---------------------------------------------------------------- the invariant

  /** The file was printed from these two looks. */
  ghost predicate PrintedFrom(history: seq<Memory>, image: Image, stamp: Stamp) {
    && stamp.captured <= stamp.printed < |history|
    && image == PrintOut(CaptureOf(history[stamp.captured]), history[stamp.printed].heap)
  }

  ghost predicate StageFits(s: State) {
    match s.active
    case None => true
    case Some(Captured(at, capture)) =>
      && at < |s.history| && capture == CaptureOf(s.history[at])
      && (s.stamp.Some? ==> s.stamp.value.printed <= at)
      && s.begun > 0 && s.begun <= |s.calls| && s.calls[s.begun - 1].mark <= at
    case Some(Printed(stamp, image)) =>
      && PrintedFrom(s.history, image, stamp)
      && (s.stamp.Some? ==> s.stamp.value.printed <= stamp.captured)
      && s.begun > 0 && s.begun <= |s.calls| && s.calls[s.begun - 1].mark <= stamp.captured
  }

  ghost predicate CallsFit(s: State) {
    && s.begun <= |s.calls|
    && (forall i :: 0 <= i < |s.calls| ==> s.calls[i].mark < |s.history|)
    && (forall i :: s.begun <= i < |s.calls| ==> s.calls[i].Waiting?)
    && (forall i :: 0 <= i < s.begun ==> (s.calls[i].Waiting? <==> s.active.Some? && i == s.begun - 1))
    && (forall i :: 0 <= i < |s.calls| && (s.calls[i].Saved? || (s.calls[i].Returned? && s.calls[i].ok)) ==>
          s.stamp.Some? && s.calls[i].mark <= s.stamp.value.captured)
  }

  ghost predicate Inv(s: State) {
    && s.history != []
    && (s.stamp.Some? ==> s.file.Some? && PrintedFrom(s.history, s.file.value, s.stamp.value))
    && StageFits(s)
    && CallsFit(s)
  }

  /** Neither look behind the later file is older. */
  predicate NotBefore(earlier: Option<Stamp>, later: Option<Stamp>) {
    earlier.Some? ==>
      later.Some? && earlier.value.captured <= later.value.captured && earlier.value.printed <= later.value.printed
  }

  /** What a step keeps, and that the file only moves forward. */
  ghost predicate Follows(s: State, t: State) {
    Inv(t) && NotBefore(s.stamp, t.stamp) && (t.stamp.None? ==> t.file == s.file)
  }

  lemma CallsMove(s: State, step: Step)
    requires Inv(s) && (step.Change? || step.Enqueue? || step.Resume?)
    ensures Follows(s, Apply(s, step))
  {
  }

  lemma SaveLooks(s: State, step: Step)
    requires Inv(s) && (step.Begin? || step.Print?)
    ensures Follows(s, Apply(s, step))
  {
  }

  lemma SaveFails(s: State, step: Step)
    requires Inv(s) && (step.PrepareFails? || step.WriteFails?)
    ensures Follows(s, Apply(s, step))
  {
  }

  lemma SaveLands(s: State)
    requires Inv(s)
    ensures Follows(s, Apply(s, Rename))
  {
  }

  lemma InvStep(s: State, step: Step)
    requires Inv(s)
    ensures Follows(s, Apply(s, step))
  {
    match step
    case Change(_) => CallsMove(s, step);
    case Enqueue(_) => CallsMove(s, step);
    case Resume(_) => CallsMove(s, step);
    case Begin => SaveLooks(s, step);
    case Print => SaveLooks(s, step);
    case PrepareFails => SaveFails(s, step);
    case WriteFails => SaveFails(s, step);
    case Rename => SaveLands(s);
  }

  lemma {:induction false} InvRun(s: State, steps: seq<Step>)
    requires Inv(s)
    ensures Inv(Run(s, steps))
  {
    if steps != [] {
      InvRun(s, steps[..|steps| - 1]);
      InvStep(Run(s, steps[..|steps| - 1]), steps[|steps| - 1]);
    }
  }

  // ---------------------------------------------------------------- durability

  lemma InitialInv(memory: Memory, file: Option<Image>)
    ensures Inv(Initial(memory, file))
  {
  }

  /** When a persisted call has returned without an error, the file holds two looks at memory
      that were both made after everything the call changed: every entry list, every root and
      every object in the file is at least that new. */
  lemma Durability(memory: Memory, file: Option<Image>, steps: seq<Step>, call: nat)
    requires var s := Run(Initial(memory, file), steps);
             call < |s.calls| && s.calls[call].Returned? && s.calls[call].ok
    ensures var s := Run(Initial(memory, file), steps);
            && s.file.Some? && s.stamp.Some?
            && s.calls[call].mark <= s.stamp.value.captured
            && PrintedFrom(s.history, s.file.value, s.stamp.value)
  {
    InitialInv(memory, file);
    InvRun(Initial(memory, file), steps);
  }

  /** At every instant of every run (a crash may come at any of them) the file is the one the
      run started with or a complete print of one pair of looks, and neither look ever moves
      back in time. */
  lemma FileNeverGoesBack(memory: Memory, file: Option<Image>, steps: seq<Step>, more: seq<Step>)
    ensures var s := Run(Initial(memory, file), steps);
            var t := Run(s, more);
            && (if s.stamp.None? then s.file == file
                else s.file.Some? && PrintedFrom(s.history, s.file.value, s.stamp.value))
            && NotBefore(s.stamp, t.stamp)
  {
    var s := Run(Initial(memory, file), steps);
    InitialInv(memory, file);
    InvRun(Initial(memory, file), steps);
    StampsGrow(Initial(memory, file), steps);
    StampsGrow(s, more);
  }

  lemma {:induction false} StampsGrow(s: State, steps: seq<Step>)
    requires Inv(s)
    ensures var t := Run(s, steps);
            && Inv(t)
            && NotBefore(s.stamp, t.stamp)
            && (t.stamp.None? ==> t.file == s.file)
  {
    if steps != [] {
      StampsGrow(s, steps[..|steps| - 1]);
      InvStep(Run(s, steps[..|steps| - 1]), steps[|steps| - 1]);
    }
  }

  /** If memory has not changed since a call that returned without an error was done, the
      file is exactly what is in memory. */
  lemma QuietFileIsMemory(memory: Memory, file: Option<Image>, steps: seq<Step>, call: nat)
    requires var s := Run(Initial(memory, file), steps);
             call < |s.calls| && s.calls[call].Returned? && s.calls[call].ok && s.calls[call].mark == s.Now()
    ensures var s := Run(Initial(memory, file), steps);
            s.file == Some(Snapshot(s.history[s.Now()]))
  {
    Durability(memory, file, steps, call);
  }

  // ---------------------------------------------------------------- failures do not block

  lemma {:induction false} RunAppend(s: State, a: seq<Step>, b: seq<Step>)
    requires s.history != []
    ensures Run(s, a + b) == Run(Run(s, a), b)
  {
    if b == [] {
      assert a + b == a;
    } else {
      assert (a + b)[..|a + b| - 1] == a + b[..|b| - 1];
      RunAppend(s, a, b[..|b| - 1]);
    }
  }

  const SAVE_STEPS := [Begin, Print, Rename]

  /** The oldest waiting call's save, undisturbed. */
  lemma SaveNext(s: State)
    requires s.history != [] && s.active.None? && s.begun < |s.calls|
    ensures Run(s, SAVE_STEPS) ==
            s.(begun := s.begun + 1, calls := s.calls[s.begun := Saved(s.calls[s.begun].mark)],
               file := Some(Snapshot(s.history[s.Now()])), stamp := Some(Stamp(s.Now(), s.Now())))
  {
    assert SAVE_STEPS[..2] == [Begin, Print];
    RunTwo(s, Begin, Print);
    SaveEffect(s);
  }

  lemma SaveEffect(s: State)
    requires s.history != [] && s.active.None? && s.begun < |s.calls|
    ensures Apply(Apply(Apply(s, Begin), Print), Rename) ==
            s.(begun := s.begun + 1, calls := s.calls[s.begun := Saved(s.calls[s.begun].mark)],
               file := Some(Snapshot(s.history[s.Now()])), stamp := Some(Stamp(s.Now(), s.Now())))
  {
  }

  ghost function Drain(waiting: nat): seq<Step> {
    if waiting == 0 then [] else SAVE_STEPS + Drain(waiting - 1)
  }

  /** Every outstanding call saved, and the file as memory. */
  ghost predicate Drained(s: State, t: State)
    requires s.history != []
  {
    && t.history == s.history && t.active.None? && t.begun == |t.calls| == |s.calls|
    && (forall i :: 0 <= i < |s.calls| ==>
          t.calls[i] == if i < s.begun then s.calls[i] else Saved(s.calls[i].mark))
    && t.file == Some(Snapshot(s.history[s.Now()]))
  }

  lemma DrainedFurther(s: State, saved: State, t: State)
    requires s.history != [] && s.begun < |s.calls|
    requires saved.history == s.history && saved.begun == s.begun + 1
    requires saved.calls == s.calls[s.begun := Saved(s.calls[s.begun].mark)]
    requires Drained(saved, t)
    ensures Drained(s, t)
  {
  }

  /** Whatever failed before, an idle queue can be emptied with every outstanding save
      succeeding, oldest first, and the file then equals memory. */
  lemma {:induction false} QueueDrains(s: State)
    requires s.history != [] && s.active.None? && s.begun < |s.calls|
    ensures Drained(s, Run(s, Drain(|s.calls| - s.begun)))
    decreases |s.calls| - s.begun
  {
    SaveNext(s);
    var saved, rest := Run(s, SAVE_STEPS), Drain(|s.calls| - s.begun - 1);
    RunAppend(s, SAVE_STEPS, rest);
    if s.begun + 1 < |s.calls| {
      QueueDrains(saved);
      DrainedFurther(s, saved, Run(saved, rest));
    }
  }

  lemma FailureEffect(s: State, ending: Step)
    requires Inv(s) && s.active.Some?
    requires ending == if s.active.value.Captured? then PrepareFails else WriteFails
    ensures Apply(s, ending) ==
            s.(active := None, calls := s.calls[s.begun - 1 := Unsaved(s.calls[s.begun - 1].mark)])
  {
  }

  /** A caller continues once its save has settled, and learns whether it failed; before that,
      and after it has returned, nothing happens. */
  lemma CallerLearns(s: State, call: nat)
    requires s.history != [] && call < |s.calls|
    ensures var (was, t) := (s.calls[call], Apply(s, Resume(call)));
            match was
            case Saved(mark) => t == s.(calls := s.calls[call := Returned(mark, true)])
            case Unsaved(mark) => t == s.(calls := s.calls[call := Returned(mark, false)])
            case _ => t == s
  {
  }

  /** A save that is at work can fail early or late; the queue is idle afterwards, no other
      call is touched, and the saves behind it can all still succeed. */
  lemma FailureOnlyHitsItsCall(s: State, ending: Step)
    requires Inv(s) && s.active.Some?
    requires ending == if s.active.value.Captured? then PrepareFails else WriteFails
    ensures var t := Apply(s, ending);
            && t == s.(active := None, calls := s.calls[s.begun - 1 := Unsaved(s.calls[s.begun - 1].mark)])
            && (s.begun < |s.calls| ==> Drained(t, Run(t, Drain(|s.calls| - s.begun))))
  {
    FailureEffect(s, ending);
    if s.begun < |s.calls| {
      QueueDrains(Apply(s, ending));
    }
  }

  lemma RunOne(s: State, step: Step)
    requires s.history != []
    ensures Run(s, [step]) == Apply(s, step)
  {
  }

  lemma RunTwo(s: State, first: Step, second: Step)
    requires s.history != []
    ensures Run(s, [first, second]) == Apply(Apply(s, first), second)
  {
    assert [first, second][..1] == [first];
    RunOne(s, first);
  }

  // ---------------------------------------------------------------- what a file is not

  predicate SameRoots(a: seq<Ref>, aHeap: map<Ref, Text>, b: seq<Ref>, bHeap: map<Ref, Text>) {
    |a| == |b| && forall i :: 0 <= i < |a| ==> Read(aHeap, a[i]) == Read(bHeap, b[i])
  }

  predicate SameEntries(a: seq<Entry>, aHeap: map<Ref, Text>, b: seq<Entry>, bHeap: map<Ref, Text>) {
    |a| == |b| && forall i :: 0 <= i < |a| ==> a[i].0 == b[i].0 && Read(aHeap, a[i].1) == Read(bHeap, b[i].1)
  }

  predicate SameMap(a: (string, seq<Entry>), aHeap: map<Ref, Text>, b: (string, seq<Entry>), bHeap: map<Ref, Text>) {
    a.0 == b.0 && SameEntries(a.1, aHeap, b.1, bHeap)
  }

  /** The roots and entry lists captured read, through the heap of the second look, as those of
      `memory` do: the same maps, the same keys in the same order, and behind each the same text. */
  predicate ReadsAs(capture: Capture, heap: map<Ref, Text>, memory: Memory) {
    && SameRoots(capture.roots, heap, memory.roots, memory.heap)
    && |capture.maps| == |memory.maps|
    && forall k :: 0 <= k < |capture.maps| ==> SameMap(capture.maps[k], heap, memory.maps[k], memory.heap)
  }

  lemma {:induction false} RootsAlike(a: seq<Ref>, aHeap: map<Ref, Text>, b: seq<Ref>, bHeap: map<Ref, Text>)
    ensures ReadRoots(a, aHeap) == ReadRoots(b, bHeap) <==> SameRoots(a, aHeap, b, bHeap)
  {
    if a != [] && b != [] {
      RootsAlike(a[1..], aHeap, b[1..], bHeap);
      var x, y := ReadRoots(a, aHeap), ReadRoots(b, bHeap);
      assert x == y <==> x[0] == y[0] && x[1..] == y[1..];
      assert SameRoots(a, aHeap, b, bHeap) ==> SameRoots(a[1..], aHeap, b[1..], bHeap);
      assert forall i :: 1 <= i < |a| ==> a[i] == a[1..][i - 1];
      assert forall i :: 1 <= i < |b| ==> b[i] == b[1..][i - 1];
    }
  }

  lemma {:induction false} EntriesAlike(a: seq<Entry>, aHeap: map<Ref, Text>, b: seq<Entry>, bHeap: map<Ref, Text>)
    ensures ReadEntries(a, aHeap) == ReadEntries(b, bHeap) <==> SameEntries(a, aHeap, b, bHeap)
  {
    if a != [] && b != [] {
      EntriesAlike(a[1..], aHeap, b[1..], bHeap);
      var x, y := ReadEntries(a, aHeap), ReadEntries(b, bHeap);
      assert x == y <==> x[0] == y[0] && x[1..] == y[1..];
      assert forall i :: 1 <= i < |a| ==> a[i] == a[1..][i - 1];
      assert forall i :: 1 <= i < |b| ==> b[i] == b[1..][i - 1];
    }
  }

  lemma {:induction false} MapsAlike(a: Maps, aHeap: map<Ref, Text>, b: Maps, bHeap: map<Ref, Text>)
    ensures ReadMaps(a, aHeap) == ReadMaps(b, bHeap) <==>
            |a| == |b| && forall k :: 0 <= k < |a| ==> SameMap(a[k], aHeap, b[k], bHeap)
  {
    if a != [] && b != [] {
      EntriesAlike(a[0].1, aHeap, b[0].1, bHeap);
      MapsAlike(a[1..], aHeap, b[1..], bHeap);
      var x, y := ReadMaps(a, aHeap), ReadMaps(b, bHeap);
      assert x == y <==> x[0] == y[0] && x[1..] == y[1..];
      assert forall i :: 1 <= i < |a| ==> a[i] == a[1..][i - 1];
      assert forall i :: 1 <= i < |b| ==> b[i] == b[1..][i - 1];
    }
  }

  /** In every reachable state with a file, and for every instant of the history: the file is
      the store of that instant if and only if what was captured reads as that store. */
  lemma StoreOfInstant(memory: Memory, file: Option<Image>, steps: seq<Step>, m: nat)
    requires Run(Initial(memory, file), steps).stamp.Some? && m < |Run(Initial(memory, file), steps).history|
    ensures var s := Run(Initial(memory, file), steps);
            && s.stamp.value.captured <= s.stamp.value.printed < |s.history|
            && (s.file == Some(Snapshot(s.history[m])) <==>
                ReadsAs(CaptureOf(s.history[s.stamp.value.captured]), s.history[s.stamp.value.printed].heap, s.history[m]))
  {
    InitialInv(memory, file);
    InvRun(Initial(memory, file), steps);
    var s := Run(Initial(memory, file), steps);
    var capture, heap := CaptureOf(s.history[s.stamp.value.captured]), s.history[s.stamp.value.printed].heap;
    RootsAlike(capture.roots, heap, s.history[m].roots, s.history[m].heap);
    MapsAlike(capture.maps, heap, s.history[m].maps, s.history[m].heap);
  }

  predicate SameMapKeys(a: (string, seq<Entry>), b: (string, seq<Entry>)) {
    a.0 == b.0 && |a.1| == |b.1| && forall i :: 0 <= i < |a.1| ==> a.1[i].0 == b.1[i].0
  }

  predicate SameKeys(a: Capture, b: Capture) {
    |a.maps| == |b.maps| && forall k :: 0 <= k < |a.maps| ==> SameMapKeys(a.maps[k], b.maps[k])
  }

  /** So a save during which no change moves a root or an entry list writes the store of its
      second look, whatever happens to the objects; and one during which a key comes, goes or
      moves, and is not back in its place, writes a file that is not. */
  lemma SingleInstant(memory: Memory, file: Option<Image>, steps: seq<Step>)
    requires Run(Initial(memory, file), steps).stamp.Some?
    ensures var s := Run(Initial(memory, file), steps);
            var (first, second) := (s.stamp.value.captured, s.stamp.value.printed);
            && first <= second < |s.history|
            && ((forall m :: first <= m < second ==> CaptureOf(s.history[m]) == CaptureOf(s.history[m + 1])) ==>
                  s.file == Some(Snapshot(s.history[second])))
            && (!SameKeys(CaptureOf(s.history[first]), CaptureOf(s.history[second])) ==>
                  s.file != Some(Snapshot(s.history[second])))
  {
    InitialInv(memory, file);
    InvRun(Initial(memory, file), steps);
    var s := Run(Initial(memory, file), steps);
    StoreOfInstant(memory, file, steps, s.stamp.value.printed);
    if forall m :: s.stamp.value.captured <= m < s.stamp.value.printed ==>
         CaptureOf(s.history[m]) == CaptureOf(s.history[m + 1]) {
      Unmoved(s.history, s.stamp.value.captured, s.stamp.value.printed);
    }
  }

  lemma {:induction false} Unmoved(history: seq<Memory>, first: nat, second: nat)
    requires first <= second < |history|
    requires forall m :: first <= m < second ==> CaptureOf(history[m]) == CaptureOf(history[m + 1])
    ensures CaptureOf(history[first]) == CaptureOf(history[second])
    decreases second
  {
    if first < second {
      Unmoved(history, first, second - 1);
    }
  }

  /** A store with one cell, naming the current task, and one map, the tasks. */
  const BEFORE := Memory([0], [("tasks", [])], map[0 := "null"])
  const CREATED := Memory([0], [("tasks", [("t1", 1)])], map[0 := "null", 1 := "task"])
  const ENTERED := Memory([0], [("tasks", [("t1", 1)])], map[0 := "t1", 1 := "task"])

  /** A file need not be the store of any instant: a task created and entered between the two
      looks is named by the cell and missing from the task list. */
  lemma TornFile()
    ensures var saving := Run(Initial(BEFORE, None), [Enqueue("setManualModeActive"), Begin]);
            var changed := Run(saving, [Change(CREATED), Change(ENTERED)]);
            var s := Run(changed, [Print, Rename]);
            && s.history == [BEFORE, CREATED, ENTERED]
            && s.file == Some(Image(["t1"], [("tasks", [])]))
            && s.file != Some(Snapshot(BEFORE)) && s.file != Some(Snapshot(CREATED)) && s.file != Some(Snapshot(ENTERED))
  {
    TornSave();
    TornImage();
  }

  lemma TornSave()
    ensures var saving := Run(Initial(BEFORE, None), [Enqueue("setManualModeActive"), Begin]);
            var changed := Run(saving, [Change(CREATED), Change(ENTERED)]);
            var s := Run(changed, [Print, Rename]);
            s.history == [BEFORE, CREATED, ENTERED] && s.file == Some(PrintOut(CaptureOf(BEFORE), ENTERED.heap))
  {
    var start := Initial(BEFORE, None);
    assert PERSISTED_PREFIXES[12] <= "setManualModeActive";
    RunTwo(start, Enqueue("setManualModeActive"), Begin);
    var saving := Run(start, [Enqueue("setManualModeActive"), Begin]);
    RunTwo(saving, Change(CREATED), Change(ENTERED));
    var changed := Run(saving, [Change(CREATED), Change(ENTERED)]);
    RunTwo(changed, Print, Rename);
    assert changed.history == [BEFORE, CREATED, ENTERED];
  }

  lemma TornImage()
    ensures PrintOut(CaptureOf(BEFORE), ENTERED.heap) == Image(["t1"], [("tasks", [])])
    ensures Snapshot(BEFORE).roots == Snapshot(CREATED).roots == ["null"]
    ensures Snapshot(ENTERED).maps == [("tasks", [("t1", "task")])]
  {
    assert BEFORE.maps[1..] == [] && ENTERED.maps[1..] == [];
    assert BEFORE.roots[1..] == [] && ENTERED.maps[0].1[1..] == [];
    assert ReadEntries(ENTERED.maps[0].1, ENTERED.heap) == [("t1", "task")];
  }

  lemma NotPersisted(name: string)
    requires |name| > 1 && name[0] in "alngp" && (name[0] == 'l' ==> name[1] == 'i')
    requires name[0] == 'p' ==> name[1] == 'e'
    ensures !ShouldPersistAfter(name)
  {
  }

  // ---------------------------------------------------------------- which changes are saved

  /** The file was printed from looks at the change at position `k` or later. */
  predicate Covers(s: State, k: nat) {
    s.stamp.Some? && s.stamp.value.captured >= k
  }

  /** A save is at work whose first look was at that change or later. */
  predicate UnderWay(s: State, k: nat) {
    s.active.Some? && match s.active.value
                      case Captured(at, _) => at >= k
                      case Printed(stamp, _) => stamp.captured >= k
  }

  predicate Starts(s: State, step: Step) {
    step.Begin? && s.active.None? && s.begun < |s.calls|
  }

  predicate Lands(s: State, step: Step) {
    step.Rename? && s.active.Some? && s.active.value.Printed?
  }

  predicate Fails(s: State, step: Step) {
    && s.active.Some?
    && ((step.PrepareFails? && s.active.value.Captured?) || (step.WriteFails? && s.active.value.Printed?))
  }

  lemma CoverStep(s: State, step: Step, k: nat)
    requires Inv(s) && k < |s.history|
    ensures Covers(Apply(s, step), k) <==> Covers(s, k) || (Lands(s, step) && UnderWay(s, k))
    ensures UnderWay(Apply(s, step), k) <==>
            Starts(s, step) || (UnderWay(s, k) && !Lands(s, step) && !Fails(s, step))
    ensures Apply(s, step).active.Some? <==>
            Starts(s, step) || (s.active.Some? && !Lands(s, step) && !Fails(s, step))
  {
  }

  lemma RunNext(s: State, steps: seq<Step>, j: nat)
    requires s.history != [] && j < |steps|
    ensures Run(s, steps[..j + 1]) == Apply(Run(s, steps[..j]), steps[j])
  {
    assert steps[..j + 1][..j] == steps[..j];
  }

  ghost predicate StartsAt(s: State, steps: seq<Step>, i: nat)
    requires s.history != [] && i < |steps|
  {
    Starts(Run(s, steps[..i]), steps[i])
  }

  ghost predicate LandsAt(s: State, steps: seq<Step>, j: nat)
    requires s.history != [] && j < |steps|
  {
    Lands(Run(s, steps[..j]), steps[j])
  }

  ghost predicate SavedWithin(s: State, steps: seq<Step>, n: nat)
    requires s.history != [] && n <= |steps|
  {
    exists i, j :: 0 <= i < j < n && StartsAt(s, steps, i) && LandsAt(s, steps, j)
  }

  /** What matters of one state and the step taken there. */
  datatype Moment = Moment(covers: bool, underWay: bool, active: bool, starts: bool, lands: bool, fails: bool)

  predicate Leads(a: Moment, b: Moment) {
    && (a.starts ==> !a.active) && (a.lands ==> a.active) && (a.underWay ==> a.active)
    && (b.covers <==> a.covers || (a.lands && a.underWay))
    && (b.underWay <==> a.starts || (a.underWay && !a.lands && !a.fails))
    && (b.active <==> a.starts || (a.active && !a.lands && !a.fails))
  }

  lemma {:induction false} AtWorkBegan(moments: seq<Moment>, j: nat)
    requires j < |moments| && !moments[0].underWay && moments[j].underWay
    requires forall m :: 0 <= m < |moments| - 1 ==> Leads(moments[m], moments[m + 1])
    ensures exists i :: 0 <= i < j && moments[i].starts
  {
    if !moments[j - 1].starts {
      AtWorkBegan(moments, j - 1);
    }
  }

  /** After a save has begun, every save at work is as late. */
  lemma {:induction false} LaterSaves(moments: seq<Moment>, i: nat, j: nat)
    requires i < j < |moments| && moments[i].starts
    requires forall m :: 0 <= m < |moments| - 1 ==> Leads(moments[m], moments[m + 1])
    ensures moments[j].active ==> moments[j].underWay
  {
    assert Leads(moments[j - 1], moments[j]);
    if i < j - 1 {
      LaterSaves(moments, i, j - 1);
    }
  }

  lemma {:induction false} CoveredMoments(moments: seq<Moment>, n: nat)
    requires n < |moments| && !moments[0].covers && !moments[0].underWay
    requires forall m :: 0 <= m < |moments| - 1 ==> Leads(moments[m], moments[m + 1])
    ensures moments[n].covers <==> exists i, j :: 0 <= i < j < n && moments[i].starts && moments[j].lands
  {
    if n > 0 {
      var last := n - 1;
      CoveredMoments(moments, last);
      assert Leads(moments[last], moments[n]);
      if moments[last].lands {
        if moments[last].underWay {
          AtWorkBegan(moments, last);
        }
        forall i | 0 <= i < last && moments[i].starts
          ensures moments[last].underWay
        {
          LaterSaves(moments, i, last);
        }
      }
    }
  }

  ghost function MomentAt(s: State, steps: seq<Step>, k: nat, m: nat): Moment
    requires s.history != [] && m <= |steps|
  {
    var state := Run(s, steps[..m]);
    if m == |steps| then Moment(Covers(state, k), UnderWay(state, k), state.active.Some?, false, false, false)
    else Moment(Covers(state, k), UnderWay(state, k), state.active.Some?,
                Starts(state, steps[m]), Lands(state, steps[m]), Fails(state, steps[m]))
  }

  lemma MomentLeads(s: State, steps: seq<Step>, k: nat, m: nat)
    requires Inv(s) && k < |s.history| && m < |steps|
    ensures Leads(MomentAt(s, steps, k, m), MomentAt(s, steps, k, m + 1))
  {
    RunNext(s, steps, m);
    InvRun(s, steps[..m]);
    CoverStep(Run(s, steps[..m]), steps[m], k);
  }

  lemma MomentsOfRun(s: State, steps: seq<Step>, k: nat) returns (moments: seq<Moment>)
    requires Inv(s) && k < |s.history|
    ensures |moments| == |steps| + 1
    ensures forall m :: 0 <= m <= |steps| ==> moments[m] == MomentAt(s, steps, k, m)
    ensures forall m :: 0 <= m < |moments| - 1 ==> Leads(moments[m], moments[m + 1])
  {
    moments := seq(|steps| + 1, m requires 0 <= m <= |steps| => MomentAt(s, steps, k, m));
    forall m | 0 <= m < |moments| - 1
      ensures Leads(moments[m], moments[m + 1])
    {
      MomentLeads(s, steps, k, m);
    }
  }

  lemma CoveredExactly(s: State, steps: seq<Step>, k: nat)
    requires Inv(s) && k < |s.history| && !Covers(s, k) && !UnderWay(s, k)
    ensures Covers(Run(s, steps), k) <==> SavedWithin(s, steps, |steps|)
  {
    var moments := MomentsOfRun(s, steps, k);
    var n := |steps|;
    assert steps[..0] == [] && steps[..n] == steps;
    assert moments[0] == MomentAt(s, steps, k, 0) && moments[n] == MomentAt(s, steps, k, n);
    CoveredMoments(moments, n);
    forall i | 0 <= i < n
      ensures moments[i].starts == StartsAt(s, steps, i) && moments[i].lands == LandsAt(s, steps, i)
    {
      assert moments[i] == MomentAt(s, steps, k, i);
    }
  }

  predicate ReturnedSince(call: Call, k: nat) {
    call.Returned? && call.ok && call.mark >= k
  }

  /** Any change, by whatever method, saved or not: it is in the file, and the file printed from
      looks no older than it, if and only if since then a save has begun and one has landed
      after that beginning. Every call done at or after the change that has returned without an
      error is proof of that. */
  lemma ChangeIsSaved(memory: Memory, file: Option<Image>, before: seq<Step>, change: Memory, after: seq<Step>)
    ensures var s := Apply(Run(Initial(memory, file), before), Change(change));
            var t := Run(s, after);
            && s.history[s.Now()] == change
            && (Covers(t, s.Now()) <==> SavedWithin(s, after, |after|))
            && (Covers(t, s.Now()) ==> t.file.Some? && PrintedFrom(t.history, t.file.value, t.stamp.value))
            && forall call :: 0 <= call < |t.calls| && ReturnedSince(t.calls[call], s.Now()) ==> Covers(t, s.Now())
  {
    InitialInv(memory, file);
    InvRun(Initial(memory, file), before);
    var last := Run(Initial(memory, file), before);
    InvStep(last, Change(change));
    var s := Apply(last, Change(change));
    InvRun(s, after);
    CoveredExactly(s, after, s.Now());
  }

  // ---------------------------------------------------------------- which calls are saved

  /** The methods of the gateway store that ask for a save. */
  const LEASE_SAVES := ["leaseNextQueueItem", "renewQueueLease", "bumpQueueItemPriority"]
  const FINISH_SAVES := ["markQueueItemDone", "deferQueueItem", "ignoreQueueItem"]
  const PACKET_SAVES := ["saveTaskWorkspaceSnapshot", "upsertAgentRun"]
  const REQUEST_SAVES := ["createContextRestoreRequest", "claimNextContextRestoreRequest",
                          "retryContextRestoreRequest"]
  const RESTORE_SAVES := ["markContextRestoreRequestDone", "markContextRestoreRequestFailed",
                          "recordWorkspaceRestoreReceipt"]
  const EVENT_SAVES := ["ingestEventAsReviewPacket", "recordEventRoute", "saveMcpPollState"]
  const MESSAGE_SAVES := ["recordTaskMessageAttempt", "finalizeTaskMessage"]
  const ACTION_SAVES := ["recordQueueActionAttempt", "markQueueActionTerminalSent", "markQueueActionCompleted"]
  const TERMINAL_SAVES := ["setTaskSessionTerminalRef", "clearTaskSessionTerminalRef"]
  const ONBOARDING_SAVES := ["recordOnboardingRejection", "clearOnboardingRejection", "recordOnboardingApprovalBatch"]
  const CELL_SAVES := ["setManualModeActive", "setCurrentTaskId"]
  const TASK_SAVES := ["createTask", "updateTaskLayout", "recordTaskPaperEmitted"]
  const DORMANCY_SAVES := ["markTaskDormant", "wakeTask"]
  const WINDOW_SAVES := ["recordWindowWorkspaceObservation", "deleteFollowsWindowExclusion"]
  const CLAIM_SAVES := ["claimTaskWindow", "pruneWindowWorkspaceObservations"]
  const TRIGGER_SAVES := ["createPaperTrigger", "updatePaperTrigger", "deletePaperTrigger"]
  const FIRING_SAVES := ["recordPaperTriggerFired", "tryRegisterPaperTriggerFiring"]
  const SAVED_METHODS := LEASE_SAVES + FINISH_SAVES + PACKET_SAVES + REQUEST_SAVES + RESTORE_SAVES + EVENT_SAVES +
                         MESSAGE_SAVES + ACTION_SAVES + TERMINAL_SAVES + ONBOARDING_SAVES + CELL_SAVES + TASK_SAVES +
                         DORMANCY_SAVES + WINDOW_SAVES + CLAIM_SAVES + TRIGGER_SAVES + FIRING_SAVES

  /** Its other methods. */
  const QUEUE_READS := ["listQueue", "nextQueueItem", "getLatestTaskWorkspaceSnapshot", "getReviewPacket",
                        "getAgentRun", "getEvent", "getEventByIdempotencyKey"]
  const CONTEXT_READS := ["listContextEntries", "peekNextContextRestoreRequest", "getContextRestoreRequest",
                          "getWorkspaceRestoreReceipt", "getMcpPollState"]
  const MESSAGE_READS := ["getTaskMessageByIdempotencyKey", "listTaskMessages", "getQueueActionAttempt",
                          "getTaskSessionTerminalRef", "listOnboardingRejections", "getOnboardingApprovalBatch"]
  const TASK_READS := ["getManualModeState", "getTask", "getTaskByAnchor", "getTasksByWorkspaceId", "listTasks",
                       "getTaskLayout", "getCurrentTaskState"]
  const WINDOW_READS := ["listFollowsWindows", "addFollowsWindowExclusion", "listFollowsWindowExclusions",
                         "listTaskWindowClaims", "listPaperTriggers", "getPaperTrigger"]
  const UNSAVED_METHODS := QUEUE_READS + CONTEXT_READS + MESSAGE_READS + TASK_READS + WINDOW_READS

  lemma Matches(k: nat, name: string)
    requires k < |PERSISTED_PREFIXES| && PERSISTED_PREFIXES[k] <= name
    ensures ShouldPersistAfter(name)
  {
  }

  lemma LeaseSavesMatch(name: string)
    requires name in LEASE_SAVES
    ensures ShouldPersistAfter(name)
  {
    Matches(0, "leaseNextQueueItem");
    Matches(1, "renewQueueLease");
    Matches(5, "bumpQueueItemPriority");
  }

  lemma FinishSavesMatch(name: string)
    requires name in FINISH_SAVES
    ensures ShouldPersistAfter(name)
  {
    Matches(2, "markQueueItemDone");
    Matches(3, "deferQueueItem");
    Matches(4, "ignoreQueueItem");
  }

  lemma PacketSavesMatch(name: string)
    requires name in PACKET_SAVES
    ensures ShouldPersistAfter(name)
  {
    Matches(6, "saveTaskWorkspaceSnapshot");
    Matches(17, "upsertAgentRun");
  }

  lemma RequestSavesMatch(name: string)
    requires name in REQUEST_SAVES
    ensures ShouldPersistAfter(name)
  {
    Matches(7, "createContextRestoreRequest");
    Matches(8, "claimNextContextRestoreRequest");
    Matches(16, "retryContextRestoreRequest");
  }

  lemma RestoreSavesMatch(name: string)
    requires name in RESTORE_SAVES
    ensures ShouldPersistAfter(name)
  {
    Matches(2, "markContextRestoreRequestDone");
    Matches(2, "markContextRestoreRequestFailed");
    Matches(10, "recordWorkspaceRestoreReceipt");
  }

  lemma EventSavesMatch(name: string)
    requires name in EVENT_SAVES
    ensures ShouldPersistAfter(name)
  {
    Matches(9, "ingestEventAsReviewPacket");
    Matches(10, "recordEventRoute");
    Matches(6, "saveMcpPollState");
  }

  lemma MessageSavesMatch(name: string)
    requires name in MESSAGE_SAVES
    ensures ShouldPersistAfter(name)
  {
    Matches(10, "recordTaskMessageAttempt");
    Matches(11, "finalizeTaskMessage");
  }

  lemma ActionSavesMatch(name: string)
    requires name in ACTION_SAVES
    ensures ShouldPersistAfter(name)
  {
    Matches(10, "recordQueueActionAttempt");
    Matches(2, "markQueueActionTerminalSent");
    Matches(2, "markQueueActionCompleted");
  }

  lemma TerminalSavesMatch(name: string)
    requires name in TERMINAL_SAVES
    ensures ShouldPersistAfter(name)
  {
    Matches(12, "setTaskSessionTerminalRef");
    Matches(13, "clearTaskSessionTerminalRef");
  }

  lemma OnboardingSavesMatch(name: string)
    requires name in ONBOARDING_SAVES
    ensures ShouldPersistAfter(name)
  {
    Matches(10, "recordOnboardingRejection");
    Matches(13, "clearOnboardingRejection");
    Matches(10, "recordOnboardingApprovalBatch");
  }

  lemma CellSavesMatch(name: string)
    requires name in CELL_SAVES
    ensures ShouldPersistAfter(name)
  {
    Matches(12, "setManualModeActive");
    Matches(12, "setCurrentTaskId");
  }

  lemma TaskSavesMatch(name: string)
    requires name in TASK_SAVES
    ensures ShouldPersistAfter(name)
  {
    Matches(7, "createTask");
    Matches(14, "updateTaskLayout");
    Matches(10, "recordTaskPaperEmitted");
  }

  lemma DormancySavesMatch(name: string)
    requires name in DORMANCY_SAVES
    ensures ShouldPersistAfter(name)
  {
    Matches(2, "markTaskDormant");
    Matches(19, "wakeTask");
  }

  lemma WindowSavesMatch(name: string)
    requires name in WINDOW_SAVES
    ensures ShouldPersistAfter(name)
  {
    Matches(10, "recordWindowWorkspaceObservation");
    Matches(15, "deleteFollowsWindowExclusion");
  }

  lemma ClaimSavesMatch(name: string)
    requires name in CLAIM_SAVES
    ensures ShouldPersistAfter(name)
  {
    Matches(8, "claimTaskWindow");
    Matches(20, "pruneWindowWorkspaceObservations");
  }

  lemma TriggerSavesMatch(name: string)
    requires name in TRIGGER_SAVES
    ensures ShouldPersistAfter(name)
  {
    Matches(7, "createPaperTrigger");
    Matches(14, "updatePaperTrigger");
    Matches(15, "deletePaperTrigger");
  }

  lemma FiringSavesMatch(name: string)
    requires name in FIRING_SAVES
    ensures ShouldPersistAfter(name)
  {
    Matches(10, "recordPaperTriggerFired");
    Matches(18, "tryRegisterPaperTriggerFiring");
  }

  lemma QueueReadsDoNotMatch(name: string)
    requires name in QUEUE_READS
    ensures !ShouldPersistAfter(name)
  {
    NotPersisted(name);
  }

  lemma ContextReadsDoNotMatch(name: string)
    requires name in CONTEXT_READS
    ensures !ShouldPersistAfter(name)
  {
    NotPersisted(name);
  }

  lemma MessageReadsDoNotMatch(name: string)
    requires name in MESSAGE_READS
    ensures !ShouldPersistAfter(name)
  {
    NotPersisted(name);
  }

  lemma TaskReadsDoNotMatch(name: string)
    requires name in TASK_READS
    ensures !ShouldPersistAfter(name)
  {
    NotPersisted(name);
  }

  lemma WindowReadsDoNotMatch(name: string)
    requires name in WINDOW_READS
    ensures !ShouldPersistAfter(name)
  {
    NotPersisted(name);
  }

  lemma SavedNamesMatch(name: string)
    requires name in SAVED_METHODS
    ensures ShouldPersistAfter(name)
  {
    if name in LEASE_SAVES {
      LeaseSavesMatch(name);
    } else if name in FINISH_SAVES {
      FinishSavesMatch(name);
    } else if name in PACKET_SAVES {
      PacketSavesMatch(name);
    } else if name in REQUEST_SAVES {
      RequestSavesMatch(name);
    } else if name in RESTORE_SAVES {
      RestoreSavesMatch(name);
    } else if name in EVENT_SAVES {
      EventSavesMatch(name);
    } else if name in MESSAGE_SAVES {
      MessageSavesMatch(name);
    } else if name in ACTION_SAVES {
      ActionSavesMatch(name);
    } else if name in TERMINAL_SAVES {
      TerminalSavesMatch(name);
    } else if name in ONBOARDING_SAVES {
      OnboardingSavesMatch(name);
    } else if name in CELL_SAVES {
      CellSavesMatch(name);
    } else if name in TASK_SAVES {
      TaskSavesMatch(name);
    } else if name in DORMANCY_SAVES {
      DormancySavesMatch(name);
    } else if name in WINDOW_SAVES {
      WindowSavesMatch(name);
    } else if name in CLAIM_SAVES {
      ClaimSavesMatch(name);
    } else if name in TRIGGER_SAVES {
      TriggerSavesMatch(name);
    } else {
      FiringSavesMatch(name);
    }
  }

  lemma UnsavedNamesDoNot(name: string)
    requires name in UNSAVED_METHODS
    ensures !ShouldPersistAfter(name)
  {
    if name in QUEUE_READS {
      QueueReadsDoNotMatch(name);
    } else if name in CONTEXT_READS {
      ContextReadsDoNotMatch(name);
    } else if name in MESSAGE_READS {
      MessageReadsDoNotMatch(name);
    } else if name in TASK_READS {
      TaskReadsDoNotMatch(name);
    } else {
      WindowReadsDoNotMatch(name);
    }
  }

  lemma EnqueueMeaning(s: State, name: string)
    requires s.history != []
    ensures Apply(s, Enqueue(name)) ==
            if ShouldPersistAfter(name) then s.(calls := s.calls + [Waiting(|s.history| - 1)]) else s
  {
  }

  lemma SavedCallWaits(s: State, name: string)
    requires s.history != [] && name in SAVED_METHODS
    ensures Apply(s, Enqueue(name)) == s.(calls := s.calls + [Waiting(|s.history| - 1)])
  {
    SavedNamesMatch(name);
    EnqueueMeaning(s, name);
  }

  lemma UnsavedCallDoesNot(s: State, name: string)
    requires s.history != [] && name in UNSAVED_METHODS
    ensures Apply(s, Enqueue(name)) == s
  {
    UnsavedNamesDoNot(name);
    EnqueueMeaning(s, name);
  }

  /** Of the methods of the gateway store exactly these ask for a save: one waiting call is
      added, whose changes are those in memory by now. The others leave the queue alone. */
  lemma CallsAskForSaves(s: State, name: string)
    requires s.history != [] && name in SAVED_METHODS + UNSAVED_METHODS
    ensures Apply(s, Enqueue(name)) ==
            if name in SAVED_METHODS then s.(calls := s.calls + [Waiting(|s.history| - 1)]) else s
  {
    if name in SAVED_METHODS {
      SavedCallWaits(s, name);
    } else {
      UnsavedCallDoesNot(s, name);
    }
  }

  lemma {:induction false} CallsKeepMarks(s: State, steps: seq<Step>, call: nat)
    requires s.history != [] && call < |s.calls|
    ensures var t := Run(s, steps);
            call < |t.calls| && t.calls[call].mark == s.calls[call].mark
  {
    if steps != [] {
      CallsKeepMarks(s, steps[..|steps| - 1], call);
      CallKeepsMark(Run(s, steps[..|steps| - 1]), steps[|steps| - 1], call);
    }
  }

  lemma CallKeepsMark(s: State, step: Step, call: nat)
    requires s.history != [] && call < |s.calls|
    ensures call < |Apply(s, step).calls| && Apply(s, step).calls[call].mark == s.calls[call].mark
  {
  }

  /** A call of one of these methods that has returned without an error has its changes behind
      the file: both looks were made when memory was as the call left it, or later. */
  lemma SavedCallIsDurable(memory: Memory, file: Option<Image>, before: seq<Step>, name: string, after: seq<Step>)
    requires name in SAVED_METHODS
    ensures var s := Run(Initial(memory, file), before);
            var t := Run(Initial(memory, file), before + [Enqueue(name)] + after);
            var call := |s.calls|;
            && s.history <= t.history && call < |t.calls| && t.calls[call].mark == |s.history| - 1
            && (t.calls[call].Returned? && t.calls[call].ok ==>
                  && t.file.Some? && t.stamp.Some? && |s.history| - 1 <= t.stamp.value.captured
                  && PrintedFrom(t.history, t.file.value, t.stamp.value))
  {
    var start := Initial(memory, file);
    var s, asked := Run(start, before), before + [Enqueue(name)];
    SavedCallWaits(s, name);
    RunAppend(start, before, [Enqueue(name)]);
    RunOne(s, Enqueue(name));
    RunAppend(start, asked, after);
    CallsKeepMarks(Run(start, asked), after, |s.calls|);
    var t := Run(start, asked + after);
    if t.calls[|s.calls|].Returned? && t.calls[|s.calls|].ok {
      Durability(memory, file, asked + after, |s.calls|);
    }
  }

  predicate Idle(s: State) {
    s.active.None? && s.begun == |s.calls|
  }

  /** With no save outstanding, methods that ask for none never touch the file, whatever they
      change. */
  lemma {:induction false} UnmatchedWaits(s: State, steps: seq<Step>)
    requires s.history != [] && Idle(s)
    requires forall step :: step in steps && step.Enqueue? ==> !ShouldPersistAfter(step.methodName)
    ensures var t := Run(s, steps);
            Idle(t) && t.file == s.file && t.stamp == s.stamp
  {
    if steps != [] {
      UnmatchedWaits(s, steps[..|steps| - 1]);
      assert steps[|steps| - 1] in steps;
    }
  }

  const UNMATCHED := ["addFollowsWindowExclusion", "listQueue", "nextQueueItem", "getReviewPacket",
                      "peekNextContextRestoreRequest"]

  /** Methods that change memory under a name no prefix matches: however often they are called
      and whatever they change, the file stays as it is until a matching method is called; and
      the next save after that writes their changes as well. */
  lemma UnmatchedMethods(s: State, steps: seq<Step>, name: string)
    requires s.history != [] && Idle(s) && ShouldPersistAfter(name)
    requires forall step :: step in steps && step.Enqueue? ==> step.methodName in UNMATCHED
    ensures var t := Run(s, steps);
            && t.file == s.file
            && Run(Apply(t, Enqueue(name)), SAVE_STEPS).file == Some(Snapshot(t.history[t.Now()]))
  {
    UnmatchedNames();
    UnmatchedWaits(s, steps);
    SaveAfter(Run(s, steps), name);
  }

  lemma UnmatchedNames()
    ensures forall name :: name in UNMATCHED ==> !ShouldPersistAfter(name)
  {
    forall name | name in UNMATCHED
      ensures !ShouldPersistAfter(name)
    {
      NotPersisted(name);
    }
  }

  lemma SaveAfter(s: State, name: string)
    requires s.history != [] && Idle(s) && ShouldPersistAfter(name)
    ensures Run(Apply(s, Enqueue(name)), SAVE_STEPS).file == Some(Snapshot(s.history[s.Now()]))
  {
    var asked := s.(calls := s.calls + [Waiting(s.Now())]);
    assert Apply(s, Enqueue(name)) == asked;
    SaveNext(asked);
  }
}
