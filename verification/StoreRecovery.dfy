/** Starting again after a crash: the state file that `StorePersistence` left behind, read as
    `StoreImage` reads it (`loadOrCreatePersistentInMemoryStore` in
    app/orchestrator/src/persistent_in_memory_gateway_store.ts). */
module StoreRecovery {
  import opened JsMap
  import opened Prelude
  import P = StorePersistence
  import I = StoreImage

  /** A value, by the text it prints to. */
  type Text = string
  type Store = I.Store<Text>

  /** The texts of the items of an array, given the text of the array. */
  type Items = Text -> seq<Text>

  // ---------------------------------------------------------------- memory and file as stores

  /** What is undefined prints to nothing. */
  function Cell(text: Text): Option<Text> {
    if text == "" then None else Some(text)
  }

  /** The properties of an object, written in this order. */
  function Properties<V>(entries: Entries<V>): map<string, V> {
    if entries == [] then map[]
    else Properties(entries[..|entries| - 1])[entries[|entries| - 1].0 := entries[|entries| - 1].1]
  }

  /** The queue, the two cells, and some of the known maps, the required ones among them. */
  ghost predicate Shaped(roots: seq<P.Ref>, maps: P.Maps) {
    && |roots| == 3
    && DistinctKeys(maps)
    && (forall i :: 0 <= i < |maps| ==> maps[i].0 in I.MAP_KEYS && DistinctKeys(maps[i].1))
    && forall name :: name in I.REQUIRED_MAPS ==> exists i :: 0 <= i < |maps| && maps[i].0 == name
  }

  ghost predicate IsStore(memory: P.Memory) {
    Shaped(memory.roots, memory.maps)
  }

  /** The store that memory is. */
  function StoreOf(items: Items, memory: P.Memory): Store
    requires |memory.roots| == 3
  {
    I.Store(items(P.Read(memory.heap, memory.roots[0])),
            Cell(P.Read(memory.heap, memory.roots[1])),
            Cell(P.Read(memory.heap, memory.roots[2])),
            Properties(P.ReadMaps(memory.maps, memory.heap)))
  }

  /** The file as it is parsed. */
  function Parsed(items: Items, image: P.Image): I.Serialized<Text>
    requires |image.roots| == 3
  {
    I.Serialized(1, Some(items(image.roots[0])), Cell(image.roots[1]), Cell(image.roots[2]), Properties(image.maps))
  }

  /** A missing file gives the fallback. */
  function LoadOrCreate(items: Items, file: Option<P.Image>, fallback: Store): Store
    requires file.Some? ==> |file.value.roots| == 3
  {
    if file.None? then fallback else I.Deserialize(Parsed(items, file.value))
  }

  /** Roots and entry lists of the one, the objects as they are in the other. */
  function Mixed(first: P.Memory, second: P.Memory): P.Memory {
    P.Memory(first.roots, first.maps, second.heap)
  }

  // ---------------------------------------------------------------- loading inverts printing

  lemma {:induction false} PropertiesAre<V>(entries: Entries<V>)
    requires DistinctKeys(entries)
    ensures Properties(entries).Keys == Keys(entries)
    ensures forall i :: 0 <= i < |entries| ==> Properties(entries)[entries[i].0] == entries[i].1
  {
    if entries != [] {
      PropertiesAre(entries[..|entries| - 1]);
    }
  }

  lemma {:induction false} RootsAt(roots: seq<P.Ref>, heap: map<P.Ref, P.Text>)
    ensures |P.ReadRoots(roots, heap)| == |roots|
    ensures forall i :: 0 <= i < |roots| ==> P.ReadRoots(roots, heap)[i] == P.Read(heap, roots[i])
  {
    if roots != [] {
      RootsAt(roots[1..], heap);
    }
  }

  lemma {:induction false} EntriesRead(entries: seq<P.Entry>, heap: map<P.Ref, P.Text>)
    ensures |P.ReadEntries(entries, heap)| == |entries|
    ensures forall i :: 0 <= i < |entries| ==>
              P.ReadEntries(entries, heap)[i] == (entries[i].0, P.Read(heap, entries[i].1))
  {
    if entries != [] {
      EntriesRead(entries[1..], heap);
    }
  }

  lemma {:induction false} MapsRead(maps: P.Maps, heap: map<P.Ref, P.Text>)
    ensures |P.ReadMaps(maps, heap)| == |maps|
    ensures forall i :: 0 <= i < |maps| ==>
              P.ReadMaps(maps, heap)[i] == (maps[i].0, P.ReadEntries(maps[i].1, heap))
  {
    if maps != [] {
      MapsRead(maps[1..], heap);
    }
  }

  lemma KeysStayDistinct(entries: seq<P.Entry>, heap: map<P.Ref, P.Text>)
    requires DistinctKeys(entries)
    ensures DistinctKeys(P.ReadEntries(entries, heap))
  {
    EntriesRead(entries, heap);
  }

  lemma MapOfStore(items: Items, memory: P.Memory, i: nat)
    requires IsStore(memory) && i < |memory.maps|
    ensures var (name, entries) := memory.maps[i];
            && name in StoreOf(items, memory).maps
            && StoreOf(items, memory).maps[name] == P.ReadEntries(entries, memory.heap)
  {
    MapsRead(memory.maps, memory.heap);
    PropertiesAre(P.ReadMaps(memory.maps, memory.heap));
    assert P.ReadMaps(memory.maps, memory.heap)[i].0 in Keys(P.ReadMaps(memory.maps, memory.heap));
  }

  lemma NamesOfStore(items: Items, memory: P.Memory, name: string)
    requires IsStore(memory) && name in StoreOf(items, memory).maps
    ensures exists i :: 0 <= i < |memory.maps| && memory.maps[i].0 == name
  {
    MapsRead(memory.maps, memory.heap);
    PropertiesAre(P.ReadMaps(memory.maps, memory.heap));
  }

  lemma StoreIsValid(items: Items, memory: P.Memory)
    requires IsStore(memory)
    ensures I.Valid(StoreOf(items, memory))
  {
    var store := StoreOf(items, memory);
    forall name | name in store.maps
      ensures name in I.MAP_KEYS && DistinctKeys(store.maps[name])
    {
      NamesOfStore(items, memory, name);
      var i :| 0 <= i < |memory.maps| && memory.maps[i].0 == name;
      MapOfStore(items, memory, i);
      KeysStayDistinct(memory.maps[i].1, memory.heap);
    }
    forall name | name in I.REQUIRED_MAPS
      ensures name in store.maps
    {
      var i :| 0 <= i < |memory.maps| && memory.maps[i].0 == name;
      MapOfStore(items, memory, i);
    }
  }

  /** What one print of memory holds is what the store that memory is would be written as. */
  lemma PrintedIsSerialized(items: Items, memory: P.Memory)
    requires IsStore(memory)
    ensures |P.Snapshot(memory).roots| == 3
    ensures Parsed(items, P.Snapshot(memory)) == I.Serialize(StoreOf(items, memory))
  {
    RootsAt(memory.roots, memory.heap);
    StoreIsValid(items, memory);
    PickAll(StoreOf(items, memory).maps, I.MAP_KEYS);
  }

  lemma PickAll(maps: map<string, Entries<Text>>, keys: seq<string>)
    requires forall key :: key in maps ==> key in keys
    ensures I.Pick(maps, keys) == maps
  {
  }

  lemma LoadedIsStore(items: Items, memory: P.Memory, fallback: Store)
    requires IsStore(memory)
    ensures |P.Snapshot(memory).roots| == 3
    ensures LoadOrCreate(items, Some(P.Snapshot(memory)), fallback) == StoreOf(items, memory)
  {
    PrintedIsSerialized(items, memory);
    StoreIsValid(items, memory);
    I.RoundTrip(StoreOf(items, memory));
  }

  // ---------------------------------------------------------------- after a crash

  /** What memory holds is a store at every instant. */
  ghost predicate AlwaysStore(memory: P.Memory, steps: seq<P.Step>) {
    IsStore(memory) && forall step :: step in steps && step.Change? ==> IsStore(step.memory)
  }

  lemma {:induction false} HistoryOfStores(memory: P.Memory, file: Option<P.Image>, steps: seq<P.Step>)
    requires AlwaysStore(memory, steps)
    ensures forall m :: 0 <= m < |P.Run(P.Initial(memory, file), steps).history| ==>
              IsStore(P.Run(P.Initial(memory, file), steps).history[m])
  {
    if steps != [] {
      var before, last := steps[..|steps| - 1], steps[|steps| - 1];
      HistoryOfStores(memory, file, before);
      HistoryMoves(P.Run(P.Initial(memory, file), before), last);
    }
  }

  lemma HistoryMoves(s: P.State, step: P.Step)
    requires s.history != []
    ensures P.Apply(s, step).history == if step.Change? then s.history + [step.memory] else s.history
  {
  }

  /** Loading after a crash at any instant of any run at which a save has landed, torn file or
      not: the store loaded has the roots and maps of the first look and the objects of the
      second, and every call that has returned without an error was done before both. */
  lemma RecoveredStore(items: Items, memory: P.Memory, file: Option<P.Image>, steps: seq<P.Step>, fallback: Store)
    requires AlwaysStore(memory, steps) && P.Run(P.Initial(memory, file), steps).stamp.Some?
    ensures var s := P.Run(P.Initial(memory, file), steps);
            var (first, second) := (s.stamp.value.captured, s.stamp.value.printed);
            && first <= second < |s.history| && s.file.Some? && |s.file.value.roots| == 3
            && IsStore(s.history[first])
            && LoadOrCreate(items, s.file, fallback) == StoreOf(items, Mixed(s.history[first], s.history[second]))
            && forall call :: 0 <= call < |s.calls| && s.calls[call].Returned? && s.calls[call].ok ==>
                 s.calls[call].mark <= first
  {
    P.InitialInv(memory, file);
    P.InvRun(P.Initial(memory, file), steps);
    HistoryOfStores(memory, file, steps);
    var s := P.Run(P.Initial(memory, file), steps);
    LoadedIsStore(items, Mixed(s.history[s.stamp.value.captured], s.history[s.stamp.value.printed]), fallback);
  }

  /** Where nothing has changed since a call that returned without an error, loading gives the
      store that memory was when the crash came. */
  lemma QuietCrashLosesNothing(items: Items, memory: P.Memory, file: Option<P.Image>, steps: seq<P.Step>,
                               fallback: Store, call: nat)
    requires AlwaysStore(memory, steps)
    requires var s := P.Run(P.Initial(memory, file), steps);
             call < |s.calls| && s.calls[call].Returned? && s.calls[call].ok && s.calls[call].mark == s.Now()
    ensures var s := P.Run(P.Initial(memory, file), steps);
            && s.file.Some? && |s.file.value.roots| == 3 && IsStore(s.history[s.Now()])
            && LoadOrCreate(items, s.file, fallback) == StoreOf(items, s.history[s.Now()])
  {
    P.QuietFileIsMemory(memory, file, steps, call);
    HistoryOfStores(memory, file, steps);
    var s := P.Run(P.Initial(memory, file), steps);
    LoadedIsStore(items, s.history[s.Now()], fallback);
  }

  /** Something a store can hold, and the object that holds it. */
  datatype Fact =
    | Record(mapName: string, key: string, ref: P.Ref, text: Text)
    | Queued(ref: P.Ref, item: Text)
    | ManualMode(ref: P.Ref, text: Text)
    | CurrentTask(ref: P.Ref, text: Text)

  ghost predicate Holds(items: Items, memory: P.Memory, fact: Fact)
    requires |memory.roots| == 3
  {
    match fact
    case Record(mapName, key, ref, text) =>
      && (exists i :: 0 <= i < |memory.maps| && memory.maps[i].0 == mapName && (key, ref) in memory.maps[i].1)
      && P.Read(memory.heap, ref) == text
    case Queued(ref, item) => memory.roots[0] == ref && item in items(P.Read(memory.heap, ref))
    case ManualMode(ref, text) => memory.roots[1] == ref && P.Read(memory.heap, ref) == text
    case CurrentTask(ref, text) => memory.roots[2] == ref && P.Read(memory.heap, ref) == text
  }

  predicate Shows(store: Store, fact: Fact) {
    match fact
    case Record(mapName, key, _, text) => mapName in store.maps && (key, text) in store.maps[mapName]
    case Queued(_, item) => item in store.queue
    case ManualMode(_, text) => store.manualModeState == if text == "" then None else Some(text)
    case CurrentTask(_, text) => store.currentTaskState == if text == "" then None else Some(text)
  }

  lemma HeldIsShown(items: Items, memory: P.Memory, fact: Fact)
    requires IsStore(memory) && Holds(items, memory, fact)
    ensures Shows(StoreOf(items, memory), fact)
  {
    if fact.Record? {
      var i :| 0 <= i < |memory.maps| && memory.maps[i].0 == fact.mapName && (fact.key, fact.ref) in memory.maps[i].1;
      var entries := memory.maps[i].1;
      var j :| 0 <= j < |entries| && entries[j] == (fact.key, fact.ref);
      MapOfStore(items, memory, i);
      EntriesRead(entries, memory.heap);
      assert P.ReadEntries(entries, memory.heap)[j] == (fact.key, fact.text);
    }
  }

  /** What memory has held since a call was done that then returned without an error, by the
      same object and with the same text, is in the store loaded after a crash at any later
      instant, however many other changes and saves were under way. */
  lemma LastingFactsSurvive(items: Items, memory: P.Memory, file: Option<P.Image>, steps: seq<P.Step>,
                            fallback: Store, call: nat, fact: Fact)
    requires AlwaysStore(memory, steps)
    requires var s := P.Run(P.Initial(memory, file), steps);
             && call < |s.calls| && s.calls[call].Returned? && s.calls[call].ok
             && forall m :: s.calls[call].mark <= m < |s.history| ==>
                  |s.history[m].roots| == 3 && Holds(items, s.history[m], fact)
    ensures var s := P.Run(P.Initial(memory, file), steps);
            && s.file.Some? && |s.file.value.roots| == 3
            && Shows(LoadOrCreate(items, s.file, fallback), fact)
  {
    P.Durability(memory, file, steps, call);
    RecoveredStore(items, memory, file, steps, fallback);
    var s := P.Run(P.Initial(memory, file), steps);
    HeldByBoth(items, s.history[s.stamp.value.captured], s.history[s.stamp.value.printed], fact);
    HeldIsShown(items, Mixed(s.history[s.stamp.value.captured], s.history[s.stamp.value.printed]), fact);
  }

  /** So what a saving method of the gateway store leaves in memory, and nothing changes since, is
      not lost: once the call has returned without an error, every later crash finds it in the
      store that is loaded. */
  lemma SavedCallSurvives(items: Items, memory: P.Memory, file: Option<P.Image>, before: seq<P.Step>, name: string,
                          after: seq<P.Step>, fallback: Store, fact: Fact)
    requires name in P.SAVED_METHODS && AlwaysStore(memory, before + [P.Enqueue(name)] + after)
    requires var s := P.Run(P.Initial(memory, file), before);
             var t := P.Run(P.Initial(memory, file), before + [P.Enqueue(name)] + after);
             && |s.calls| < |t.calls| && t.calls[|s.calls|].Returned? && t.calls[|s.calls|].ok
             && forall m :: |s.history| - 1 <= m < |t.history| ==>
                  |t.history[m].roots| == 3 && Holds(items, t.history[m], fact)
    ensures var t := P.Run(P.Initial(memory, file), before + [P.Enqueue(name)] + after);
            && t.file.Some? && |t.file.value.roots| == 3
            && Shows(LoadOrCreate(items, t.file, fallback), fact)
  {
    P.SavedCallIsDurable(memory, file, before, name, after);
    var call := |P.Run(P.Initial(memory, file), before).calls|;
    LastingFactsSurvive(items, memory, file, before + [P.Enqueue(name)] + after, fallback, call, fact);
  }

  lemma HeldByBoth(items: Items, first: P.Memory, second: P.Memory, fact: Fact)
    requires |first.roots| == 3 && |second.roots| == 3
    requires Holds(items, first, fact) && Holds(items, second, fact)
    ensures Holds(items, Mixed(first, second), fact)
  {
  }
}
