/** What goes into a state file and what comes back out of it
    (`serializeStore` and `deserializeStore` in
    app/orchestrator/src/persistent_in_memory_gateway_store.ts). Values are JSON data, which
    printing and parsing leave alone. */
module StoreImage {
  import opened JsMap
  import opened Prelude

  const REQUIRED_MAPS := ["reviewPackets", "eventsByIdempotencyKey", "eventsById", "contextRestoreRequests",
                          "contextRestoreRequestIdsByIdempotencyKey"]

  const OPTIONAL_MAPS := ["agentRuns", "workspaceRestoreReceipts", "mcpPollStates", "taskMessagesByIdempotencyKey",
                          "taskWorkspaceSnapshots", "queueActionAttempts", "taskSessionTerminalRefs",
                          "onboardingRejections", "onboardingApprovalBatches", "tasks", "taskLayouts",
                          "windowWorkspaceObservations", "followsWindowExclusions", "taskWindowClaims",
                          "paperTriggers", "paperTriggerFirings"]

  const MAP_KEYS := REQUIRED_MAPS + OPTIONAL_MAPS

  /** The maps of the store type. */
  const STORE_MAPS := ["reviewPackets", "eventsByIdempotencyKey", "eventsById", "contextRestoreRequests",
                       "contextRestoreRequestIdsByIdempotencyKey", "agentRuns", "workspaceRestoreReceipts",
                       "mcpPollStates", "taskMessagesByIdempotencyKey", "taskWorkspaceSnapshots",
                       "queueActionAttempts", "taskSessionTerminalRefs", "onboardingRejections",
                       "onboardingApprovalBatches", "tasks", "taskLayouts", "windowWorkspaceObservations",
                       "followsWindowExclusions", "taskWindowClaims", "paperTriggers", "paperTriggerFirings"]

  /** The optional maps that opening a gateway on a store creates when they are absent. */
  const GATEWAY_MAPS := {"workspaceRestoreReceipts", "mcpPollStates", "taskMessagesByIdempotencyKey",
                         "taskWorkspaceSnapshots", "queueActionAttempts", "taskSessionTerminalRefs",
                         "onboardingRejections", "onboardingApprovalBatches", "tasks", "taskLayouts",
                         "followsWindowExclusions"}

  datatype Store<V> = Store(
    queue: seq<V>,
    manualModeState: Option<V>,
    currentTaskState: Option<V>,
    maps: map<string, Entries<V>>)

  datatype Serialized<V> = Serialized(
    schemaVersion: int,
    queue: Option<seq<V>>,
    manualModeState: Option<V>,
    currentTaskState: Option<V>,
    maps: map<string, Entries<V>>)

  ghost predicate Valid<V>(store: Store<V>) {
    && (forall key :: key in REQUIRED_MAPS ==> key in store.maps)
    && (forall key :: key in store.maps ==> key in MAP_KEYS && DistinctKeys(store.maps[key]))
  }

  /** The maps named in `keys`. */
  function Pick<V>(maps: map<string, Entries<V>>, keys: seq<string>): map<string, Entries<V>> {
    map key | key in maps && key in keys :: maps[key]
  }

  /** The maps a file brings back: the required ones, and those of `keys` that it holds. */
  function Load<V>(saved: map<string, Entries<V>>, required: seq<string>, keys: seq<string>): map<string, Entries<V>> {
    map key | key in required + keys && (key in required || key in saved) :: NewMap(EntriesAt(saved, key))
  }

  function Serialize<V>(store: Store<V>): Serialized<V> {
    Serialized(1, Some(store.queue), store.manualModeState, store.currentTaskState, Pick(store.maps, MAP_KEYS))
  }

  function EntriesAt<V>(saved: map<string, Entries<V>>, key: string): Entries<V> {
    if key in saved then saved[key] else []
  }

  function Deserialize<V>(image: Serialized<V>): Store<V> {
    Store(if image.queue.Some? then image.queue.value else [],
          image.manualModeState, image.currentTaskState, Load(image.maps, REQUIRED_MAPS, MAP_KEYS))
  }

  /** Opening a gateway: its own maps and cells come into being if they are absent. */
  function Open<V>(store: Store<V>, noManualMode: V, noTask: V): Store<V> {
    Store(store.queue,
          if store.manualModeState.Some? then store.manualModeState else Some(noManualMode),
          if store.currentTaskState.Some? then store.currentTaskState else Some(noTask),
          map key | key in store.maps.Keys + GATEWAY_MAPS :: if key in store.maps then store.maps[key] else [])
  }

  // ---------------------------------------------------------------- the loops

  method SerializeStore<V>(store: Store<V>) returns (image: Serialized<V>)
    ensures image == Serialize(store)
  {
    var maps := SerializeMaps(store.maps, MAP_KEYS);
    image := Serialized(1, Some(store.queue), store.manualModeState, store.currentTaskState, maps);
  }

  method SerializeMaps<V>(given: map<string, Entries<V>>, keys: seq<string>) returns (maps: map<string, Entries<V>>)
    ensures maps == Pick(given, keys)
  {
    maps := map[];
    for i := 0 to |keys|
      invariant forall key :: key in maps <==> key in given && key in keys[..i]
      invariant forall key :: key in maps ==> maps[key] == given[key]
    {
      if keys[i] in given {
        maps := maps[keys[i] := given[keys[i]]];
      }
    }
  }

  method MapFromSerialized<V>(entries: Entries<V>) returns (m: Entries<V>)
    ensures m == NewMap(entries)
  {
    m := [];
    for i := 0 to |entries|
      invariant m == NewMap(entries[..i])
    {
      assert entries[..i + 1][..i] == entries[..i];
      m := Set(m, entries[i].0, entries[i].1);
    }
    assert entries[..|entries|] == entries;
  }

  method DeserializeStore<V>(image: Serialized<V>) returns (store: Store<V>)
    ensures store == Deserialize(image)
  {
    var maps := DeserializeMaps(image.maps, REQUIRED_MAPS, MAP_KEYS);
    store := Store(if image.queue.Some? then image.queue.value else [],
                   image.manualModeState, image.currentTaskState, maps);
  }

  method DeserializeMaps<V>(saved: map<string, Entries<V>>, required: seq<string>, keys: seq<string>)
    returns (maps: map<string, Entries<V>>)
    ensures maps == Load(saved, required, keys)
  {
    maps := map key | key in required :: NewMap(EntriesAt(saved, key));
    for i := 0 to |keys|
      invariant forall key :: key in maps <==> key in required || (key in keys[..i] && key in saved)
      invariant forall key :: key in maps ==> maps[key] == NewMap(EntriesAt(saved, key))
    {
      if keys[i] !in maps && keys[i] in saved {
        var m := MapFromSerialized(saved[keys[i]]);
        maps := maps[keys[i] := m];
      }
    }
    SameMaps(maps, Load(saved, required, keys));
  }

  lemma SameMaps<V>(a: map<string, V>, b: map<string, V>)
    requires forall key :: key in a <==> key in b
    requires forall key :: key in a ==> a[key] == b[key]
    ensures a == b
  {
  }

  // ---------------------------------------------------------------- round trips

  lemma LoadPicked<V>(maps: map<string, Entries<V>>, required: seq<string>, keys: seq<string>)
    requires forall key :: key in required ==> key in maps
    requires forall key :: key in maps ==> key in keys && DistinctKeys(maps[key])
    ensures Load(Pick(maps, keys), required, keys) == maps
  {
    var back := Load(Pick(maps, keys), required, keys);
    forall key | key in maps
      ensures key in back && back[key] == maps[key]
    {
      NewMapKeeps(maps[key]);
    }
    SameMaps(back, maps);
  }

  /** Saving and loading gives the store back: queue, cells, and every map with its keys,
      values and insertion order; an absent optional map stays absent. */
  lemma RoundTrip<V>(store: Store<V>)
    requires Valid(store)
    ensures Deserialize(Serialize(store)) == store
  {
    LoadPicked(store.maps, REQUIRED_MAPS, MAP_KEYS);
  }

  lemma LoadedMaps<V>(saved: map<string, Entries<V>>, required: seq<string>, keys: seq<string>)
    ensures var maps := Load(saved, required, keys);
            && (forall key :: key in required ==> key in maps)
            && forall key :: key in maps ==> key in required + keys && DistinctKeys(maps[key])
  {
    forall key | key in Load(saved, required, keys)
      ensures DistinctKeys(Load(saved, required, keys)[key])
    {
      NewMapIsMap(EntriesAt(saved, key));
    }
  }

  /** Loading any file gives a store that survives every further save and load, even a file
      with repeated keys, missing maps, or maps of other names. */
  lemma LoadIsStable<V>(image: Serialized<V>)
    ensures Valid(Deserialize(image))
    ensures Deserialize(Serialize(Deserialize(image))) == Deserialize(image)
  {
    LoadedMaps(image.maps, REQUIRED_MAPS, MAP_KEYS);
    RoundTrip(Deserialize(image));
  }

  /** Restarting is invisible to a gateway: opening a loaded store and opening the store that
      was saved give the same, and what the gateway adds is exactly its own absent maps, empty,
      and its absent cells. */
  lemma ReopenIsInvisible<V>(store: Store<V>, noManualMode: V, noTask: V)
    requires Valid(store)
    ensures var open := Open(store, noManualMode, noTask);
            && Valid(open)
            && Open(Deserialize(Serialize(store)), noManualMode, noTask) == open
            && Open(Deserialize(Serialize(open)), noManualMode, noTask) == open
            && open.maps.Keys == store.maps.Keys + GATEWAY_MAPS
            && forall key :: key in open.maps ==> open.maps[key] == if key in store.maps then store.maps[key] else []
  {
    OpenIsValid(store, noManualMode, noTask);
    var open := Open(store, noManualMode, noTask);
    RoundTrip(store);
    RoundTrip(open);
    SameMaps(Open(open, noManualMode, noTask).maps, open.maps);
  }

  /** Every map of the store type is saved where it exists, and comes back; the first five exist
      after loading any file. */
  lemma EveryMapIsSaved<V>(store: Store<V>, image: Serialized<V>, name: string)
    requires Valid(store) && name in STORE_MAPS
    ensures name in store.maps ==>
              && name in Serialize(store).maps && Serialize(store).maps[name] == store.maps[name]
              && name in Deserialize(Serialize(store)).maps
              && Deserialize(Serialize(store)).maps[name] == store.maps[name]
    ensures name in STORE_MAPS[..5] ==> name in Deserialize(image).maps
  {
    StoreMapsAreKeys(name);
    RoundTrip(store);
  }

  lemma StoreMapsAreKeys(name: string)
    requires name in STORE_MAPS
    ensures name in MAP_KEYS && (name in STORE_MAPS[..5] ==> name in REQUIRED_MAPS)
  {
  }

  /** Opening gives a store with both cells, those it had, else the given ones, and with the maps
      the gateway works on. */
  lemma OpenGives<V>(store: Store<V>, noManualMode: V, noTask: V, name: string)
    requires name in ["workspaceRestoreReceipts", "mcpPollStates", "taskMessagesByIdempotencyKey",
                      "taskWorkspaceSnapshots", "queueActionAttempts", "taskSessionTerminalRefs",
                      "onboardingRejections", "onboardingApprovalBatches", "tasks", "taskLayouts",
                      "followsWindowExclusions"]
    ensures var open := Open(store, noManualMode, noTask);
            && open.queue == store.queue
            && open.manualModeState == Some(if store.manualModeState == None then noManualMode
                                            else store.manualModeState.value)
            && open.currentTaskState == Some(if store.currentTaskState == None then noTask
                                             else store.currentTaskState.value)
            && name in open.maps
  {
  }

  lemma OpenIsValid<V>(store: Store<V>, noManualMode: V, noTask: V)
    requires Valid(store)
    ensures Valid(Open(store, noManualMode, noTask))
  {
  }
}
