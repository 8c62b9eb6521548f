/** Review packets are enriched with the task's last workspace and its browser tabs, and the
    result is written back (`enrichReviewPacketWithTaskWorkspaceSnapshot` in
    app/orchestrator/src/gateway_store.ts). */
module PacketEnrichment {
  import opened Prelude

  /** A context resource: `snapshot` says whether it carries one, `body` is everything else. */
  datatype Resource = Resource(id: string, kind: string, snapshot: bool, body: int)

  datatype Packet = Packet(taskId: string, context: seq<Resource>)

  /** What the store answers for a task, fixed while it does not change: the resource made
      from its newest snapshot, and one candidate per context entry; an entry that is no
      browser tab gives none. */
  datatype Answers = Answers(snapshot: Option<Resource>, entries: seq<Option<Resource>>)

  const BROWSER_LIMIT := 5

  function Ids(context: seq<Resource>): set<string> {
    set i | 0 <= i < |context| :: context[i].id
  }

  predicate HasWorkspaceSnapshot(context: seq<Resource>) {
    exists i :: 0 <= i < |context| && context[i].kind == "workspace_snapshot" && context[i].snapshot
  }

  /** The browser tabs whose ids are not in `known`, repeats included. */
  function Fresh(entries: seq<Option<Resource>>, known: set<string>): (r: seq<Resource>)
    ensures |r| <= |entries|
  {
    if entries == [] then []
    else if entries[0].Some? && entries[0].value.id !in known
    then [entries[0].value] + Fresh(entries[1..], known)
    else Fresh(entries[1..], known)
  }

  function Take<T>(s: seq<T>, n: nat): seq<T> {
    if |s| <= n then s else s[..n]
  }

  /** The first of each id that is not in `seen`. */
  function Unique(additions: seq<Resource>, seen: set<string>): (r: seq<Resource>)
    ensures |r| <= |additions|
  {
    if additions == [] then []
    else if additions[0].id in seen then Unique(additions[1..], seen)
    else [additions[0]] + Unique(additions[1..], seen + {additions[0].id})
  }

  function SnapshotAddition(packet: Packet, answers: Answers): seq<Resource> {
    if answers.snapshot.Some? && !HasWorkspaceSnapshot(packet.context) then [answers.snapshot.value] else []
  }

  function Additions(packet: Packet, answers: Answers): seq<Resource> {
    SnapshotAddition(packet, answers) + Take(Fresh(answers.entries, Ids(packet.context)), BROWSER_LIMIT)
  }

  function Enrich(packet: Packet, answers: Answers): Packet {
    if packet.taskId == "" then packet
    else packet.(context := packet.context + Unique(Additions(packet, answers), Ids(packet.context)))
  }

  lemma UniqueNext(unique: seq<Resource>, additions: seq<Resource>, i: nat, seen: set<string>)
    requires i < |additions|
    ensures unique + Unique(additions[i..], seen) ==
            if additions[i].id in seen then unique + Unique(additions[i + 1..], seen)
            else (unique + [additions[i]]) + Unique(additions[i + 1..], seen + {additions[i].id})
  {
    assert additions[i..][1..] == additions[i + 1..];
    Assoc(unique, [additions[i]], Unique(additions[i + 1..], seen + {additions[i].id}));
  }

  /** The additions filtered by a set of the ids seen so far. */
  method UniqueAdditions(additions: seq<Resource>, known: set<string>) returns (unique: seq<Resource>)
    ensures unique == Unique(additions, known)
  {
    var seen := known;
    unique := [];
    for i := 0 to |additions|
      invariant unique + Unique(additions[i..], seen) == Unique(additions, known)
    {
      UniqueNext(unique, additions, i, seen);
      if additions[i].id !in seen {
        unique := unique + [additions[i]];
        seen := seen + {additions[i].id};
      }
    }
  }

  method EnrichReviewPacket(packet: Packet, answers: Answers) returns (r: Packet)
    ensures r == Enrich(packet, answers)
  {
    if packet.taskId == "" {
      return packet;
    }
    var additions := SnapshotAddition(packet, answers);
    additions := additions + Take(Fresh(answers.entries, Ids(packet.context)), BROWSER_LIMIT);
    if additions == [] {
      assert packet.context + [] == packet.context;
      return packet;
    }
    var unique := UniqueAdditions(additions, Ids(packet.context));
    if unique == [] {
      assert packet.context + [] == packet.context;
      return packet;
    }
    r := packet.(context := packet.context + unique);
  }

  // ---------------------------------------------------------------- one pass

  lemma {:induction false} UniqueMeaning(additions: seq<Resource>, seen: set<string>)
    ensures var r := Unique(additions, seen);
            && (forall i :: 0 <= i < |r| ==> r[i].id !in seen && r[i] in additions)
            && (forall i, j :: 0 <= i < j < |r| ==> r[i].id != r[j].id)
            && Ids(r) + seen == Ids(additions) + seen
  {
    if additions != [] {
      var first := additions[0].id;
      IdsOfCons(additions);
      if first in seen {
        UniqueMeaning(additions[1..], seen);
      } else {
        UniqueMeaning(additions[1..], seen + {first});
        var r := Unique(additions, seen);
        assert r[1..] == Unique(additions[1..], seen + {first});
        IdsOfCons(r);
      }
    }
  }

  lemma IdsOfCons(s: seq<Resource>)
    requires s != []
    ensures Ids(s) == {s[0].id} + Ids(s[1..])
  {
  }

  lemma IdsOfAppend(a: seq<Resource>, b: seq<Resource>)
    ensures Ids(a + b) == Ids(a) + Ids(b)
  {
    forall id | id in Ids(a + b)
      ensures id in Ids(a) + Ids(b)
    {
      var i :| 0 <= i < |a + b| && (a + b)[i].id == id;
      assert if i < |a| then a[i].id == id else b[i - |a|].id == id;
    }
    forall id | id in Ids(a) + Ids(b)
      ensures id in Ids(a + b)
    {
      if id in Ids(a) {
        var i :| 0 <= i < |a| && a[i].id == id;
        assert (a + b)[i].id == id;
      } else {
        var i :| 0 <= i < |b| && b[i].id == id;
        assert (a + b)[|a| + i].id == id;
      }
    }
  }

  /** A pass keeps the old context in front and adds at most six resources, with ids that are
      new and pairwise distinct. */
  lemma PassIsSmall(packet: Packet, answers: Answers)
    ensures var before := packet.context;
            var after := Enrich(packet, answers).context;
            && before <= after && |after| <= |before| + 1 + BROWSER_LIMIT
            && Enrich(packet, answers).taskId == packet.taskId
            && (forall i :: |before| <= i < |after| ==> after[i].id !in Ids(before))
            && (forall i, j :: |before| <= i < j < |after| ==> after[i].id != after[j].id)
  {
    UniqueMeaning(Additions(packet, answers), Ids(packet.context));
  }

  /** The entries that are browser tabs not in the context yet. */
  predicate IsOpen(packet: Packet, entry: Option<Resource>) {
    entry.Some? && forall i :: 0 <= i < |packet.context| ==> packet.context[i].id != entry.value.id
  }

  /** `at` are the positions of the open entries, in their order. */
  ghost predicate OpenAt(packet: Packet, entries: seq<Option<Resource>>, at: seq<nat>) {
    && Increasing(at)
    && (forall k :: 0 <= k < |at| ==> at[k] < |entries|)
    && (forall i :: 0 <= i < |entries| ==> (IsOpen(packet, entries[i]) <==> i in at))
  }

  lemma {:induction false} FreshOfMore(entries: seq<Option<Resource>>, last: Option<Resource>, known: set<string>)
    ensures Fresh(entries + [last], known) ==
            Fresh(entries, known) + if last.Some? && last.value.id !in known then [last.value] else []
  {
    if entries != [] {
      assert (entries + [last])[1..] == entries[1..] + [last];
      FreshOfMore(entries[1..], last, known);
    }
  }

  /** And these are the tabs there. */
  ghost predicate TabsAt(packet: Packet, entries: seq<Option<Resource>>, tabs: seq<Resource>, at: seq<nat>) {
    && OpenAt(packet, entries, at) && |at| == |tabs|
    && forall k :: 0 <= k < |at| ==> entries[at[k]] == Some(tabs[k])
  }

  lemma OpenOneMore(packet: Packet, entries: seq<Option<Resource>>, last: Option<Resource>, tabs: seq<Resource>, at: seq<nat>)
    requires TabsAt(packet, entries, tabs, at)
    ensures IsOpen(packet, last) ==> TabsAt(packet, entries + [last], tabs + [last.value], at + [|entries|])
    ensures !IsOpen(packet, last) ==> TabsAt(packet, entries + [last], tabs, at)
  {
    assert forall i: nat :: i in at + [|entries|] <==> i in at || i == |entries|;
    assert |entries| !in at;
  }

  lemma OpenMeaning(packet: Packet, entry: Option<Resource>)
    ensures IsOpen(packet, entry) <==> entry.Some? && entry.value.id !in Ids(packet.context)
  {
  }

  lemma {:induction false} FreshAre(packet: Packet, entries: seq<Option<Resource>>) returns (at: seq<nat>)
    ensures TabsAt(packet, entries, Fresh(entries, Ids(packet.context)), at)
  {
    var known := Ids(packet.context);
    if entries == [] {
      at := [];
    } else {
      var before, last := entries[..|entries| - 1], entries[|entries| - 1];
      at := FreshAre(packet, before);
      FreshOfMore(before, last, known);
      OpenOneMore(packet, before, last, Fresh(before, known), at);
      OpenMeaning(packet, last);
      assert entries == before + [last];
      if IsOpen(packet, last) {
        at := at + [|before|];
      } else {
        assert Fresh(entries, known) == Fresh(before, known);
      }
    }
  }

  /** What a pass may add, in order: the snapshot resource unless some resource of the context is
      a workspace snapshot and carries one, and then the first five open entries. */
  lemma AdditionsAre(packet: Packet, answers: Answers) returns (at: seq<nat>)
    ensures OpenAt(packet, answers.entries, at)
    ensures var carried := exists r :: r in packet.context && r.kind == "workspace_snapshot" && r.snapshot;
            var first := if answers.snapshot.Some? && !carried then [answers.snapshot.value] else [];
            var additions := Additions(packet, answers);
            && |additions| == |first| + Min(5, |at|) && first <= additions
            && forall k :: 0 <= k < Min(5, |at|) ==> Some(additions[|first| + k]) == answers.entries[at[k]]
  {
    at := FreshAre(packet, answers.entries);
    CarriedMeaning(packet.context);
  }

  lemma CarriedMeaning(context: seq<Resource>)
    ensures HasWorkspaceSnapshot(context) <==> exists r :: r in context && r.kind == "workspace_snapshot" && r.snapshot
  {
  }

  /** Of what it may add, a pass adds the first of each id that is not in the context, in that
      order, and nothing else. */
  lemma {:induction false} FirstsAreAdded(additions: seq<Resource>, seen: set<string>) returns (at: seq<nat>)
    ensures |at| == |Unique(additions, seen)| && Increasing(at)
    ensures forall k :: 0 <= k < |at| ==> at[k] < |additions| && additions[at[k]] == Unique(additions, seen)[k]
    ensures forall i :: 0 <= i < |additions| ==>
              (i in at <==> additions[i].id !in seen && forall j :: 0 <= j < i ==> additions[j].id != additions[i].id)
  {
    if additions == [] {
      at := [];
    } else {
      var before, last := additions[..|additions| - 1], additions[|additions| - 1];
      at := FirstsAreAdded(before, seen);
      assert additions == before + [last];
      UniqueOfMore(before, last, seen);
      assert |before| !in at;
      if last.id !in seen + Ids(before) {
        at := at + [|before|];
      }
    }
  }

  lemma {:induction false} UniqueOfMore(additions: seq<Resource>, last: Resource, seen: set<string>)
    ensures Unique(additions + [last], seen) ==
            Unique(additions, seen) + if last.id in seen + Ids(additions) then [] else [last]
  {
    if additions != [] {
      assert (additions + [last])[1..] == additions[1..] + [last];
      IdsOfCons(additions);
      var first := additions[0].id;
      UniqueOfMore(additions[1..], last, if first in seen then seen else seen + {first});
    }
  }

  /** A pass, told without its helpers. It has on offer the snapshot resource, unless the context
      holds a workspace snapshot that carries one, and then the tabs of the first five open
      entries; and it appends, in that order, the first of each id that the context lacks. */
  lemma PassIs(packet: Packet, answers: Answers) returns (open: seq<nat>, offered: seq<Resource>, kept: seq<nat>)
    requires packet.taskId != ""
    ensures OpenAt(packet, answers.entries, open)
    ensures var carried := exists r :: r in packet.context && r.kind == "workspace_snapshot" && r.snapshot;
            var first := if answers.snapshot.Some? && !carried then [answers.snapshot.value] else [];
            && |offered| == |first| + Min(5, |open|) && first <= offered
            && forall k :: 0 <= k < Min(5, |open|) ==> Some(offered[|first| + k]) == answers.entries[open[k]]
    ensures var (before, after) := (packet.context, Enrich(packet, answers).context);
            && before <= after && |after| == |before| + |kept| && Increasing(kept)
            && forall k :: 0 <= k < |kept| ==> kept[k] < |offered| && after[|before| + k] == offered[kept[k]]
    ensures forall i :: 0 <= i < |offered| ==>
              (i in kept <==> IsOpen(packet, Some(offered[i])) && forall j :: 0 <= j < i ==> offered[j].id != offered[i].id)
  {
    open := AdditionsAre(packet, answers);
    offered := Additions(packet, answers);
    kept := FirstsAreAdded(offered, Ids(packet.context));
    forall i | 0 <= i < |offered|
      ensures IsOpen(packet, Some(offered[i])) <==> offered[i].id !in Ids(packet.context)
    {
      OpenMeaning(packet, Some(offered[i]));
    }
  }

  /** Without a task a packet is left alone. */
  lemma TasklessIsLeftAlone(packet: Packet, answers: Answers)
    requires packet.taskId == ""
    ensures Enrich(packet, answers) == packet
  {
  }

  // ---------------------------------------------------------------- convergence

  /** Entries whose browser tab is not in the context yet. */
  function Open(packet: Packet, answers: Answers): nat {
    |Fresh(answers.entries, Ids(packet.context))|
  }

  predicate SnapshotSettled(packet: Packet, answers: Answers) {
    || answers.snapshot.None?
    || HasWorkspaceSnapshot(packet.context)
    || answers.snapshot.value.id in Ids(packet.context)
  }

  lemma {:induction false} FreshShrinks(entries: seq<Option<Resource>>, known: set<string>, more: set<string>)
    requires known <= more
    ensures |Fresh(entries, more)| <= |Fresh(entries, known)|
    ensures forall n: nat :: n <= |Fresh(entries, known)| && Ids(Fresh(entries, known)[..n]) <= more ==>
              |Fresh(entries, more)| <= |Fresh(entries, known)| - n
  {
    if entries != [] {
      FreshShrinks(entries[1..], known, more);
      var open := Fresh(entries, known);
      if entries[0].Some? && entries[0].value.id !in known {
        forall n: nat | 0 < n <= |open| && Ids(open[..n]) <= more
          ensures |Fresh(entries, more)| <= |open| - n
        {
          IdsOfCons(open[..n]);
          assert open[..n][1..] == Fresh(entries[1..], known)[..n - 1];
        }
      }
    }
  }

  /** A pass settles the snapshot and closes five more entries, or all that are open. */
  lemma PassCloses(packet: Packet, answers: Answers)
    requires packet.taskId != ""
    ensures SnapshotSettled(Enrich(packet, answers), answers)
    ensures Open(Enrich(packet, answers), answers) <= Max(0, Open(packet, answers) - BROWSER_LIMIT)
  {
    var known := Ids(packet.context);
    var additions := Additions(packet, answers);
    var open := Fresh(answers.entries, known);
    UniqueMeaning(additions, known);
    IdsOfAppend(packet.context, Unique(additions, known));
    IdsOfAppend(SnapshotAddition(packet, answers), Take(open, BROWSER_LIMIT));
    var more := Ids(Enrich(packet, answers).context);
    FreshShrinks(answers.entries, known, more);
    var n := Min(|open|, BROWSER_LIMIT);
    assert Take(open, BROWSER_LIMIT) == open[..n];
    if SnapshotAddition(packet, answers) != [] {
      IdsOfCons(SnapshotAddition(packet, answers));
    } else if answers.snapshot.Some? {
      HasSnapshotStays(packet.context, Unique(additions, known));
    }
  }

  lemma HasSnapshotStays(context: seq<Resource>, additions: seq<Resource>)
    requires HasWorkspaceSnapshot(context)
    ensures HasWorkspaceSnapshot(context + additions)
  {
    var i :| 0 <= i < |context| && context[i].kind == "workspace_snapshot" && context[i].snapshot;
    assert (context + additions)[i] == context[i];
  }

  /** A packet is a fixed point exactly when no entry is open and the snapshot is settled. */
  lemma FixedPoint(packet: Packet, answers: Answers)
    requires packet.taskId != ""
    ensures Enrich(packet, answers) == packet <==> Open(packet, answers) == 0 && SnapshotSettled(packet, answers)
  {
    var additions := Additions(packet, answers);
    if Open(packet, answers) == 0 && SnapshotSettled(packet, answers) {
      assert Unique(additions, Ids(packet.context)) == [];
      assert packet.context + [] == packet.context;
    } else if Enrich(packet, answers) == packet {
      PassCloses(packet, answers);
    }
  }

  function Passes(packet: Packet, answers: Answers, n: nat): Packet {
    if n == 0 then packet else Enrich(Passes(packet, answers, n - 1), answers)
  }

  lemma {:induction false} PassesClose(packet: Packet, answers: Answers, n: nat)
    requires packet.taskId != ""
    ensures Passes(packet, answers, n).taskId == packet.taskId
    ensures Open(Passes(packet, answers, n), answers) <= Max(0, |answers.entries| - BROWSER_LIMIT * n)
    ensures n > 0 ==> SnapshotSettled(Passes(packet, answers, n), answers)
  {
    if n > 0 {
      PassesClose(packet, answers, n - 1);
      PassCloses(Passes(packet, answers, n - 1), answers);
    }
  }

  /** After one pass for every five entries (and at least one) nothing changes any more. */
  lemma {:induction false} Converges(packet: Packet, answers: Answers, n: nat, more: nat)
    requires n > 0 && BROWSER_LIMIT * n >= |answers.entries|
    ensures Passes(packet, answers, n + more) == Passes(packet, answers, n)
  {
    if packet.taskId == "" {
      NoTask(packet, answers, n);
      NoTask(packet, answers, n + more);
    } else if more > 0 {
      Converges(packet, answers, n, more - 1);
      PassesClose(packet, answers, n);
      FixedPoint(Passes(packet, answers, n), answers);
    }
  }

  lemma {:induction false} NoTask(packet: Packet, answers: Answers, n: nat)
    requires packet.taskId == ""
    ensures Passes(packet, answers, n) == packet
  {
    if n > 0 {
      NoTask(packet, answers, n - 1);
    }
  }

  /** The gateway asks for at most eight entries, so reading a packet and writing it back
      stops growing it after the second time. */
  lemma TwoReadsSettle(packet: Packet, answers: Answers, count: nat)
    requires |answers.entries| <= 8 && count >= 2
    ensures Passes(packet, answers, count) == Passes(packet, answers, 2)
    ensures |Passes(packet, answers, count).context| <= |packet.context| + 2 * (1 + BROWSER_LIMIT)
  {
    Converges(packet, answers, 2, count - 2);
    PassIsSmall(packet, answers);
    PassIsSmall(Enrich(packet, answers), answers);
    assert Passes(packet, answers, 1) == Enrich(Passes(packet, answers, 0), answers);
    assert Passes(packet, answers, 2) == Enrich(Passes(packet, answers, 1), answers);
  }

  /** Entries are all closed by exactly the sets of ids that hold those of the open ones. */
  lemma {:induction false} FreshIds(entries: seq<Option<Resource>>, known: set<string>, more: set<string>)
    requires known <= more
    ensures Ids(Fresh(entries, known)) !! known
    ensures Fresh(entries, more) == [] <==> Ids(Fresh(entries, known)) <= more
  {
    if entries != [] {
      FreshIds(entries[1..], known, more);
      if entries[0].Some? && entries[0].value.id !in known {
        IdsOfCons(Fresh(entries, known));
      }
    }
  }

  /** One read settles a packet if and only if each open entry, told before the read, has the
      id of one of the first five open ones or of the snapshot that is added. At most five open
      entries always have. */
  lemma OneReadSettles(packet: Packet, answers: Answers)
    requires packet.taskId != ""
    ensures var open := Fresh(answers.entries, Ids(packet.context));
            Enrich(Enrich(packet, answers), answers) == Enrich(packet, answers) <==>
            Ids(open) <= Ids(Take(open, BROWSER_LIMIT)) + Ids(SnapshotAddition(packet, answers))
    ensures Open(packet, answers) <= BROWSER_LIMIT ==> Enrich(Enrich(packet, answers), answers) == Enrich(packet, answers)
  {
    var known, once := Ids(packet.context), Enrich(packet, answers);
    var open := Fresh(answers.entries, known);
    PassCloses(packet, answers);
    FixedPoint(once, answers);
    IdsAfterPass(packet, answers);
    FreshIds(answers.entries, known, Ids(once.context));
  }

  lemma IdsAfterPass(packet: Packet, answers: Answers)
    requires packet.taskId != ""
    ensures var open := Fresh(answers.entries, Ids(packet.context));
            Ids(Enrich(packet, answers).context) ==
            Ids(packet.context) + Ids(SnapshotAddition(packet, answers)) + Ids(Take(open, BROWSER_LIMIT))
  {
    var known, additions := Ids(packet.context), Additions(packet, answers);
    UniqueMeaning(additions, known);
    IdsOfAppend(packet.context, Unique(additions, known));
    IdsOfAppend(SnapshotAddition(packet, answers), Take(Fresh(answers.entries, known), BROWSER_LIMIT));
  }

  /** More than five different tabs: the first read adds five of them and the second one
      more, so enriching is not idempotent. */
  lemma SixTabsTakeTwoReads(tabs: seq<Resource>, entries: seq<Option<Resource>>)
    requires |entries| == |tabs| > BROWSER_LIMIT && forall i :: 0 <= i < |tabs| ==> entries[i] == Some(tabs[i])
    requires forall i, j :: 0 <= i < j < |tabs| ==> tabs[i].id != tabs[j].id
    ensures var once := Enrich(Packet("t", []), Answers(None, entries));
            once.context == tabs[..BROWSER_LIMIT] && Enrich(once, Answers(None, entries)) != once
  {
    var packet, answers := Packet("t", []), Answers(None, entries);
    assert Ids(packet.context) == {};
    AllFresh(entries, tabs);
    assert Additions(packet, answers) == tabs[..BROWSER_LIMIT];
    AllUnique(tabs[..BROWSER_LIMIT], {});
    var once := Enrich(packet, answers);
    assert once.context == tabs[..BROWSER_LIMIT];
    FreshAt(entries, Ids(once.context), BROWSER_LIMIT);
    FixedPoint(once, answers);
  }

  lemma {:induction false} AllFresh(entries: seq<Option<Resource>>, tabs: seq<Resource>)
    requires |entries| == |tabs| && forall i :: 0 <= i < |tabs| ==> entries[i] == Some(tabs[i])
    ensures Fresh(entries, {}) == tabs
  {
    if tabs != [] {
      AllFresh(entries[1..], tabs[1..]);
    }
  }

  lemma {:induction false} AllUnique(tabs: seq<Resource>, seen: set<string>)
    requires forall i, j :: 0 <= i < j < |tabs| ==> tabs[i].id != tabs[j].id
    requires forall i :: 0 <= i < |tabs| ==> tabs[i].id !in seen
    ensures Unique(tabs, seen) == tabs
  {
    if tabs != [] {
      AllUnique(tabs[1..], seen + {tabs[0].id});
    }
  }

  lemma {:induction false} FreshAt(entries: seq<Option<Resource>>, known: set<string>, i: nat)
    requires i < |entries| && entries[i].Some? && entries[i].value.id !in known
    ensures Fresh(entries, known) != []
  {
    if i > 0 {
      FreshAt(entries[1..], known, i - 1);
    }
  }
}
