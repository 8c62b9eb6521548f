/** The complete in-process queue of the Mac client: packets in priority order, a set of
    leased ids and a scan that goes round
    (app/macos/Sources/EventLoopQueueCore/FakeQueueClient.swift). */
module FakeQueue {
  import opened Prelude

  datatype Packet = Packet(id: string, priority: int, reasons: seq<string>)

  datatype Taking = Complete | Postpone | Ignore | Execute

  datatype State = State(
    packets: seq<Packet>,
    leasedIds: set<string>,
    leaseOrder: seq<string>,
    completedIds: seq<string>,
    deferredIds: seq<string>,
    ignoredIds: seq<string>,
    executedIds: seq<string>,
    renewedIds: seq<string>,
    actionError: bool,
    leaseError: bool)

  datatype Op =
    | Take(how: Taking, id: string)
    | RenewLease(id: string)
    | Next(cursor: Option<string>)
    | BumpPriority(id: string, delta: Option<int>, score: Option<int>, reason: Option<string>)
    | StartMasterTask(packetId: string)
    | ApproveOnboarding(taskId: string)
    | PromoteReadingQueue(contextIds: seq<string>)
    | SetActionError(on: bool)
    | SetLeaseError(on: bool)
    | ReplacePackets(packets: seq<Packet>)

  const MASTER_PRIORITY := 760
  const ONBOARDING_PRIORITY := 700
  const READING_PRIORITY := 600
  const MAX_PRIORITY := 10_000

  // ---------------------------------------------------------------- values

  function Ids(packets: seq<Packet>): seq<string> {
    if packets == [] then [] else [packets[0].id] + Ids(packets[1..])
  }

  function IndexOf(packets: seq<Packet>, id: string): (r: Option<nat>)
    ensures r.Some? ==> r.value < |packets| && packets[r.value].id == id
    ensures r.None? ==> forall i :: 0 <= i < |packets| ==> packets[i].id != id
  {
    if packets == [] then None
    else if packets[0].id == id then Some(0)
    else match IndexOf(packets[1..], id)
      case None => None
      case Some(i) => Some(i + 1)
  }

  predicate HigherPriority(a: Packet, b: Packet) {
    a.priority > b.priority
  }

  /** Descending priority, equal ones in the order they were in. */
  function Sorted(packets: seq<Packet>): seq<Packet> {
    Sort(HigherPriority, packets)
  }

  function RemoveAt(packets: seq<Packet>, i: nat): seq<Packet>
    requires i < |packets|
  {
    packets[..i] + packets[i + 1..]
  }

  /** The packets in scanning order: from behind the cursor round to the cursor itself. */
  function Candidates(packets: seq<Packet>, cursor: Option<string>): seq<Packet> {
    var at := if cursor.Some? then IndexOf(packets, cursor.value) else None;
    if at.Some? then packets[at.value + 1..] + packets[..at.value + 1] else packets
  }

  function FirstUnleased(packets: seq<Packet>, leasedIds: set<string>): (r: Option<Packet>)
    ensures r.Some? ==> r.value in packets && r.value.id !in leasedIds
    ensures r.None? ==> forall p :: p in packets ==> p.id in leasedIds
  {
    if packets == [] then None
    else if packets[0].id !in leasedIds then Some(packets[0])
    else FirstUnleased(packets[1..], leasedIds)
  }

  function Bumped(packet: Packet, delta: Option<int>, score: Option<int>, reason: Option<string>): Packet {
    var tag := if reason.Some? then reason.value else "manual_priority_bump";
    Packet(packet.id,
           if score.Some? then score.value
           else if delta.Some? then Max(0, Min(MAX_PRIORITY, packet.priority + delta.value))
           else packet.priority,
           if tag in packet.reasons then packet.reasons else packet.reasons + [tag])
  }

  function AddIfAbsent(packets: seq<Packet>, packet: Packet): seq<Packet> {
    if IndexOf(packets, packet.id).Some? then packets else Sorted(packets + [packet])
  }

  function Promote(packets: seq<Packet>, contextIds: seq<string>): seq<Packet>
    decreases |contextIds|
  {
    if contextIds == [] then packets
    else Promote(AddIfAbsent(packets, Packet("qit_reading_queue_" + contextIds[0], READING_PRIORITY, [])), contextIds[1..])
  }

  function Record(s: State, how: Taking, id: string): State {
    match how
    case Complete => s.(completedIds := s.completedIds + [id])
    case Postpone => s.(deferredIds := s.deferredIds + [id])
    case Ignore => s.(ignoredIds := s.ignoredIds + [id])
    case Execute => s.(executedIds := s.executedIds + [id])
  }

  /** What `next` answers; an injected error answers nothing and is used up. */
  function Answer(s: State, cursor: Option<string>): Option<Packet> {
    if s.leaseError then None else FirstUnleased(Candidates(s.packets, cursor), s.leasedIds)
  }

  function TakeEffect(s: State, how: Taking, id: string): State {
    var at := IndexOf(s.packets, id);
    if s.actionError then s.(actionError := false)
    else if at.None? then s
    else Record(s.(packets := RemoveAt(s.packets, at.value), leasedIds := s.leasedIds - {id}), how, id)
  }

  function NextEffect(s: State, cursor: Option<string>): State {
    var found := Answer(s, cursor);
    if s.leaseError then s.(leaseError := false)
    else if found.None? then s
    else s.(leasedIds := s.leasedIds + {found.value.id}, leaseOrder := s.leaseOrder + [found.value.id])
  }

  function BumpEffect(s: State, id: string, delta: Option<int>, score: Option<int>, reason: Option<string>): State {
    var at := IndexOf(s.packets, id);
    if at.None? then s
    else s.(packets := Sorted(s.packets[at.value := Bumped(s.packets[at.value], delta, score, reason)]))
  }

  function Apply(s: State, op: Op): State {
    match op
    case Take(how, id) => TakeEffect(s, how, id)
    case RenewLease(id) =>
      if IndexOf(s.packets, id).Some? && id in s.leasedIds then s.(renewedIds := s.renewedIds + [id]) else s
    case Next(cursor) => NextEffect(s, cursor)
    case BumpPriority(id, delta, score, reason) => BumpEffect(s, id, delta, score, reason)
    case StartMasterTask(packetId) =>
      s.(packets := Sorted(s.packets + [Packet(packetId, MASTER_PRIORITY, ["master_task_started"])]))
    case ApproveOnboarding(taskId) =>
      s.(packets := AddIfAbsent(s.packets, Packet("qit_onboarding_" + taskId, ONBOARDING_PRIORITY, [])))
    case PromoteReadingQueue(contextIds) => s.(packets := Promote(s.packets, contextIds))
    case SetActionError(on) => s.(actionError := on)
    case SetLeaseError(on) => s.(leaseError := on)
    case ReplacePackets(packets) =>
      s.(packets := Sorted(packets), leasedIds := set id | id in s.leasedIds && id in Ids(Sorted(packets)))
  }

  function Initial(packets: seq<Packet>): State {
    State(Sorted(packets), {}, [], [], [], [], [], [], false, false)
  }

  function Run(s: State, ops: seq<Op>): State
    decreases |ops|
  {
    if ops == [] then s else Run(Apply(s, ops[0]), ops[1..])
  }

  /** The client: the fields its methods change under a lock. */
  class FakeQueueClient {
    var packets: seq<Packet>
    var leasedIds: set<string>
    var leaseOrder: seq<string>
    var completedIds: seq<string>
    var deferredIds: seq<string>
    var ignoredIds: seq<string>
    var executedIds: seq<string>
    var renewedIds: seq<string>
    var actionError: bool
    var leaseError: bool

    ghost function View(): State
      reads this
    {
      State(packets, leasedIds, leaseOrder, completedIds, deferredIds, ignoredIds, executedIds, renewedIds,
            actionError, leaseError)
    }

    constructor (given: seq<Packet>)
      ensures View() == Initial(given)
    {
      packets, leasedIds, leaseOrder := Sorted(given), {}, [];
      completedIds, deferredIds, ignoredIds, executedIds, renewedIds := [], [], [], [], [];
      actionError, leaseError := false, false;
    }

    method TakePacket(how: Taking, id: string) returns (ok: bool)
      modifies this
      ensures View() == Apply(old(View()), Take(how, id))
      ensures ok <==> !old(actionError) && IndexOf(old(packets), id).Some?
    {
      if actionError {
        actionError := false;
        return false;
      }
      var at := IndexOf(packets, id);
      if at.None? {
        return false;
      }
      packets := packets[..at.value] + packets[at.value + 1..];
      leasedIds := leasedIds - {id};
      match how {
        case Complete => completedIds := completedIds + [id];
        case Postpone => deferredIds := deferredIds + [id];
        case Ignore => ignoredIds := ignoredIds + [id];
        case Execute => executedIds := executedIds + [id];
      }
      return true;
    }

    method Renew(id: string) returns (ok: bool)
      modifies this
      ensures View() == Apply(old(View()), RenewLease(id))
      ensures ok <==> IndexOf(old(packets), id).Some? && id in old(leasedIds)
    {
      if IndexOf(packets, id).None? || id !in leasedIds {
        return false;
      }
      renewedIds := renewedIds + [id];
      return true;
    }

    method LeaseNext(cursor: Option<string>) returns (answer: Option<Packet>)
      modifies this
      ensures View() == Apply(old(View()), Next(cursor)) && answer == Answer(old(View()), cursor)
    {
      if leaseError {
        leaseError := false;
        return None;
      }
      var candidates := Candidates(packets, cursor);
      var i := 0;
      while i < |candidates| && candidates[i].id in leasedIds
        invariant 0 <= i <= |candidates|
        invariant FirstUnleased(candidates, leasedIds) == FirstUnleased(candidates[i..], leasedIds)
      {
        assert candidates[i..][1..] == candidates[i + 1..];
        i := i + 1;
      }
      if i == |candidates| {
        return None;
      }
      assert candidates[i..][0] == candidates[i];
      leasedIds := leasedIds + {candidates[i].id};
      leaseOrder := leaseOrder + [candidates[i].id];
      return Some(candidates[i]);
    }

    method Bump(id: string, delta: Option<int>, score: Option<int>, reason: Option<string>) returns (ok: bool)
      modifies this
      ensures View() == Apply(old(View()), BumpPriority(id, delta, score, reason))
      ensures ok <==> IndexOf(old(packets), id).Some?
    {
      var at := IndexOf(packets, id);
      if at.None? {
        return false;
      }
      packets := packets[at.value := Bumped(packets[at.value], delta, score, reason)];
      packets := Sorted(packets);
      return true;
    }

    method PromoteContexts(contextIds: seq<string>)
      modifies this
      ensures View() == Apply(old(View()), PromoteReadingQueue(contextIds))
    {
      var i := 0;
      while i < |contextIds|
        invariant 0 <= i <= |contextIds|
        invariant View() == old(View()).(packets := packets)
        invariant Promote(packets, contextIds[i..]) == Promote(old(packets), contextIds)
      {
        assert contextIds[i..][1..] == contextIds[i + 1..];
        var packet := Packet("qit_reading_queue_" + contextIds[i], READING_PRIORITY, []);
        if IndexOf(packets, packet.id).None? {
          packets := Sorted(packets + [packet]);
        }
        i := i + 1;
      }
    }

    method StartMaster(packetId: string)
      modifies this
      ensures View() == Apply(old(View()), StartMasterTask(packetId))
    {
      packets := packets + [Packet(packetId, MASTER_PRIORITY, ["master_task_started"])];
      packets := Sorted(packets);
    }

    method ApproveProposal(taskId: string)
      modifies this
      ensures View() == Apply(old(View()), ApproveOnboarding(taskId))
    {
      var packet := Packet("qit_onboarding_" + taskId, ONBOARDING_PRIORITY, []);
      if IndexOf(packets, packet.id).None? {
        packets := Sorted(packets + [packet]);
      }
    }

    method Replace(nextPackets: seq<Packet>)
      modifies this
      ensures View() == Apply(old(View()), ReplacePackets(nextPackets))
    {
      packets := Sorted(nextPackets);
      leasedIds := set id | id in leasedIds && id in Ids(packets);
    }
  }

  // ---------------------------------------------------------------- invariant and conservation

  predicate Descending(packets: seq<Packet>) {
    forall i, j :: 0 <= i < j < |packets| ==> packets[i].priority >= packets[j].priority
  }

  /** Packets stand in descending priority and only their ids are leased. */
  predicate Fits(s: State) {
    Descending(s.packets) && forall id :: id in s.leasedIds ==> id in Ids(s.packets)
  }

  lemma {:induction false} InsertKeepsIds(packet: Packet, sorted: seq<Packet>)
    ensures multiset(Ids(Insert(HigherPriority, packet, sorted))) == multiset(Ids(sorted)) + multiset{packet.id}
  {
    if sorted != [] && HigherPriority(sorted[0], packet) {
      InsertKeepsIds(packet, sorted[1..]);
    }
  }

  lemma {:induction false} SortKeepsIds(packets: seq<Packet>)
    ensures multiset(Ids(Sorted(packets))) == multiset(Ids(packets))
  {
    if packets != [] {
      SortKeepsIds(packets[1..]);
      InsertKeepsIds(packets[0], Sorted(packets[1..]));
    }
  }

  /** Sorting orders the packets and keeps every one of them. */
  lemma SortMeaning(packets: seq<Packet>)
    ensures Descending(Sorted(packets))
    ensures multiset(Sorted(packets)) == multiset(packets)
    ensures multiset(Ids(Sorted(packets))) == multiset(Ids(packets))
  {
    SortOrders(HigherPriority, packets);
    SortKeeps(HigherPriority, packets);
    SortKeepsIds(packets);
  }

  lemma {:induction false} IdsOfMore(packets: seq<Packet>, packet: Packet)
    ensures Ids(packets + [packet]) == Ids(packets) + [packet.id]
  {
    if packets != [] {
      assert (packets + [packet])[1..] == packets[1..] + [packet];
      IdsOfMore(packets[1..], packet);
    }
  }

  lemma {:induction false} IdsOfBoth(a: seq<Packet>, b: seq<Packet>)
    ensures Ids(a + b) == Ids(a) + Ids(b)
  {
    if a == [] {
      assert a + b == b;
    } else {
      assert (a + b)[1..] == a[1..] + b;
      IdsOfBoth(a[1..], b);
      Assoc([a[0].id], Ids(a[1..]), Ids(b));
    }
  }

  lemma PartedAt<T>(s: seq<T>, i: nat)
    requires i < |s|
    ensures s == s[..i] + ([s[i]] + s[i + 1..])
  {
  }

  lemma IdsOfCons(packet: Packet, rest: seq<Packet>)
    ensures Ids([packet] + rest) == [packet.id] + Ids(rest)
  {
    assert ([packet] + rest)[1..] == rest;
  }

  lemma IdsAround(packets: seq<Packet>, i: nat)
    requires i < |packets|
    ensures Ids(packets) == Ids(packets[..i]) + ([packets[i].id] + Ids(packets[i + 1..]))
  {
    PartedAt(packets, i);
    IdsOfBoth(packets[..i], [packets[i]] + packets[i + 1..]);
    IdsOfCons(packets[i], packets[i + 1..]);
  }

  lemma OneLess(a: seq<string>, id: string, b: seq<string>)
    ensures multiset(a + ([id] + b)) == multiset(a + b) + multiset{id}
  {
    assert multiset(a + ([id] + b)) == multiset(a) + (multiset([id]) + multiset(b));
    assert multiset(a + b) == multiset(a) + multiset(b);
  }

  lemma IdsWithoutOne(packets: seq<Packet>, i: nat)
    requires i < |packets|
    ensures multiset(Ids(packets)) == multiset(Ids(RemoveAt(packets, i))) + multiset{packets[i].id}
  {
    IdsAround(packets, i);
    IdsOfBoth(packets[..i], packets[i + 1..]);
    OneLess(Ids(packets[..i]), packets[i].id, Ids(packets[i + 1..]));
  }

  /** Every id the queue accounts for: still open, or taken out in one of the four ways. */
  function Account(s: State): multiset<string> {
    multiset(Ids(s.packets)) + multiset(s.completedIds) + multiset(s.deferredIds) +
    multiset(s.ignoredIds) + multiset(s.executedIds)
  }

  function ArrivalIfAbsent(packets: seq<Packet>, id: string): multiset<string> {
    if IndexOf(packets, id).Some? then multiset{} else multiset{id}
  }

  function Promotions(packets: seq<Packet>, contextIds: seq<string>): multiset<string>
    decreases |contextIds|
  {
    if contextIds == [] then multiset{}
    else
      var packet := Packet("qit_reading_queue_" + contextIds[0], READING_PRIORITY, []);
      ArrivalIfAbsent(packets, packet.id) + Promotions(AddIfAbsent(packets, packet), contextIds[1..])
  }

  /** The ids an operation adds. */
  function Arrivals(s: State, op: Op): multiset<string> {
    match op
    case StartMasterTask(packetId) => multiset{packetId}
    case ApproveOnboarding(taskId) => ArrivalIfAbsent(s.packets, "qit_onboarding_" + taskId)
    case PromoteReadingQueue(contextIds) => Promotions(s.packets, contextIds)
    case _ => multiset{}
  }

  function AllArrivals(s: State, ops: seq<Op>): multiset<string>
    decreases |ops|
  {
    if ops == [] then multiset{} else Arrivals(s, ops[0]) + AllArrivals(Apply(s, ops[0]), ops[1..])
  }

  lemma AddedPacket(packets: seq<Packet>, packet: Packet)
    ensures Descending(Sorted(packets + [packet]))
    ensures multiset(Ids(Sorted(packets + [packet]))) == multiset(Ids(packets)) + multiset{packet.id}
  {
    SortMeaning(packets + [packet]);
    IdsOfMore(packets, packet);
  }

  lemma AddedIfAbsent(packets: seq<Packet>, packet: Packet)
    requires Descending(packets)
    ensures Descending(AddIfAbsent(packets, packet))
    ensures multiset(Ids(AddIfAbsent(packets, packet))) == multiset(Ids(packets)) + ArrivalIfAbsent(packets, packet.id)
  {
    AddedPacket(packets, packet);
  }

  lemma {:induction false} PromotedPackets(packets: seq<Packet>, contextIds: seq<string>)
    requires Descending(packets)
    ensures Descending(Promote(packets, contextIds))
    ensures multiset(Ids(Promote(packets, contextIds))) == multiset(Ids(packets)) + Promotions(packets, contextIds)
    decreases |contextIds|
  {
    if contextIds != [] {
      var packet := Packet("qit_reading_queue_" + contextIds[0], READING_PRIORITY, []);
      AddedIfAbsent(packets, packet);
      PromotedPackets(AddIfAbsent(packets, packet), contextIds[1..]);
    }
  }

  lemma DescendingWithoutOne(packets: seq<Packet>, i: nat)
    requires i < |packets| && Descending(packets)
    ensures Descending(RemoveAt(packets, i))
  {
  }

  lemma OthersStay(packets: seq<Packet>, i: nat, id: string)
    requires i < |packets| && id in Ids(packets) && id != packets[i].id
    ensures id in Ids(RemoveAt(packets, i))
  {
    IdsWithoutOne(packets, i);
    assert id in multiset(Ids(packets));
    assert id in multiset(Ids(RemoveAt(packets, i)));
  }

  lemma TakeFits(s: State, how: Taking, id: string)
    requires Fits(s)
    ensures Fits(TakeEffect(s, how, id))
  {
    var at := IndexOf(s.packets, id);
    if at.Some? {
      DescendingWithoutOne(s.packets, at.value);
      forall other | other in s.leasedIds && other != id
        ensures other in Ids(RemoveAt(s.packets, at.value))
      {
        OthersStay(s.packets, at.value, other);
      }
    }
  }

  lemma TakeAccounts(s: State, how: Taking, id: string)
    ensures Account(TakeEffect(s, how, id)) == Account(s)
  {
    var at := IndexOf(s.packets, id);
    if at.Some? {
      IdsWithoutOne(s.packets, at.value);
      RecordAccounts(s.(packets := RemoveAt(s.packets, at.value), leasedIds := s.leasedIds - {id}), how, id);
    }
  }

  lemma RecordAccounts(s: State, how: Taking, id: string)
    ensures Account(Record(s, how, id)) == Account(s) + multiset{id}
  {
  }

  lemma NextFits(s: State, cursor: Option<string>)
    requires Fits(s)
    ensures Fits(NextEffect(s, cursor)) && Account(NextEffect(s, cursor)) == Account(s)
  {
    var found := Answer(s, cursor);
    if found.Some? {
      CandidatesArePackets(s.packets, cursor);
      var i :| 0 <= i < |s.packets| && s.packets[i] == found.value;
      IdsWithoutOne(s.packets, i);
      assert found.value.id in multiset(Ids(s.packets));
    }
  }

  lemma CandidatesArePackets(packets: seq<Packet>, cursor: Option<string>)
    ensures multiset(Candidates(packets, cursor)) == multiset(packets)
    ensures forall p :: p in Candidates(packets, cursor) <==> p in packets
  {
    var at := if cursor.Some? then IndexOf(packets, cursor.value) else None;
    if at.Some? {
      assert packets == packets[..at.value + 1] + packets[at.value + 1..];
    }
  }

  /** A bump keeps the packet and its reasons and records the new one; moved by a delta, the
      priority stays between 0 and 10000, and is the exact sum whenever that is. */
  lemma BumpedMeaning(packet: Packet, delta: Option<int>, score: Option<int>, reason: Option<string>)
    ensures var bumped := Bumped(packet, delta, score, reason);
            && bumped.id == packet.id && packet.reasons <= bumped.reasons && |bumped.reasons| <= |packet.reasons| + 1
            && (if reason.Some? then reason.value else "manual_priority_bump") in bumped.reasons
            && (score.Some? ==> bumped.priority == score.value)
            && (score.None? && delta.Some? ==>
                  0 <= bumped.priority <= MAX_PRIORITY &&
                  (0 <= packet.priority + delta.value <= MAX_PRIORITY ==> bumped.priority == packet.priority + delta.value))
            && (score.None? && delta.None? ==> bumped.priority == packet.priority)
  {
  }

  lemma BumpFits(s: State, id: string, delta: Option<int>, score: Option<int>, reason: Option<string>)
    requires Fits(s)
    ensures Fits(BumpEffect(s, id, delta, score, reason)) && Account(BumpEffect(s, id, delta, score, reason)) == Account(s)
  {
    var at := IndexOf(s.packets, id);
    if at.Some? {
      var bumped := s.packets[at.value := Bumped(s.packets[at.value], delta, score, reason)];
      IdsWithoutOne(s.packets, at.value);
      IdsWithoutOne(bumped, at.value);
      assert RemoveAt(bumped, at.value) == RemoveAt(s.packets, at.value);
      SortMeaning(bumped);
      SameMembers(Ids(s.packets), Ids(Sorted(bumped)));
    }
  }

  lemma SameMembers(a: seq<string>, b: seq<string>)
    requires multiset(a) <= multiset(b)
    ensures forall id :: id in a ==> id in b
  {
    forall id | id in a
      ensures id in b
    {
      assert id in multiset(a);
    }
  }

  lemma AddFits(s: State, packets: seq<Packet>, arrivals: multiset<string>)
    requires Fits(s) && Descending(packets)
    requires multiset(Ids(packets)) == multiset(Ids(s.packets)) + arrivals
    ensures Fits(s.(packets := packets)) && Account(s.(packets := packets)) == Account(s) + arrivals
  {
    SameMembers(Ids(s.packets), Ids(packets));
  }

  predicate Adds(op: Op) {
    op.StartMasterTask? || op.ApproveOnboarding? || op.PromoteReadingQueue?
  }

  /** `after` is `s` with the packets of `arrivals` put in their places. */
  ghost predicate Added(s: State, after: State, arrivals: multiset<string>) {
    && Descending(after.packets)
    && after == s.(packets := after.packets)
    && multiset(Ids(after.packets)) == multiset(Ids(s.packets)) + arrivals
  }

  lemma StartAdds(s: State, packetId: string)
    ensures Added(s, Apply(s, StartMasterTask(packetId)), Arrivals(s, StartMasterTask(packetId)))
  {
    AddedPacket(s.packets, Packet(packetId, MASTER_PRIORITY, ["master_task_started"]));
  }

  lemma ApprovalAdds(s: State, taskId: string)
    requires Descending(s.packets)
    ensures Added(s, Apply(s, ApproveOnboarding(taskId)), Arrivals(s, ApproveOnboarding(taskId)))
  {
    AddedIfAbsent(s.packets, Packet("qit_onboarding_" + taskId, ONBOARDING_PRIORITY, []));
  }

  lemma PromotionAdds(s: State, contextIds: seq<string>)
    requires Descending(s.packets)
    ensures Added(s, Apply(s, PromoteReadingQueue(contextIds)), Arrivals(s, PromoteReadingQueue(contextIds)))
  {
    PromotedPackets(s.packets, contextIds);
  }

  lemma AddedPackets(s: State, op: Op)
    requires Descending(s.packets) && Adds(op)
    ensures Added(s, Apply(s, op), Arrivals(s, op))
  {
    match op
    case StartMasterTask(packetId) => StartAdds(s, packetId);
    case ApproveOnboarding(taskId) => ApprovalAdds(s, taskId);
    case PromoteReadingQueue(contextIds) => PromotionAdds(s, contextIds);
  }

  /** One operation keeps the order and the leases, and accounts for every id it adds. */
  lemma OneStep(s: State, op: Op)
    requires Fits(s)
    ensures Fits(Apply(s, op))
    ensures !op.ReplacePackets? ==> Account(Apply(s, op)) == Account(s) + Arrivals(s, op)
  {
    if Adds(op) {
      AddedPackets(s, op);
      AddFits(s, Apply(s, op).packets, Arrivals(s, op));
    } else {
      StepWithoutArrival(s, op);
    }
  }

  lemma ReplaceFits(s: State, packets: seq<Packet>)
    ensures Fits(Apply(s, ReplacePackets(packets)))
  {
    SortMeaning(packets);
  }

  lemma StepWithoutArrival(s: State, op: Op)
    requires Fits(s) && !Adds(op)
    ensures Fits(Apply(s, op))
    ensures !op.ReplacePackets? ==> Account(Apply(s, op)) == Account(s)
  {
    match op
    case Take(how, id) =>
      TakeFits(s, how, id);
      TakeAccounts(s, how, id);
    case Next(cursor) => NextFits(s, cursor);
    case BumpPriority(id, delta, score, reason) => BumpFits(s, id, delta, score, reason);
    case ReplacePackets(packets) => ReplaceFits(s, packets);
    case RenewLease(_) =>
    case SetActionError(_) =>
    case SetLeaseError(_) =>
  }

  /** In every reachable state packets are in descending priority and leased ids are packet
      ids; and without replacing the packets, what was there at first plus what was added is
      exactly what is open plus what was completed, deferred, ignored and executed. */
  lemma {:induction false} Conservation(s: State, ops: seq<Op>)
    requires Fits(s)
    ensures Fits(Run(s, ops))
    ensures (forall i :: 0 <= i < |ops| ==> !ops[i].ReplacePackets?) ==>
              Account(Run(s, ops)) == Account(s) + AllArrivals(s, ops)
    decreases |ops|
  {
    if ops != [] {
      OneStep(s, ops[0]);
      Conservation(Apply(s, ops[0]), ops[1..]);
    }
  }

  lemma InitialFits(packets: seq<Packet>)
    ensures Fits(Initial(packets)) && Account(Initial(packets)) == multiset(Ids(packets))
  {
    SortMeaning(packets);
  }

  // ---------------------------------------------------------------- the ledgers

  predicate Present(packets: seq<Packet>, id: string) {
    exists p :: p in packets && p.id == id
  }

  /** The id of a taking of one kind, if it is answered ok: no error is injected, and the packet
      is there. */
  function TakenBy(s: State, op: Op, how: Taking): seq<string> {
    if op.Take? && op.how == how && !s.actionError && Present(s.packets, op.id) then [op.id] else []
  }

  /** The id of a renewal that is answered ok. */
  function RenewedBy(s: State, op: Op): seq<string> {
    if op.RenewLease? && Present(s.packets, op.id) && op.id in s.leasedIds then [op.id] else []
  }

  /** The id of the packet that a request for the next one is answered with. */
  function LeasedBy(s: State, op: Op): seq<string> {
    if op.Next? && Answer(s, op.cursor).Some? then [Answer(s, op.cursor).value.id] else []
  }

  /** Over a run, in order. */
  function TakenAs(s: State, ops: seq<Op>, how: Taking): seq<string>
    decreases |ops|
  {
    if ops == [] then [] else TakenBy(s, ops[0], how) + TakenAs(Apply(s, ops[0]), ops[1..], how)
  }

  function Renewals(s: State, ops: seq<Op>): seq<string>
    decreases |ops|
  {
    if ops == [] then [] else RenewedBy(s, ops[0]) + Renewals(Apply(s, ops[0]), ops[1..])
  }

  function Leasings(s: State, ops: seq<Op>): seq<string>
    decreases |ops|
  {
    if ops == [] then [] else LeasedBy(s, ops[0]) + Leasings(Apply(s, ops[0]), ops[1..])
  }

  lemma PresentIsFound(packets: seq<Packet>, id: string)
    ensures Present(packets, id) <==> IndexOf(packets, id).Some?
  {
    if IndexOf(packets, id).Some? {
      assert packets[IndexOf(packets, id).value] in packets;
    }
  }

  datatype Ledgers = Ledgers(
    completed: seq<string>,
    deferred: seq<string>,
    ignored: seq<string>,
    executed: seq<string>,
    renewed: seq<string>,
    leased: seq<string>)
  {
    function Then(more: Ledgers): Ledgers {
      Ledgers(completed + more.completed, deferred + more.deferred, ignored + more.ignored,
              executed + more.executed, renewed + more.renewed, leased + more.leased)
    }
  }

  function LedgersOf(s: State): Ledgers {
    Ledgers(s.completedIds, s.deferredIds, s.ignoredIds, s.executedIds, s.renewedIds, s.leaseOrder)
  }

  /** What an operation writes. */
  function Written(s: State, op: Op): Ledgers {
    Ledgers(TakenBy(s, op, Complete), TakenBy(s, op, Postpone), TakenBy(s, op, Ignore), TakenBy(s, op, Execute),
            RenewedBy(s, op), LeasedBy(s, op))
  }

  function WrittenBy(s: State, ops: seq<Op>): Ledgers {
    Ledgers(TakenAs(s, ops, Complete), TakenAs(s, ops, Postpone), TakenAs(s, ops, Ignore), TakenAs(s, ops, Execute),
            Renewals(s, ops), Leasings(s, ops))
  }

  lemma ThenThen(a: Ledgers, b: Ledgers, c: Ledgers)
    ensures a.Then(b).Then(c) == a.Then(b.Then(c))
  {
  }

  /** What one taking does: an injected error is used up and nothing else happens; a packet that
      is not there changes nothing; otherwise one packet of that id and its lease are gone, and
      the id is in the ledger of its kind and in no other. */
  lemma TakeMeaning(s: State, how: Taking, id: string)
    ensures var t := Apply(s, Take(how, id));
            if s.actionError then t == s.(actionError := false)
            else if !Present(s.packets, id) then t == s
            else
              && t.leasedIds == s.leasedIds - {id}
              && |t.packets| == |s.packets| - 1
              && (exists i :: 0 <= i < |s.packets| && s.packets[i].id == id &&
                              t.packets == s.packets[..i] + s.packets[i + 1..])
              && LedgersOf(t) == LedgersOf(s).Then(Written(s, Take(how, id)))
              && (t.actionError, t.leaseError) == (s.actionError, s.leaseError)
  {
    PresentIsFound(s.packets, id);
    if IndexOf(s.packets, id).Some? {
      var i := IndexOf(s.packets, id).value;
      assert RemoveAt(s.packets, i) == s.packets[..i] + s.packets[i + 1..];
    }
  }

  lemma RenewMeaning(s: State, id: string)
    ensures Apply(s, RenewLease(id)) ==
            if Present(s.packets, id) && id in s.leasedIds then s.(renewedIds := s.renewedIds + [id]) else s
  {
    PresentIsFound(s.packets, id);
  }

  lemma NextMeaning(s: State, cursor: Option<string>)
    ensures var (t, answer) := (Apply(s, Next(cursor)), Answer(s, cursor));
            if s.leaseError then answer.None? && t == s.(leaseError := false)
            else if answer.None? then t == s
            else t == s.(leasedIds := s.leasedIds + {answer.value.id}, leaseOrder := s.leaseOrder + [answer.value.id])
  {
  }

  lemma TakeWrites(s: State, how: Taking, id: string)
    ensures LedgersOf(Apply(s, Take(how, id))) == LedgersOf(s).Then(Written(s, Take(how, id)))
  {
    TakeMeaning(s, how, id);
  }

  lemma NextWrites(s: State, cursor: Option<string>)
    ensures LedgersOf(Apply(s, Next(cursor))) == LedgersOf(s).Then(Written(s, Next(cursor)))
  {
    NextMeaning(s, cursor);
  }

  lemma RenewalWrites(s: State, id: string)
    ensures LedgersOf(Apply(s, RenewLease(id))) == LedgersOf(s).Then(Written(s, RenewLease(id)))
  {
    RenewMeaning(s, id);
  }

  lemma OthersWriteNothing(s: State, op: Op)
    requires !op.Take? && !op.RenewLease? && !op.Next?
    ensures LedgersOf(Apply(s, op)) == LedgersOf(s).Then(Written(s, op))
  {
  }

  lemma {:induction false} RunWrites(s: State, ops: seq<Op>)
    ensures LedgersOf(Run(s, ops)) == LedgersOf(s).Then(WrittenBy(s, ops))
    decreases |ops|
  {
    if ops != [] {
      var t, rest := Apply(s, ops[0]), ops[1..];
      RunWrites(t, rest);
      match ops[0] {
        case Take(how, id) => TakeWrites(s, how, id);
        case RenewLease(id) => RenewalWrites(s, id);
        case Next(cursor) => NextWrites(s, cursor);
        case _ => OthersWriteNothing(s, ops[0]);
      }
      ThenThen(LedgersOf(s), Written(s, ops[0]), WrittenBy(t, rest));
      assert WrittenBy(s, ops) == Written(s, ops[0]).Then(WrittenBy(t, rest));
    }
  }

  /** Over every run each ledger is what it was, followed by the ids of the operations of its
      own kind that were answered ok, in their order. */
  lemma LedgersAreExact(s: State, ops: seq<Op>)
    ensures Run(s, ops).completedIds == s.completedIds + TakenAs(s, ops, Complete)
    ensures Run(s, ops).deferredIds == s.deferredIds + TakenAs(s, ops, Postpone)
    ensures Run(s, ops).ignoredIds == s.ignoredIds + TakenAs(s, ops, Ignore)
    ensures Run(s, ops).executedIds == s.executedIds + TakenAs(s, ops, Execute)
    ensures Run(s, ops).renewedIds == s.renewedIds + Renewals(s, ops)
    ensures Run(s, ops).leaseOrder == s.leaseOrder + Leasings(s, ops)
  {
    RunWrites(s, ops);
  }

  lemma AddedOnce(packets: seq<Packet>, packet: Packet)
    ensures multiset(AddIfAbsent(packets, packet)) ==
            multiset(if Present(packets, packet.id) then packets else packets + [packet])
  {
    PresentIsFound(packets, packet.id);
    SortMeaning(packets + [packet]);
  }

  /** Only the packets differ, and they are those and the one brought. */
  ghost predicate Brings(before: State, after: State, packet: Packet) {
    && after == before.(packets := after.packets)
    && multiset(after.packets) == multiset(before.packets + [packet])
  }

  /** A master task brings its packet, of priority 760, whether or not one of that id is there. */
  lemma MasterArrives(s: State, id: string)
    ensures Brings(s, Apply(s, StartMasterTask(id)), Packet(id, 760, ["master_task_started"]))
  {
    SortMeaning(s.packets + [Packet(id, 760, ["master_task_started"])]);
  }

  /** An approved proposal brings its packet, of priority 700, unless one of that id is there. */
  lemma ProposalArrives(s: State, taskId: string)
    ensures var (after, packet) := (Apply(s, ApproveOnboarding(taskId)), Packet("qit_onboarding_" + taskId, 700, []));
            if Present(s.packets, packet.id) then after == s else Brings(s, after, packet)
  {
    AddedOnce(s.packets, Packet("qit_onboarding_" + taskId, 700, []));
    PresentIsFound(s.packets, "qit_onboarding_" + taskId);
  }

  /** A promoted paper brings its packet, of priority 600, unless one of that id is there. */
  lemma PaperArrives(s: State, contextId: string)
    ensures var (after, packet) := (Apply(s, PromoteReadingQueue([contextId])),
                                    Packet("qit_reading_queue_" + contextId, 600, []));
            if Present(s.packets, packet.id) then after == s else Brings(s, after, packet)
  {
    OnePromotion(s.packets, contextId);
    AddedOnce(s.packets, Packet("qit_reading_queue_" + contextId, 600, []));
    PresentIsFound(s.packets, "qit_reading_queue_" + contextId);
  }

  lemma OnePromotion(packets: seq<Packet>, contextId: string)
    ensures Promote(packets, [contextId]) ==
            AddIfAbsent(packets, Packet("qit_reading_queue_" + contextId, READING_PRIORITY, []))
  {
    var added := AddIfAbsent(packets, Packet("qit_reading_queue_" + contextId, READING_PRIORITY, []));
    assert [contextId][1..] == [];
    assert Promote(added, []) == added;
  }

  /** Papers are promoted one after the other. */
  lemma PapersInTurn(s: State, first: string, rest: seq<string>)
    ensures Apply(s, PromoteReadingQueue([first] + rest)) ==
            Apply(Apply(s, PromoteReadingQueue([first])), PromoteReadingQueue(rest))
  {
    OnePromotion(s.packets, first);
    assert ([first] + rest)[0] == first && ([first] + rest)[1..] == rest;
    assert Promote(s.packets, [first] + rest) == Promote(Promote(s.packets, [first]), rest);
  }

  lemma SortedHasSameIds(packets: seq<Packet>, id: string)
    ensures id in Ids(Sorted(packets)) <==> id in Ids(packets)
  {
    SortMeaning(packets);
    assert id in multiset(Ids(Sorted(packets))) <==> id in multiset(Ids(packets));
  }

  lemma LeaseSurvives(s: State, packets: seq<Packet>, id: string)
    ensures id in Apply(s, ReplacePackets(packets)).leasedIds <==> id in s.leasedIds && id in Ids(packets)
  {
    SortedHasSameIds(packets, id);
  }

  /** Replacing the packets keeps exactly the leases of those that are still there. */
  lemma ReplaceMeaning(s: State, packets: seq<Packet>)
    ensures var after := Apply(s, ReplacePackets(packets));
            && after == s.(packets := after.packets, leasedIds := after.leasedIds)
            && multiset(after.packets) == multiset(packets)
            && (forall id :: id in after.leasedIds <==> id in s.leasedIds && id in Ids(packets))
  {
    SortMeaning(packets);
    var after := Apply(s, ReplacePackets(packets));
    assert after.packets == Sorted(packets);
    forall id
      ensures id in after.leasedIds <==> id in s.leasedIds && id in Ids(packets)
    {
      LeaseSurvives(s, packets, id);
    }
  }

  /** Injecting an error changes nothing but what the next action or lease is answered with. */
  lemma InjectionMeaning(s: State, on: bool)
    ensures Apply(s, SetActionError(on)) == s.(actionError := on)
    ensures Apply(s, SetLeaseError(on)) == s.(leaseError := on)
  {
  }

  // ---------------------------------------------------------------- leasing everything

  predicate DistinctIds(packets: seq<Packet>) {
    forall i, j :: 0 <= i < j < |packets| ==> packets[i].id != packets[j].id
  }

  function Unleased(packets: seq<Packet>, leasedIds: set<string>): seq<Packet> {
    if packets == [] then []
    else if packets[0].id in leasedIds then Unleased(packets[1..], leasedIds)
    else [packets[0]] + Unleased(packets[1..], leasedIds)
  }

  /** The answers to a series of requests for the next packet. */
  function Answers(s: State, cursors: seq<Option<string>>): (r: seq<Option<Packet>>)
    ensures |r| == |cursors|
    decreases |cursors|
  {
    if cursors == [] then [] else [Answer(s, cursors[0])] + Answers(NextEffect(s, cursors[0]), cursors[1..])
  }

  function Given(answers: seq<Option<Packet>>): seq<Packet> {
    if answers == [] then []
    else if answers[0].Some? then [answers[0].value] + Given(answers[1..])
    else Given(answers[1..])
  }

  lemma {:induction false} UnleasedMeaning(packets: seq<Packet>, leasedIds: set<string>)
    ensures forall p :: p in Unleased(packets, leasedIds) <==> p in packets && p.id !in leasedIds
  {
    if packets != [] {
      assert packets == [packets[0]] + packets[1..];
      UnleasedMeaning(packets[1..], leasedIds);
    }
  }

  lemma {:induction false} LeasingOne(packets: seq<Packet>, leasedIds: set<string>, packet: Packet)
    requires DistinctIds(packets) && packet in packets && packet.id !in leasedIds
    ensures multiset(Unleased(packets, leasedIds)) ==
            multiset(Unleased(packets, leasedIds + {packet.id})) + multiset{packet}
    ensures |Unleased(packets, leasedIds)| == |Unleased(packets, leasedIds + {packet.id})| + 1
  {
    assert packets == [packets[0]] + packets[1..];
    if packets[0] == packet {
      LeasingOther(packets[1..], leasedIds, packet.id);
    } else {
      LeasingOne(packets[1..], leasedIds, packet);
    }
  }

  lemma {:induction false} LeasingOther(packets: seq<Packet>, leasedIds: set<string>, id: string)
    requires forall p :: p in packets ==> p.id != id
    ensures Unleased(packets, leasedIds + {id}) == Unleased(packets, leasedIds)
  {
    if packets != [] {
      LeasingOther(packets[1..], leasedIds, id);
    }
  }

  /** A request is answered exactly when some packet is unleased, with one of those. */
  lemma AnswerMeaning(s: State, cursor: Option<string>)
    requires !s.leaseError
    ensures Answer(s, cursor).Some? <==> Unleased(s.packets, s.leasedIds) != []
    ensures Answer(s, cursor).Some? ==>
              Answer(s, cursor).value in s.packets && Answer(s, cursor).value.id !in s.leasedIds
  {
    CandidatesArePackets(s.packets, cursor);
    UnleasedMeaning(s.packets, s.leasedIds);
    if Unleased(s.packets, s.leasedIds) != [] {
      assert Unleased(s.packets, s.leasedIds)[0] in s.packets;
    }
  }

  /** One request on a frozen queue: it takes one packet off the unleased ones, if any. */
  lemma RequestTakesOne(s: State, cursor: Option<string>)
    requires !s.leaseError && DistinctIds(s.packets)
    ensures var unleased := Unleased(s.packets, s.leasedIds);
            var later := NextEffect(s, cursor);
            && later.packets == s.packets && !later.leaseError
            && (if unleased == [] then Answer(s, cursor).None? && later == s
                else Answer(s, cursor).Some? &&
                     |Unleased(later.packets, later.leasedIds)| == |unleased| - 1 &&
                     multiset(unleased) ==
                     multiset(Unleased(later.packets, later.leasedIds)) + multiset{Answer(s, cursor).value})
  {
    AnswerMeaning(s, cursor);
    if Answer(s, cursor).Some? {
      LeasingOne(s.packets, s.leasedIds, Answer(s, cursor).value);
    }
  }

  lemma AnswersBehindFirst(s: State, cursors: seq<Option<string>>, i: nat)
    requires i < |cursors|
    ensures Answers(s, cursors)[i] ==
            if i == 0 then Answer(s, cursors[0]) else Answers(NextEffect(s, cursors[0]), cursors[1..])[i - 1]
  {
  }

  /** On a frozen queue with distinct ids and no injected error, of u unleased packets the
      first u requests, with any cursors, are each answered with a packet and no later one is. */
  lemma {:induction false} AnsweredExactly(s: State, cursors: seq<Option<string>>, i: nat)
    requires !s.leaseError && DistinctIds(s.packets) && i < |cursors|
    ensures Answers(s, cursors)[i].Some? <==> i < |Unleased(s.packets, s.leasedIds)|
    decreases |cursors|
  {
    RequestTakesOne(s, cursors[0]);
    AnswersBehindFirst(s, cursors, i);
    if i > 0 {
      AnsweredExactly(NextEffect(s, cursors[0]), cursors[1..], i - 1);
    }
  }

  /** And those answers are the unleased packets, every one of them exactly once. */
  lemma {:induction false} Exhaustive(s: State, cursors: seq<Option<string>>)
    requires !s.leaseError && DistinctIds(s.packets) && |cursors| >= |Unleased(s.packets, s.leasedIds)|
    ensures multiset(Given(Answers(s, cursors))) == multiset(Unleased(s.packets, s.leasedIds))
    decreases |cursors|
  {
    if cursors != [] {
      var answer := Answer(s, cursors[0]);
      var later := NextEffect(s, cursors[0]);
      RequestTakesOne(s, cursors[0]);
      Exhaustive(later, cursors[1..]);
      if answer.Some? {
        GivenFirst(answer.value, Answers(later, cursors[1..]));
      } else {
        assert ([answer] + Answers(later, cursors[1..]))[1..] == Answers(later, cursors[1..]);
      }
    }
  }

  lemma GivenFirst(packet: Packet, rest: seq<Option<Packet>>)
    ensures multiset(Given([Some(packet)] + rest)) == multiset{packet} + multiset(Given(rest))
  {
  }

  // ---------------------------------------------------------------- the round scan

  /** The position the scan begins at. */
  function ScanStart(packets: seq<Packet>, cursor: Option<string>): nat {
    var at := if cursor.Some? then IndexOf(packets, cursor.value) else None;
    if at.Some? then at.value + 1 else 0
  }

  lemma {:induction false} FirstPosition(packets: seq<Packet>, leasedIds: set<string>) returns (k: nat)
    requires FirstUnleased(packets, leasedIds).Some?
    ensures k < |packets| && packets[k] == FirstUnleased(packets, leasedIds).value
    ensures forall m :: 0 <= m < k ==> packets[m].id in leasedIds
  {
    if packets[0].id !in leasedIds {
      k := 0;
    } else {
      k := FirstPosition(packets[1..], leasedIds);
      k := k + 1;
    }
  }

  /** The packet `k` places further round than `start`. */
  function RoundAt(packets: seq<Packet>, start: nat, k: nat): Packet
    requires start <= |packets| && k < |packets|
  {
    if start + k < |packets| then packets[start + k] else packets[start + k - |packets|]
  }

  lemma CandidateAt(packets: seq<Packet>, cursor: Option<string>, k: nat)
    requires k < |packets|
    ensures ScanStart(packets, cursor) <= |packets| == |Candidates(packets, cursor)|
    ensures Candidates(packets, cursor)[k] == RoundAt(packets, ScanStart(packets, cursor), k)
  {
  }

  /** The packet leased is the first unleased one going round from behind the cursor (from
      the front if the cursor is not in the queue): every packet passed over is leased. */
  lemma NextGoesRound(s: State, cursor: Option<string>) returns (k: nat)
    requires !s.leaseError && Answer(s, cursor).Some?
    ensures k < |s.packets| && ScanStart(s.packets, cursor) <= |s.packets|
    ensures Answer(s, cursor).value == RoundAt(s.packets, ScanStart(s.packets, cursor), k)
    ensures RoundAt(s.packets, ScanStart(s.packets, cursor), k).id !in s.leasedIds
    ensures forall m :: 0 <= m < k ==> RoundAt(s.packets, ScanStart(s.packets, cursor), m).id in s.leasedIds
  {
    var candidates := Candidates(s.packets, cursor);
    k := FirstPosition(candidates, s.leasedIds);
    SameLength(s.packets, cursor);
    CandidateAt(s.packets, cursor, k);
    forall m | 0 <= m < k
      ensures RoundAt(s.packets, ScanStart(s.packets, cursor), m).id in s.leasedIds
    {
      CandidateAt(s.packets, cursor, m);
    }
  }

  lemma SameLength(packets: seq<Packet>, cursor: Option<string>)
    ensures |Candidates(packets, cursor)| == |packets|
  {
  }
}
