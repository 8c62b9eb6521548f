/** The queue and its leases in the shared store (app/orchestrator/src/store.ts). Items are
    appended and changed in place but never removed, so an item is known by its position. */
module QueueLeases {
  import opened Prelude

  datatype ItemState = Ready | Leased | Deferred | Done | Dead

  datatype Item = Item(
    id: string,
    packetId: string,
    state: ItemState,
    score: int,
    createdAt: int,
    dueAt: Option<int>,
    owner: Option<string>,
    expiresAt: Option<int>)

  type Queue = seq<Item>

  const MAX_SCORE := 10_000

  datatype Bump = Score(score: int) | Delta(delta: int)

  /** Every operation carries the time it is called at. */
  datatype Op =
    | LeaseNext(owner: string, now: int, leaseMs: int, exclude: Option<string>)
    | Renew(id: string, owner: string, now: int, leaseMs: int)
    | MarkDone(id: string, now: int)
    | Ignore(id: string, now: int)
    | Defer(id: string, dueAt: int, now: int)
    | BumpPriority(id: string, bump: Bump, now: int)
    | ListQueue(now: int)
    | NextItem(now: int)
    | Add(item: Item, now: int)
    | AgentWaits(packetId: string, item: Item, now: int)
    | AgentMovesOn(packetId: string, now: int)

  // ---------------------------------------------------------------- operations on values

  function Position(queue: Queue, wanted: Item -> bool): (r: Option<nat>)
    ensures match r
            case None => forall j :: 0 <= j < |queue| ==> !wanted(queue[j])
            case Some(i) => i < |queue| && wanted(queue[i]) && forall j :: 0 <= j < i ==> !wanted(queue[j])
  {
    if queue == [] then None
    else if wanted(queue[0]) then Some(0)
    else match Position(queue[1..], wanted)
      case None => None
      case Some(i) => Some(i + 1)
  }

  /** The first item of that id. */
  function ById(queue: Queue, id: string): Option<nat> {
    Position(queue, (item: Item) => item.id == id)
  }

  /** The first item for that packet. */
  function ByPacket(queue: Queue, packetId: string): Option<nat> {
    Position(queue, (item: Item) => item.packetId == packetId)
  }

  function Released(item: Item, state: ItemState): Item {
    item.(state := state, owner := None, expiresAt := None)
  }

  predicate LeaseExpired(item: Item, now: int) {
    item.state == Leased && item.expiresAt.Some? && item.expiresAt.value <= now
  }

  predicate DeferralOver(item: Item, now: int) {
    item.state == Deferred && item.dueAt.Some? && item.dueAt.value <= now
  }

  function ReapLease(item: Item, now: int): Item {
    if LeaseExpired(item, now) then Released(item, Ready) else item
  }

  function ReapDue(item: Item, now: int): Item {
    if DeferralOver(item, now) then item.(state := Ready) else item
  }

  predicate Due(item: Item, now: int) {
    item.dueAt.None? || item.dueAt.value <= now
  }

  predicate Eligible(item: Item, now: int, exclude: Option<string>) {
    item.state == Ready && exclude != Some(item.id) && Due(item, now)
  }

  /** The order of the queue: higher score first, then earlier creation. */
  predicate Before(a: Item, b: Item) {
    a.score > b.score || (a.score == b.score && a.createdAt < b.createdAt)
  }

  /** The position of the first item that sorting the eligible ones would put in front. */
  function Best(queue: Queue, now: int, exclude: Option<string>): (r: Option<nat>)
    ensures r.Some? ==> r.value < |queue|
  {
    if queue == [] then None
    else
      var last := |queue| - 1;
      var best := Best(queue[..last], now, exclude);
      if Eligible(queue[last], now, exclude) && (best.None? || Before(queue[last], queue[best.value]))
      then Some(last) else best
  }

  /** The sweep an operation begins with: expired leases first, then deferrals. */
  function Swept(item: Item, op: Op): Item {
    if op.LeaseNext? || op.NextItem? then ReapDue(ReapLease(item, op.now), op.now)
    else if op.ListQueue? then ReapDue(item, op.now)
    else item
  }

  function Sweep(queue: Queue, op: Op): (r: Queue)
    ensures |r| == |queue| && forall i :: 0 <= i < |r| ==> r[i] == Swept(queue[i], op)
  {
    if queue == [] then [] else [Swept(queue[0], op)] + Sweep(queue[1..], op)
  }

  lemma SweepIs(queue: Queue, op: Op, swept: Queue)
    requires |swept| == |queue| && forall i :: 0 <= i < |queue| ==> swept[i] == Swept(queue[i], op)
    ensures Sweep(queue, op) == swept
  {
  }

  /** The position of the item an operation is about, if there is one. */
  function Target(queue: Queue, op: Op): (r: Option<nat>)
    ensures r.Some? ==> r.value < |queue|
  {
    match op
    case LeaseNext(_, now, _, exclude) => Best(Sweep(queue, op), now, exclude)
    case Renew(id, owner, _, _) =>
      var at := ById(queue, id);
      if at.Some? && queue[at.value].state == Leased && queue[at.value].owner == Some(owner) then at else None
    case MarkDone(id, _) => ById(queue, id)
    case Ignore(id, _) => ById(queue, id)
    case Defer(id, _, _) => ById(queue, id)
    case BumpPriority(id, _, _) => ById(queue, id)
    case AgentWaits(packetId, _, _) => ByPacket(queue, packetId)
    case AgentMovesOn(packetId, _) => ByPacket(queue, packetId)
    case ListQueue(_) => None
    case NextItem(_) => None
    case Add(_, _) => None
  }

  function Granted(item: Item, owner: string, expiry: int): Item {
    item.(state := Leased, owner := Some(owner), expiresAt := Some(expiry))
  }

  function LeasedAt(queue: Queue, at: Option<nat>, owner: string, expiry: int): (r: Queue)
    ensures |r| == |queue|
  {
    if at.Some? && at.value < |queue| then queue[at.value := Granted(queue[at.value], owner, expiry)] else queue
  }

  /** What becomes of that item. */
  function Change(item: Item, op: Op): Item {
    match op
    case LeaseNext(owner, now, leaseMs, _) => Granted(item, owner, now + leaseMs)
    case Renew(_, _, now, leaseMs) => item.(expiresAt := Some(now + leaseMs))
    case MarkDone(_, _) => Released(item, Done)
    case Ignore(_, _) => Released(item, Dead)
    case Defer(_, dueAt, _) => Released(item, Deferred).(dueAt := Some(dueAt))
    case BumpPriority(_, bump, _) => Scored(item, bump)
    case AgentWaits(_, waiting, _) => Released(item, Ready).(score := waiting.score, dueAt := None)
    case AgentMovesOn(_, _) => if Closed(item) then item else Released(item, Done).(dueAt := None)
    case _ => item
  }

  function Scored(item: Item, bump: Bump): Item {
    var next := if bump.Score? then bump.score else item.score + bump.delta;
    item.(score := Max(0, Min(MAX_SCORE, next)))
  }

  predicate Closed(item: Item) {
    item.state == Done || item.state == Dead
  }

  predicate Appends(queue: Queue, op: Op) {
    op.Add? || (op.AgentWaits? && Target(queue, op).None?)
  }

  function Apply(queue: Queue, op: Op): Queue {
    var swept := Sweep(queue, op);
    if Appends(queue, op) then swept + [op.item] else Changed(swept, Target(queue, op), op)
  }

  function Changed(queue: Queue, at: Option<nat>, op: Op): (r: Queue)
    ensures |r| == |queue|
  {
    if at.Some? && at.value < |queue| then queue[at.value := Change(queue[at.value], op)] else queue
  }

  function Count(queue: Queue, wanted: Item -> bool): nat {
    if queue == [] then 0
    else Count(queue[..|queue| - 1], wanted) + if wanted(queue[|queue| - 1]) then 1 else 0
  }

  /** The store: an array of items that every operation changes in place. */
  class QueueStore {
    var queue: Queue

    constructor (items: seq<Item>)
      ensures queue == items
    {
      queue := items;
    }

    method ReapLeases(now: int) returns (reaped: nat)
      modifies this
      ensures reaped == Count(old(queue), item => LeaseExpired(item, now))
      ensures |queue| == |old(queue)| && forall i :: 0 <= i < |queue| ==> queue[i] == ReapLease(old(queue)[i], now)
    {
      reaped := 0;
      var i := 0;
      while i < |queue|
        invariant 0 <= i <= |queue| == |old(queue)|
        invariant forall j :: 0 <= j < |queue| ==> queue[j] == if j < i then ReapLease(old(queue)[j], now) else old(queue)[j]
        invariant reaped == Count(old(queue)[..i], item => LeaseExpired(item, now))
      {
        var item := queue[i];
        assert old(queue)[..i + 1][..i] == old(queue)[..i];
        if item.state == Leased && item.expiresAt.Some? && item.expiresAt.value <= now {
          queue := queue[i := item.(state := Ready, owner := None, expiresAt := None)];
          reaped := reaped + 1;
        }
        i := i + 1;
      }
      assert old(queue)[..i] == old(queue);
    }

    method ReapDeferred(now: int) returns (reaped: nat)
      modifies this
      ensures reaped == Count(old(queue), item => DeferralOver(item, now))
      ensures |queue| == |old(queue)| && forall i :: 0 <= i < |queue| ==> queue[i] == ReapDue(old(queue)[i], now)
    {
      reaped := 0;
      var i := 0;
      while i < |queue|
        invariant 0 <= i <= |queue| == |old(queue)|
        invariant forall j :: 0 <= j < |queue| ==> queue[j] == if j < i then ReapDue(old(queue)[j], now) else old(queue)[j]
        invariant reaped == Count(old(queue)[..i], item => DeferralOver(item, now))
      {
        var item := queue[i];
        assert old(queue)[..i + 1][..i] == old(queue)[..i];
        if item.state == Deferred && item.dueAt.Some? && item.dueAt.value <= now {
          queue := queue[i := item.(state := Ready)];
          reaped := reaped + 1;
        }
        i := i + 1;
      }
      assert old(queue)[..i] == old(queue);
    }

    method ReapBoth(now: int, ghost op: Op)
      requires (op.LeaseNext? || op.NextItem?) && op.now == now
      modifies this
      ensures queue == Sweep(old(queue), op)
    {
      ghost var before := queue;
      var _ := ReapLeases(now);
      var _ := ReapDeferred(now);
      SweepIs(before, op, queue);
    }

    method Lease(owner: string, now: int, leaseMs: int, exclude: Option<string>) returns (granted: Option<Item>)
      modifies this
      ensures queue == Apply(old(queue), LeaseNext(owner, now, leaseMs, exclude))
      ensures var at := Target(old(queue), LeaseNext(owner, now, leaseMs, exclude));
              granted == if at.Some? then Some(queue[at.value]) else None
    {
      ghost var before, op := queue, LeaseNext(owner, now, leaseMs, exclude);
      ReapBoth(now, op);
      ghost var swept := queue;
      granted := LeaseBest(owner, now, leaseMs, exclude);
      GrantIs(before, op, swept, queue);
    }

    /** Leases the first eligible item in queue order. */
    method LeaseBest(owner: string, now: int, leaseMs: int, exclude: Option<string>) returns (granted: Option<Item>)
      modifies this
      ensures var at := Best(old(queue), now, exclude);
              && queue == LeasedAt(old(queue), at, owner, now + leaseMs)
              && granted == if at.Some? then Some(queue[at.value]) else None
    {
      var at := Best(queue, now, exclude);
      if at.None? {
        return None;
      }
      var item := queue[at.value];
      queue := queue[at.value := item.(state := Leased, owner := Some(owner), expiresAt := Some(now + leaseMs))];
      return Some(queue[at.value]);
    }

    method RenewLease(id: string, owner: string, now: int, leaseMs: int) returns (renewed: Option<Item>)
      modifies this
      ensures queue == Apply(old(queue), Renew(id, owner, now, leaseMs))
      ensures var at := Target(old(queue), Renew(id, owner, now, leaseMs));
              renewed == if at.Some? then Some(queue[at.value]) else None
    {
      var at := ById(queue, id);
      if at.None? || queue[at.value].state != Leased || queue[at.value].owner != Some(owner) {
        return None;
      }
      queue := queue[at.value := queue[at.value].(expiresAt := Some(now + leaseMs))];
      return Some(queue[at.value]);
    }

    method Finish(id: string, done: bool, now: int) returns (found: bool)
      modifies this
      ensures queue == Apply(old(queue), if done then MarkDone(id, now) else Ignore(id, now))
      ensures found <==> ById(old(queue), id).Some?
    {
      var at := ById(queue, id);
      if at.None? {
        return false;
      }
      var state := if done then Done else Dead;
      queue := queue[at.value := queue[at.value].(state := state, owner := None, expiresAt := None)];
      return true;
    }

    method DeferItem(id: string, dueAt: int, now: int) returns (found: bool)
      modifies this
      ensures queue == Apply(old(queue), Defer(id, dueAt, now))
      ensures found <==> ById(old(queue), id).Some?
    {
      var at := ById(queue, id);
      if at.None? {
        return false;
      }
      var item := queue[at.value];
      queue := queue[at.value := item.(state := Deferred, dueAt := Some(dueAt), owner := None, expiresAt := None)];
      return true;
    }

    method BumpItemPriority(id: string, bump: Bump, now: int) returns (found: bool)
      modifies this
      ensures queue == Apply(old(queue), BumpPriority(id, bump, now))
      ensures found <==> ById(old(queue), id).Some?
    {
      var at := ById(queue, id);
      if at.None? {
        return false;
      }
      var item := queue[at.value];
      var next := match bump case Score(score) => score case Delta(delta) => item.score + delta;
      queue := queue[at.value := item.(score := Max(0, Min(MAX_SCORE, next)))];
      return true;
    }

    /** An agent run waits for a human: its item is reopened, or appended if it has none. */
    method AgentRunWaits(packetId: string, item: Item, now: int) returns (created: bool)
      modifies this
      ensures queue == Apply(old(queue), AgentWaits(packetId, item, now))
      ensures created <==> ByPacket(old(queue), packetId).None?
    {
      var at := ByPacket(queue, packetId);
      if at.None? {
        queue := queue + [item];
        return true;
      }
      queue := queue[at.value := queue[at.value].(state := Ready, score := item.score, dueAt := None,
                                                  owner := None, expiresAt := None)];
      return false;
    }

    /** An agent run no longer waits: its item is finished unless it already was. */
    method AgentRunMovesOn(packetId: string, now: int)
      modifies this
      ensures queue == Apply(old(queue), AgentMovesOn(packetId, now))
    {
      var at := ByPacket(queue, packetId);
      if at.None? || queue[at.value].state == Done || queue[at.value].state == Dead {
        return;
      }
      queue := queue[at.value := queue[at.value].(state := Done, owner := None, expiresAt := None, dueAt := None)];
    }
  }

  // ---------------------------------------------------------------- one operation

  /** `r` is where sorting the eligible items (a stable sort) puts its first element. */
  ghost predicate IsFirst(queue: Queue, now: int, exclude: Option<string>, r: Option<nat>) {
    match r
    case None => forall j :: 0 <= j < |queue| ==> !Eligible(queue[j], now, exclude)
    case Some(x) =>
      && x < |queue| && Eligible(queue[x], now, exclude)
      && forall j :: 0 <= j < |queue| && Eligible(queue[j], now, exclude) ==>
           !Before(queue[j], queue[x]) && (j < x ==> Before(queue[x], queue[j]))
  }

  lemma {:induction false} BestIsFirst(queue: Queue, now: int, exclude: Option<string>)
    ensures IsFirst(queue, now, exclude, Best(queue, now, exclude))
  {
    if queue != [] {
      var last := |queue| - 1;
      BestIsFirst(queue[..last], now, exclude);
      assert forall j :: 0 <= j < last ==> queue[..last][j] == queue[j];
    }
  }

  /** A lease goes to the first eligible item in queue order (none only if there is none),
      is held by the asker until the agreed time, and touches no other item but by sweeping. */
  lemma GrantMeaning(queue: Queue, op: Op)
    requires op.LeaseNext?
    ensures var swept := Sweep(queue, op);
            var at := Target(queue, op);
            && IsFirst(swept, op.now, op.exclude, at)
            && |Apply(queue, op)| == |queue|
            && forall i :: 0 <= i < |queue| ==>
                 Apply(queue, op)[i] ==
                 if at == Some(i) then Granted(swept[i], op.owner, op.now + op.leaseMs) else swept[i]
  {
    BestIsFirst(Sweep(queue, op), op.now, op.exclude);
    LeaseTouchesOne(queue, op);
  }

  lemma LeaseTouchesOne(queue: Queue, op: Op)
    requires op.LeaseNext?
    ensures Target(queue, op) == Best(Sweep(queue, op), op.now, op.exclude)
    ensures Apply(queue, op) == LeasedAt(Sweep(queue, op), Target(queue, op), op.owner, op.now + op.leaseMs)
  {
    LeasedIsChanged(Sweep(queue, op), Target(queue, op), op);
  }

  /** Two sweeps and then a grant are the operation. */
  lemma GrantIs(before: Queue, op: Op, swept: Queue, after: Queue)
    requires op.LeaseNext? && swept == Sweep(before, op)
    requires after == LeasedAt(swept, Best(swept, op.now, op.exclude), op.owner, op.now + op.leaseMs)
    ensures after == Apply(before, op) && Target(before, op) == Best(swept, op.now, op.exclude)
  {
    LeaseTouchesOne(before, op);
  }

  lemma LeasedIsChanged(queue: Queue, at: Option<nat>, op: Op)
    requires op.LeaseNext?
    ensures Changed(queue, at, op) == LeasedAt(queue, at, op.owner, op.now + op.leaseMs)
  {
  }

  /** What an operation makes of one item, given whether it is about that item. */
  function ItemStep(item: Item, op: Op, target: bool): Item {
    if target then Change(Swept(item, op), op) else Swept(item, op)
  }

  /** Every operation is a sweep, then at most one item changed or appended. */
  lemma ItemAfter(queue: Queue, op: Op, x: nat)
    requires x < |queue|
    ensures |Apply(queue, op)| >= |queue|
    ensures Apply(queue, op)[x] == ItemStep(queue[x], op, Target(queue, op) == Some(x))
  {
  }

  // ---------------------------------------------------------------- what each operation does

  /** Only the item at `x` may differ. */
  predicate OnlyAt(before: Queue, after: Queue, x: nat) {
    |after| == |before| && forall j :: 0 <= j < |before| && j != x ==> after[j] == before[j]
  }

  /** Finishing, ignoring, deferring and bumping change the first item of that id: done and
      ignored work loses its lease, deferred work its lease for a time, and a score is set or
      moved as far as 0 and 10000 allow. */
  lemma NamedItemChanges(queue: Queue, op: Op, x: nat)
    requires (op.MarkDone? || op.Ignore? || op.Defer? || op.BumpPriority?) && x < |queue|
    requires queue[x].id == op.id && forall j :: 0 <= j < x ==> queue[j].id != op.id
    ensures OnlyAt(queue, Apply(queue, op), x)
    ensures var (was, becomes) := (queue[x], Apply(queue, op)[x]);
            match op
            case MarkDone(_, _) => becomes == was.(state := Done, owner := None, expiresAt := None)
            case Ignore(_, _) => becomes == was.(state := Dead, owner := None, expiresAt := None)
            case Defer(_, dueAt, _) =>
              becomes == was.(state := Deferred, owner := None, expiresAt := None, dueAt := Some(dueAt))
            case BumpPriority(_, bump, _) =>
              && becomes == was.(score := becomes.score)
              && var wanted := match bump case Score(score) => score case Delta(delta) => was.score + delta;
                 becomes.score == if wanted < 0 then 0 else if wanted > 10_000 then 10_000 else wanted
            case _ => true
  {
    assert Target(queue, op) == Some(x);
  }

  /** A waiting agent run reopens the first item of its packet with the score it brings and no
      due time or lease; one that moved on finishes it, unless it was done or dead. */
  lemma AgentItemChanges(queue: Queue, op: Op, x: nat)
    requires (op.AgentWaits? || op.AgentMovesOn?) && x < |queue|
    requires queue[x].packetId == op.packetId && forall j :: 0 <= j < x ==> queue[j].packetId != op.packetId
    ensures OnlyAt(queue, Apply(queue, op), x)
    ensures var (was, becomes) := (queue[x], Apply(queue, op)[x]);
            if op.AgentWaits? then
              becomes == was.(state := Ready, score := op.item.score, dueAt := None, owner := None, expiresAt := None)
            else if was.state == Done || was.state == Dead then becomes == was
            else becomes == was.(state := Done, dueAt := None, owner := None, expiresAt := None)
  {
    assert Target(queue, op) == Some(x);
  }

  /** What names no item changes nothing, but a waiting agent run brings a new one, as adding
      does. */
  lemma AbsentItemChangesNothing(queue: Queue, op: Op)
    requires !op.LeaseNext? && !op.ListQueue? && !op.NextItem?
    requires op.AgentWaits? || op.AgentMovesOn? ==> forall j :: 0 <= j < |queue| ==> queue[j].packetId != op.packetId
    requires op.Renew? || op.MarkDone? || op.Ignore? || op.Defer? || op.BumpPriority? ==>
               forall j :: 0 <= j < |queue| ==> queue[j].id != op.id
    ensures Apply(queue, op) == if op.AgentWaits? || op.Add? then queue + [op.item] else queue
  {
    assert Target(queue, op).None?;
    assert Sweep(queue, op) == queue;
  }

  /** Asking for the next item ends the leases and the deferrals that are over, listing only the
      deferrals. */
  lemma ReadingSweeps(queue: Queue, op: Op, x: nat)
    requires (op.NextItem? || op.ListQueue?) && x < |queue|
    ensures |Apply(queue, op)| == |queue|
    ensures var (was, becomes) := (queue[x], Apply(queue, op)[x]);
            if op.NextItem? && was.state == Leased && was.expiresAt.Some? && was.expiresAt.value <= op.now
            then becomes == was.(state := Ready, owner := None, expiresAt := None)
            else if was.state == Deferred && was.dueAt.Some? && was.dueAt.value <= op.now
            then becomes == was.(state := Ready)
            else becomes == was
  {
    ItemAfter(queue, op, x);
  }

  // ---------------------------------------------------------------- whole runs

  /** A run: the queue before every operation and at the end. */
  ghost predicate IsRun(queues: seq<Queue>, ops: seq<Op>) {
    && |queues| == |ops| + 1
    && forall m :: 0 <= m < |ops| ==> queues[m + 1] == Apply(queues[m], ops[m])
  }

  predicate About(queue: Queue, op: Op, x: nat) {
    Target(queue, op) == Some(x)
  }

  /** Which operations of a run are about the item at `x`. */
  ghost function Mine(queues: seq<Queue>, ops: seq<Op>, x: nat): (mine: seq<bool>)
    requires |queues| == |ops| + 1
    ensures |mine| == |ops| && forall m :: 0 <= m < |ops| ==> mine[m] == About(queues[m], ops[m], x)
  {
    seq(|ops|, m requires 0 <= m < |ops| => About(queues[m], ops[m], x))
  }

  /** The run as one item sees it. */
  ghost predicate ItemRun(queues: seq<Queue>, ops: seq<Op>, mine: seq<bool>, x: nat) {
    && |queues| == |ops| + 1 == |mine| + 1
    && forall m :: 0 <= m < |ops| && x < |queues[m]| ==>
         x < |queues[m + 1]| && queues[m + 1][x] == ItemStep(queues[m][x], ops[m], mine[m])
  }

  lemma RunOfItem(queues: seq<Queue>, ops: seq<Op>, x: nat)
    requires IsRun(queues, ops)
    ensures ItemRun(queues, ops, Mine(queues, ops, x), x)
  {
    forall m | 0 <= m < |ops| && x < |queues[m]|
      ensures x < |queues[m + 1]|
      ensures queues[m + 1][x] == ItemStep(queues[m][x], ops[m], About(queues[m], ops[m], x))
    {
      ItemAfter(queues[m], ops[m], x);
    }
  }

  // ---------------------------------------------------------------- who is leased

  /** The item can be had at that time: it is ready, or its lease or its deferral is over, its
      time has come, and it is not the one excluded. */
  predicate OnOffer(item: Item, now: int, exclude: Option<string>) {
    && (match item.state
        case Ready => true
        case Leased => item.expiresAt.Some? && item.expiresAt.value <= now
        case Deferred => item.dueAt.Some?
        case Done => false
        case Dead => false)
    && (item.dueAt.None? || item.dueAt.value <= now)
    && (exclude.None? || item.id != exclude.value)
  }

  lemma OnOfferMeaning(item: Item, op: Op)
    requires op.LeaseNext?
    ensures Eligible(Swept(item, op), op.now, op.exclude) <==> OnOffer(item, op.now, op.exclude)
    ensures Swept(item, op).score == item.score && Swept(item, op).createdAt == item.createdAt
  {
  }

  /** Who is leased: of all items on offer the one of the highest score, among those of the
      same score the one created first, and among those the first in the queue. */
  lemma HighestIsLeased(queue: Queue, op: Op, x: nat)
    requires op.LeaseNext? && About(queue, op, x)
    ensures x < |queue| && OnOffer(queue[x], op.now, op.exclude)
    ensures var after := Apply(queue, op);
            && |after| == |queue|
            && after[x].state == Leased && after[x].owner == Some(op.owner)
            && after[x].expiresAt == Some(op.now + op.leaseMs) && after[x].score == queue[x].score
    ensures forall j :: 0 <= j < |queue| && j != x && OnOffer(queue[j], op.now, op.exclude) ==>
              || queue[j].score < queue[x].score
              || (queue[j].score == queue[x].score && queue[j].createdAt > queue[x].createdAt)
              || (queue[j].score == queue[x].score && queue[j].createdAt == queue[x].createdAt && j > x)
  {
    GrantMeaning(queue, op);
    OnOfferMeaning(queue[x], op);
    forall j | 0 <= j < |queue| && j != x && OnOffer(queue[j], op.now, op.exclude)
      ensures || queue[j].score < queue[x].score
              || (queue[j].score == queue[x].score && queue[j].createdAt > queue[x].createdAt)
              || (queue[j].score == queue[x].score && queue[j].createdAt == queue[x].createdAt && j > x)
    {
      OnOfferMeaning(queue[j], op);
    }
  }

  lemma FreeIsOffered(queue: Queue, op: Op, x: nat)
    requires op.LeaseNext? && x < |queue| && OnOffer(queue[x], op.now, op.exclude)
    ensures Target(queue, op).Some?
  {
    GrantMeaning(queue, op);
    OnOfferMeaning(queue[x], op);
    assert Eligible(Sweep(queue, op)[x], op.now, op.exclude);
  }

  /** Some item is leased if and only if some item is on offer. */
  lemma SomeIsLeased(queue: Queue, op: Op)
    requires op.LeaseNext?
    ensures (exists x :: 0 <= x < |queue| && About(queue, op, x)) <==>
            (exists x :: 0 <= x < |queue| && OnOffer(queue[x], op.now, op.exclude))
  {
    if x :| 0 <= x < |queue| && OnOffer(queue[x], op.now, op.exclude) {
      FreeIsOffered(queue, op, x);
      assert About(queue, op, Target(queue, op).value);
    }
    if x :| 0 <= x < |queue| && About(queue, op, x) {
      HighestIsLeased(queue, op, x);
    }
  }

  /** No other item becomes leased, or changes its lease. */
  lemma OnlyOneIsLeased(queue: Queue, op: Op, j: nat)
    requires op.LeaseNext? && j < |queue| && !About(queue, op, j)
    ensures |Apply(queue, op)| == |queue|
    ensures Apply(queue, op)[j].state == Leased ==> Apply(queue, op)[j] == queue[j]
  {
    GrantMeaning(queue, op);
    assert Sweep(queue, op)[j] == Swept(queue[j], op);
  }

  /** A lease puts nothing on offer at its own time that was not, and moves no score. */
  lemma OfferShrinks(item: Item, op: Op, target: bool)
    requires op.LeaseNext? && (target ==> OnOffer(item, op.now, op.exclude))
    ensures OnOffer(ItemStep(item, op, target), op.now, op.exclude) ==> OnOffer(item, op.now, op.exclude)
    ensures ItemStep(item, op, target).score == item.score && ItemStep(item, op, target).createdAt == item.createdAt
    ensures target && op.leaseMs > 0 ==> !OnOffer(ItemStep(item, op, target), op.now, op.exclude)
  {
  }

  /** Leases from `i` up to `k`, all at one time and excluding the same. */
  ghost predicate LeasesInARow(ops: seq<Op>, i: nat, k: nat, now: int, exclude: Option<string>)
    requires k <= |ops|
  {
    forall m :: i <= m < k ==> ops[m].LeaseNext? && ops[m].now == now && ops[m].exclude == exclude
  }

  lemma {:induction false} OfferedBefore(queues: seq<Queue>, ops: seq<Op>, mine: seq<bool>,
                                         i: nat, k: nat, y: nat, now: int, exclude: Option<string>)
    requires ItemRun(queues, ops, mine, y) && i <= k <= |ops| && LeasesInARow(ops, i, k, now, exclude)
    requires y < |queues[i]|
    requires forall m :: i <= m < k && y < |queues[m]| && mine[m] ==> OnOffer(queues[m][y], now, exclude)
    ensures y < |queues[k]|
    ensures OnOffer(queues[k][y], now, exclude) ==> OnOffer(queues[i][y], now, exclude)
    ensures queues[k][y].score == queues[i][y].score && queues[k][y].createdAt == queues[i][y].createdAt
    ensures i < k && mine[i] && ops[i].leaseMs > 0 ==> !OnOffer(queues[k][y], now, exclude)
  {
    if i < k {
      OfferedBefore(queues, ops, mine, i, k - 1, y, now, exclude);
      OfferShrinks(queues[k - 1][y], ops[k - 1], mine[k - 1]);
    }
  }

  lemma {:induction false} SameLength(queues: seq<Queue>, ops: seq<Op>, i: nat, k: nat)
    requires IsRun(queues, ops) && i <= k <= |ops| && forall m :: i <= m < k ==> ops[m].LeaseNext?
    ensures |queues[k]| == |queues[i]|
  {
    if i < k {
      SameLength(queues, ops, i, k - 1);
      GrantMeaning(queues[k - 1], ops[k - 1]);
    }
  }

  /** Leases in a row are granted in the order of the queue: of two of them the earlier went to
      the higher score, at the same score to the one created first, and then to the one in
      front; to the same item only where the earlier lease was over at once. */
  lemma LeasesDescend(queues: seq<Queue>, ops: seq<Op>, i: nat, j: nat, x: nat, y: nat)
    requires IsRun(queues, ops) && i < j < |ops|
    requires ops[i].LeaseNext? && LeasesInARow(ops, i, j + 1, ops[i].now, ops[i].exclude)
    requires About(queues[i], ops[i], x) && About(queues[j], ops[j], y)
    ensures x < |queues[i]| && y < |queues[j]|
    ensures || queues[i][x].score > queues[j][y].score
            || (queues[i][x].score == queues[j][y].score && queues[i][x].createdAt < queues[j][y].createdAt)
            || (queues[i][x].score == queues[j][y].score && queues[i][x].createdAt == queues[j][y].createdAt && x <= y)
    ensures ops[i].leaseMs > 0 ==> x != y
  {
    var now, exclude, mine := ops[i].now, ops[i].exclude, Mine(queues, ops, y);
    HighestIsLeased(queues[i], ops[i], x);
    HighestIsLeased(queues[j], ops[j], y);
    SameLength(queues, ops, i, j);
    RunOfItem(queues, ops, y);
    forall m | i <= m < j && y < |queues[m]| && mine[m]
      ensures OnOffer(queues[m][y], now, exclude)
    {
      HighestIsLeased(queues[m], ops[m], y);
    }
    OfferedBefore(queues, ops, mine, i, j, y, now, exclude);
  }

  predicate SameItem(a: Item, b: Item) {
    a.id == b.id && a.packetId == b.packetId && a.createdAt == b.createdAt
  }

  lemma StepKeepsIdentity(item: Item, op: Op, target: bool)
    ensures SameItem(item, ItemStep(item, op, target))
  {
  }

  lemma {:induction false} ItemLives(queues: seq<Queue>, ops: seq<Op>, mine: seq<bool>, i: nat, k: nat, x: nat)
    requires ItemRun(queues, ops, mine, x) && i <= k <= |ops| && x < |queues[i]|
    ensures x < |queues[k]| && SameItem(queues[i][x], queues[k][x])
  {
    if i < k {
      ItemLives(queues, ops, mine, i, k - 1, x);
      StepKeepsIdentity(queues[k - 1][x], ops[k - 1], mine[k - 1]);
    }
  }

  /** Nothing is ever lost from the queue or takes another's place in it. */
  lemma NothingIsLost(queues: seq<Queue>, ops: seq<Op>, i: nat, k: nat, x: nat)
    requires IsRun(queues, ops) && i <= k <= |ops| && x < |queues[i]|
    ensures x < |queues[k]| && SameItem(queues[i][x], queues[k][x])
  {
    RunOfItem(queues, ops, x);
    ItemLives(queues, ops, Mine(queues, ops, x), i, k, x);
  }

  // ---------------------------------------------------------------- mutual exclusion

  /** The operation grants or renews the lease of the item at `x`, until `Expiry`. */
  predicate Secures(queue: Queue, op: Op, x: nat) {
    (op.LeaseNext? || op.Renew?) && About(queue, op, x)
  }

  function Expiry(op: Op): int
    requires op.LeaseNext? || op.Renew?
  {
    op.now + op.leaseMs
  }

  predicate HeldBy(item: Item, owner: string, expiry: int) {
    item.state == Leased && item.owner == Some(owner) && item.expiresAt == Some(expiry)
  }

  /** No operation from `i` up to `k` is about the item, but for bumping its priority. */
  ghost predicate Untouched(queues: seq<Queue>, ops: seq<Op>, i: nat, k: nat, x: nat)
    requires k <= |ops| < |queues|
  {
    forall m :: i <= m < k ==> !About(queues[m], ops[m], x) || ops[m].BumpPriority?
  }

  ghost predicate ClockReached(ops: seq<Op>, i: nat, k: nat, time: int)
    requires k <= |ops|
  {
    exists m :: i <= m < k && time <= ops[m].now
  }

  lemma HeldStep(item: Item, op: Op, target: bool, owner: string, expiry: int)
    requires HeldBy(item, owner, expiry) && (target ==> op.BumpPriority?)
    ensures HeldBy(ItemStep(item, op, target), owner, expiry) || expiry <= op.now
  {
  }

  lemma {:induction false} ItemHeld(queues: seq<Queue>, ops: seq<Op>, mine: seq<bool>,
                                    i: nat, k: nat, x: nat, owner: string, expiry: int)
    requires ItemRun(queues, ops, mine, x) && i <= k <= |ops| && x < |queues[i]|
    requires HeldBy(queues[i][x], owner, expiry) && forall m :: i <= m < k && mine[m] ==> ops[m].BumpPriority?
    ensures x < |queues[k]|
    ensures HeldBy(queues[k][x], owner, expiry) || ClockReached(ops, i, k, expiry)
  {
    if i < k {
      ItemHeld(queues, ops, mine, i, k - 1, x, owner, expiry);
      if HeldBy(queues[k - 1][x], owner, expiry) {
        HeldStep(queues[k - 1][x], ops[k - 1], mine[k - 1], owner, expiry);
      }
    }
  }

  lemma SecuredStep(item: Item, op: Op)
    requires op.LeaseNext? || (op.Renew? && item.state == Leased && item.owner == Some(op.owner))
    ensures HeldBy(ItemStep(item, op, true), op.owner, Expiry(op))
  {
  }

  /** From a grant or renewal on, as long as no operation is about the item, it stays leased
      to the same owner with the same expiry unless a clock read since then had reached that. */
  lemma LeaseHolds(queues: seq<Queue>, ops: seq<Op>, i: nat, k: nat, x: nat)
    requires IsRun(queues, ops) && i < k <= |ops|
    requires Secures(queues[i], ops[i], x) && Untouched(queues, ops, i + 1, k, x)
    ensures x < |queues[k]|
    ensures HeldBy(queues[k][x], ops[i].owner, Expiry(ops[i])) || ClockReached(ops, i + 1, k, Expiry(ops[i]))
  {
    RunOfItem(queues, ops, x);
    SecuredStep(queues[i][x], ops[i]);
    ItemHeld(queues, ops, Mine(queues, ops, x), i + 1, k, x, ops[i].owner, Expiry(ops[i]));
  }

  lemma GrantOfHeld(queue: Queue, op: Op, x: nat, owner: string, expiry: int)
    requires x < |queue| && HeldBy(queue[x], owner, expiry)
    requires op.LeaseNext? && About(queue, op, x)
    ensures expiry <= op.now
  {
    GrantMeaning(queue, op);
    assert Sweep(queue, op)[x] == Swept(queue[x], op);
  }

  /** Mutual exclusion over every run: if the item leased (or renewed) by step i is leased
      again by step j, and no step in between was about it, then the time agreed at i has come:
      some clock read after i had reached it, and with clocks that do not go back, the clock of
      j itself has. */
  lemma NoEarlyHandover(queues: seq<Queue>, ops: seq<Op>, i: nat, j: nat, x: nat)
    requires IsRun(queues, ops) && i < j < |ops|
    requires Secures(queues[i], ops[i], x) && Untouched(queues, ops, i + 1, j, x)
    requires ops[j].LeaseNext? && About(queues[j], ops[j], x)
    ensures ClockReached(ops, i + 1, j + 1, Expiry(ops[i]))
    ensures (forall m :: i < m <= j ==> ops[m].now <= ops[j].now) ==> Expiry(ops[i]) <= ops[j].now
  {
    LeaseHolds(queues, ops, i, j, x);
    if HeldBy(queues[j][x], ops[i].owner, Expiry(ops[i])) {
      GrantOfHeld(queues[j], ops[j], x, ops[i].owner, Expiry(ops[i]));
    }
  }

  /** Leaves a lease with its owner. */
  predicate KeepsOwner(op: Op) {
    op.Renew? || op.BumpPriority? || op.ListQueue? || op.NextItem? || op.Add?
  }

  predicate OwnedBy(item: Item, owner: string) {
    item.state == Leased && item.owner == Some(owner)
  }

  /** An item is leased after a step because the step leased it, or because it was and the step
      left it so. */
  lemma OwnedStep(item: Item, op: Op, target: bool, owner: string)
    requires OwnedBy(ItemStep(item, op, target), owner)
    ensures (target && op.LeaseNext? && op.owner == owner) || (OwnedBy(item, owner) && (target ==> KeepsOwner(op)))
  {
  }

  lemma {:induction false} OwnedSince(queues: seq<Queue>, ops: seq<Op>, mine: seq<bool>, s: nat, j: nat, x: nat, owner: string)
    returns (i: nat)
    requires ItemRun(queues, ops, mine, x) && s <= j <= |ops|
    requires x < |queues[s]| && queues[s][x].state != Leased
    requires x < |queues[j]| && OwnedBy(queues[j][x], owner)
    ensures s <= i < j && mine[i] && ops[i].LeaseNext? && ops[i].owner == owner
    ensures forall m :: i < m <= j ==> x < |queues[m]| && OwnedBy(queues[m][x], owner)
    ensures forall m :: i < m < j && mine[m] ==> KeepsOwner(ops[m])
  {
    ItemLives(queues, ops, mine, s, j - 1, x);
    OwnedStep(queues[j - 1][x], ops[j - 1], mine[j - 1], owner);
    if mine[j - 1] && ops[j - 1].LeaseNext? && ops[j - 1].owner == owner {
      i := j - 1;
    } else {
      i := OwnedSince(queues, ops, mine, s, j - 1, x, owner);
    }
  }

  /** Over any run from a point at which an item was not leased: whoever renews its lease is the
      one to whom it was last granted. From that grant to the renewal the item was leased to that
      owner all along, and only renewals, all by the same owner, and changes of priority were
      about it. */
  lemma RenewalIsTheOwners(queues: seq<Queue>, ops: seq<Op>, s: nat, j: nat, x: nat) returns (i: nat)
    requires IsRun(queues, ops) && s <= j < |ops| && x < |queues[s]| && queues[s][x].state != Leased
    requires ops[j].Renew? && About(queues[j], ops[j], x)
    ensures s <= i < j && ops[i].LeaseNext? && About(queues[i], ops[i], x) && ops[i].owner == ops[j].owner
    ensures forall m :: i < m <= j ==> x < |queues[m]| && OwnedBy(queues[m][x], ops[j].owner)
    ensures forall m :: i < m < j && About(queues[m], ops[m], x) ==>
              ops[m].BumpPriority? || (ops[m].Renew? && ops[m].owner == ops[j].owner)
  {
    RunOfItem(queues, ops, x);
    RenewedIsOwned(queues[j], ops[j], x);
    i := OwnedSince(queues, ops, Mine(queues, ops, x), s, j, x, ops[j].owner);
    forall m | i < m < j && About(queues[m], ops[m], x)
      ensures ops[m].BumpPriority? || (ops[m].Renew? && ops[m].owner == ops[j].owner)
    {
      assert Mine(queues, ops, x)[m];
      if ops[m].Renew? {
        RenewedIsOwned(queues[m], ops[m], x);
      }
    }
  }

  /** A renewal moves nothing but the expiry, and only of a lease of its owner. */
  lemma RenewalMovesExpiry(queue: Queue, op: Op)
    requires op.Renew?
    ensures Target(queue, op).None? ==> Apply(queue, op) == queue
    ensures Target(queue, op).Some? ==>
              var x := Target(queue, op).value;
              && queue[x].id == op.id && OwnedBy(queue[x], op.owner)
              && (forall j :: 0 <= j < x ==> queue[j].id != op.id)
              && Apply(queue, op) == queue[x := queue[x].(expiresAt := Some(op.now + op.leaseMs))]
  {
  }

  lemma RenewedIsOwned(queue: Queue, op: Op, x: nat)
    requires op.Renew? && About(queue, op, x)
    ensures x < |queue| && OwnedBy(queue[x], op.owner)
  {
    RenewalMovesExpiry(queue, op);
  }

  // ---------------------------------------------------------------- finished work

  predicate Reopens(queue: Queue, op: Op, x: nat) {
    (op.Defer? || op.AgentWaits?) && About(queue, op, x)
  }

  ghost predicate EverReopened(queues: seq<Queue>, ops: seq<Op>, i: nat, j: nat, x: nat)
    requires j <= |ops| < |queues|
  {
    exists m :: i <= m < j && Reopens(queues[m], ops[m], x)
  }

  lemma NotOfferedWhileClosed(queue: Queue, op: Op, x: nat)
    requires x < |queue| && Closed(queue[x]) && (op.LeaseNext? || op.Renew?)
    ensures !About(queue, op, x)
  {
    if op.LeaseNext? {
      GrantMeaning(queue, op);
      assert Sweep(queue, op)[x] == queue[x];
    }
  }

  lemma ClosedItemStep(item: Item, op: Op, target: bool)
    requires Closed(item) && (target ==> !op.LeaseNext? && !op.Renew?)
    ensures Closed(ItemStep(item, op, target)) <==> !(target && (op.Defer? || op.AgentWaits?))
  {
  }

  /** One step leaves finished work finished unless it reopens it, and then it does not. */
  lemma ClosedStep(queue: Queue, op: Op, x: nat)
    requires x < |queue| && Closed(queue[x])
    ensures Closed(ItemStep(queue[x], op, About(queue, op, x))) <==> !Reopens(queue, op, x)
  {
    if op.LeaseNext? || op.Renew? {
      NotOfferedWhileClosed(queue, op, x);
    }
    ClosedItemStep(queue[x], op, About(queue, op, x));
  }

  lemma {:induction false} ItemStaysClosed(queues: seq<Queue>, ops: seq<Op>, mine: seq<bool>, i: nat, j: nat, x: nat)
    requires ItemRun(queues, ops, mine, x) && i <= j <= |ops| && x < |queues[i]| && Closed(queues[i][x])
    requires forall m :: i <= m < j && x < |queues[m]| && Closed(queues[m][x]) && mine[m] ==>
               !ops[m].LeaseNext? && !ops[m].Renew?
    ensures x < |queues[j]|
    ensures Closed(queues[j][x]) || exists m :: i <= m < j && mine[m] && (ops[m].Defer? || ops[m].AgentWaits?)
  {
    if i < j {
      ItemStaysClosed(queues, ops, mine, i, j - 1, x);
      if Closed(queues[j - 1][x]) {
        ClosedItemStep(queues[j - 1][x], ops[j - 1], mine[j - 1]);
      }
    }
  }

  /** Work that is done or ignored stays so, and is not leased again, until a deferral or an
      agent run reopens it. */
  lemma ClosedUntilReopened(queues: seq<Queue>, ops: seq<Op>, i: nat, j: nat, x: nat)
    requires IsRun(queues, ops) && i <= j <= |ops| && x < |queues[i]| && Closed(queues[i][x])
    ensures x < |queues[j]| && (Closed(queues[j][x]) || EverReopened(queues, ops, i, j, x))
    ensures j < |ops| && Secures(queues[j], ops[j], x) ==> EverReopened(queues, ops, i, j, x)
  {
    var mine := Mine(queues, ops, x);
    RunOfItem(queues, ops, x);
    forall m | i <= m < |ops| && x < |queues[m]| && Closed(queues[m][x]) && mine[m]
      ensures !ops[m].LeaseNext? && !ops[m].Renew?
    {
      if ops[m].LeaseNext? || ops[m].Renew? {
        NotOfferedWhileClosed(queues[m], ops[m], x);
      }
    }
    ItemStaysClosed(queues, ops, mine, i, j, x);
    if m :| i <= m < j && mine[m] && (ops[m].Defer? || ops[m].AgentWaits?) {
      assert Reopens(queues[m], ops[m], x);
    }
  }

  /** Deferring does reopen it, because the operation does not look at the state: a finished
      item that is deferred is leased again at its new time. */
  lemma DeferReopensDoneWork(item: Item, dueAt: int, now: int, owner: string, leaseMs: int)
    requires Closed(item)
    ensures About(Apply([item], Defer(item.id, dueAt, now)), LeaseNext(owner, dueAt, leaseMs, None), 0)
  {
  }

  predicate MovesDue(op: Op) {
    op.Defer? || op.AgentWaits? || op.AgentMovesOn?
  }

  predicate SetsDue(queue: Queue, op: Op, x: nat) {
    MovesDue(op) && About(queue, op, x)
  }

  lemma DueStep(item: Item, op: Op, target: bool)
    requires target ==> !MovesDue(op)
    ensures ItemStep(item, op, target).dueAt == item.dueAt
  {
  }

  lemma {:induction false} DueStays(queues: seq<Queue>, ops: seq<Op>, mine: seq<bool>, i: nat, j: nat, x: nat)
    requires ItemRun(queues, ops, mine, x) && i <= j <= |ops| && x < |queues[i]|
    requires forall m :: i <= m < j && mine[m] ==> !MovesDue(ops[m])
    ensures x < |queues[j]| && queues[j][x].dueAt == queues[i][x].dueAt
  {
    if i < j {
      DueStays(queues, ops, mine, i, j - 1, x);
      DueStep(queues[j - 1][x], ops[j - 1], mine[j - 1]);
    }
  }

  /** A deferred item is not leased before its time, whatever the clocks said in between. */
  lemma DeferralIsKept(queues: seq<Queue>, ops: seq<Op>, i: nat, j: nat, x: nat)
    requires IsRun(queues, ops) && i < j < |ops|
    requires ops[i].Defer? && About(queues[i], ops[i], x)
    requires forall m :: i < m < j ==> !SetsDue(queues[m], ops[m], x)
    requires ops[j].LeaseNext? && About(queues[j], ops[j], x)
    ensures ops[i].dueAt <= ops[j].now
  {
    RunOfItem(queues, ops, x);
    DeferStep(queues[i][x], ops[i]);
    DueStays(queues, ops, Mine(queues, ops, x), i + 1, j, x);
    LeasedIsDue(queues[j], ops[j], x);
  }

  lemma DeferStep(item: Item, op: Op)
    requires op.Defer?
    ensures ItemStep(item, op, true).dueAt == Some(op.dueAt)
  {
  }

  lemma LeasedIsDue(queue: Queue, op: Op, x: nat)
    requires op.LeaseNext? && About(queue, op, x) && x < |queue|
    ensures Due(queue[x], op.now)
  {
    GrantMeaning(queue, op);
    assert Sweep(queue, op)[x] == Swept(queue[x], op);
  }

  // ---------------------------------------------------------------- no lease is stuck

  /** A lease always has an owner and an expiry, and nothing else has either. */
  predicate LeaseFields(item: Item) {
    if item.state == Leased then item.owner.Some? && item.expiresAt.Some? else item.owner.None? && item.expiresAt.None?
  }

  predicate AllLeaseFields(queue: Queue) {
    forall i :: 0 <= i < |queue| ==> LeaseFields(queue[i])
  }

  predicate AddsFit(op: Op) {
    op.Add? || op.AgentWaits? ==> LeaseFields(op.item)
  }

  lemma FieldsStep(item: Item, op: Op, target: bool)
    requires LeaseFields(item) && (target && op.Renew? ==> item.state == Leased)
    ensures LeaseFields(ItemStep(item, op, target))
  {
  }

  lemma Appended(queue: Queue, op: Op)
    ensures |queue| <= |Apply(queue, op)| <= |queue| + 1
    ensures |Apply(queue, op)| > |queue| ==> (op.Add? || op.AgentWaits?) && Apply(queue, op)[|queue|] == op.item
  {
  }

  lemma LeaseFieldsStep(queue: Queue, op: Op)
    requires AllLeaseFields(queue) && AddsFit(op)
    ensures AllLeaseFields(Apply(queue, op))
  {
    Appended(queue, op);
    forall x | 0 <= x < |queue|
      ensures LeaseFields(Apply(queue, op)[x])
    {
      ItemAfter(queue, op, x);
      if op.Renew? && About(queue, op, x) {
        RenewedIsOwned(queue, op, x);
      }
      FieldsStep(queue[x], op, About(queue, op, x));
    }
  }

  lemma {:induction false} LeaseFieldsFit(queues: seq<Queue>, ops: seq<Op>, k: nat)
    requires IsRun(queues, ops) && k <= |ops|
    requires AllLeaseFields(queues[0]) && forall m :: 0 <= m < k ==> AddsFit(ops[m])
    ensures AllLeaseFields(queues[k])
  {
    if k > 0 {
      LeaseFieldsFit(queues, ops, k - 1);
      LeaseFieldsStep(queues[k - 1], ops[k - 1]);
    }
  }

  /** Sweeping passes over a lease without an expiry, but no run makes one: every lease in
      every reachable state is ended by exactly the sweeps whose clock has reached its expiry. */
  lemma EveryLeaseCanEnd(queues: seq<Queue>, ops: seq<Op>, k: nat, x: nat, now: int)
    requires IsRun(queues, ops) && k <= |ops|
    requires AllLeaseFields(queues[0]) && forall m :: 0 <= m < k ==> AddsFit(ops[m])
    requires x < |queues[k]| && queues[k][x].state == Leased
    ensures queues[k][x].expiresAt.Some?
    ensures Sweep(queues[k], NextItem(now))[x].state == Ready <==> queues[k][x].expiresAt.value <= now
  {
    LeaseFieldsFit(queues, ops, k);
  }
}
