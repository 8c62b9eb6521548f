/** The capped activity log of the orchestrator (app/orchestrator/src/observability.ts). */
module ActivityLog {
  import opened Prelude

  /** What the caller records. An instant is None where the text is not a date. */
  datatype Content = Content(
    taskId: Option<string>,
    queueItemId: Option<string>,
    eventId: Option<string>,
    taskSessionId: Option<string>,
    status: Option<string>,
    occurredAt: Option<int>,
    rest: int)

  /** The id is the text `actv_` followed by `number` in decimal. */
  datatype Event = Event(number: nat, content: Content)

  datatype Query = Query(
    limit: Option<int>,
    taskId: Option<string>,
    queueItemId: Option<string>,
    eventId: Option<string>,
    taskSessionId: Option<string>,
    status: Option<string>,
    since: Option<int>)

  const DEFAULT_LIMIT := 100

  // ---------------------------------------------------------------- values

  /** `items.slice(-limit)`: for 0 the whole list, for a negative number all but the first. */
  function SliceBack<T>(items: seq<T>, limit: int): seq<T> {
    if limit > 0 then items[Max(0, |items| - limit)..] else items[Min(|items|, -limit)..]
  }

  /** The last `n` items, or all where there are fewer. */
  function Last<T>(items: seq<T>, n: nat): seq<T> {
    if |items| <= n then items else items[|items| - n..]
  }

  function Reversed<T>(items: seq<T>): seq<T> {
    if items == [] then [] else [items[|items| - 1]] + Reversed(items[..|items| - 1])
  }

  /** A filter that is absent or empty lets everything through. */
  predicate Allows(wanted: Option<string>, actual: Option<string>) {
    wanted.None? || wanted.value == "" || actual == wanted
  }

  predicate Matches(event: Event, query: Query) {
    var content := event.content;
    && Allows(query.taskId, content.taskId)
    && Allows(query.queueItemId, content.queueItemId)
    && Allows(query.eventId, content.eventId)
    && Allows(query.taskSessionId, content.taskSessionId)
    && Allows(query.status, content.status)
    && !(query.since.Some? && content.occurredAt.Some? && content.occurredAt.value < query.since.value)
  }

  function LimitOf(query: Query): int {
    if query.limit.Some? then query.limit.value else DEFAULT_LIMIT
  }

  /** `filter`: the matching events in their order. */
  function Matching(events: seq<Event>, query: Query): seq<Event> {
    if events == [] then []
    else
      var older, newest := events[..|events| - 1], events[|events| - 1];
      if Matches(newest, query) then Matching(older, query) + [newest] else Matching(older, query)
  }

  function Listed(activities: seq<Event>, query: Query): seq<Event> {
    Reversed(SliceBack(Matching(activities, query), LimitOf(query)))
  }

  /** Every event the log has answered, in order: the id counts the events then kept. */
  function Issued(max: int, contents: seq<Content>): (events: seq<Event>)
    ensures |events| == |contents|
  {
    if contents == [] then []
    else
      var before := Issued(max, contents[..|contents| - 1]);
      before + [Event(|Last(before, Max(0, max))| + 1, contents[|contents| - 1])]
  }

  /** Reading a list from its newest end until `limit` matches are found. */
  function Newest(events: seq<Event>, query: Query, limit: nat): seq<Event> {
    if events == [] || limit == 0 then []
    else if Matches(events[|events| - 1], query)
      then [events[|events| - 1]] + Newest(events[..|events| - 1], query, limit - 1)
    else Newest(events[..|events| - 1], query, limit)
  }

  lemma IssuedMore(max: int, contents: seq<Content>, input: Content)
    ensures Issued(max, contents + [input]) ==
            Issued(max, contents) + [Event(|Last(Issued(max, contents), Max(0, max))| + 1, input)]
  {
    assert (contents + [input])[..|contents|] == contents;
  }

  /** `splice(0, length - max)` */
  function Trimmed(events: seq<Event>, max: int): seq<Event> {
    if |events| > max then events[Min(|events|, |events| - max)..] else events
  }

  /** Trimming the list after an event leaves the tail of the history with that event. */
  lemma TrimmedTail(max: int, all: seq<Event>, event: Event)
    ensures Trimmed(Last(all, Max(0, max)) + [event], max) == Last(all + [event], Max(0, max))
  {
  }

  lemma RecordKeepsTail(max: int, contents: seq<Content>, input: Content, activities: seq<Event>)
    requires activities == Last(Issued(max, contents), Max(0, max))
    ensures var event := Event(|activities| + 1, input);
            && Issued(max, contents + [input]) == Issued(max, contents) + [event]
            && Trimmed(activities + [event], max) == Last(Issued(max, contents + [input]), Max(0, max))
  {
    IssuedMore(max, contents, input);
    TrimmedTail(max, Issued(max, contents), Event(|activities| + 1, input));
  }

  class InMemoryObservability {
    const maxActivities: int
    var activities: seq<Event>
    /** The contents recorded so far. */
    ghost var recorded: seq<Content>

    /** The list is the tail of the whole history. */
    ghost predicate Valid()
      reads this
    {
      activities == Last(Issued(maxActivities, recorded), Max(0, maxActivities))
    }

    constructor (max: int)
      ensures Valid() && maxActivities == max && activities == [] && recorded == []
    {
      maxActivities := max;
      activities, recorded := [], [];
    }

    method RecordActivity(input: Content) returns (event: Event)
      requires Valid()
      modifies this
      ensures Valid() && recorded == old(recorded) + [input]
      ensures Issued(maxActivities, recorded) == Issued(maxActivities, old(recorded)) + [event]
      ensures event.content == input
    {
      event := Event(|activities| + 1, input);
      activities := activities + [event];
      if |activities| > maxActivities {
        activities := activities[Min(|activities|, |activities| - maxActivities)..];
      }
      assert activities == Trimmed(old(activities) + [event], maxActivities);
      RecordKeepsTail(maxActivities, recorded, input, old(activities));
      recorded := recorded + [input];
    }

    method ListActivity(query: Query) returns (events: seq<Event>)
      requires Valid()
      ensures LimitOf(query) >= 1 ==>
                events == Newest(Last(Issued(maxActivities, recorded), Max(0, maxActivities)), query, LimitOf(query))
      ensures events == Listed(activities, query)
    {
      events := Listed(activities, query);
      if LimitOf(query) >= 1 {
        ListedIsNewest(activities, query);
      }
    }
  }

  // ---------------------------------------------------------------- ids

  /** Event `i` of a history is given the number of events then kept, plus one. */
  predicate Numbered(max: nat, all: seq<Event>) {
    forall i :: 0 <= i < |all| ==> all[i].number == Min(i, max) + 1
  }

  lemma {:induction false} IssuedAt(max: nat, contents: seq<Content>, i: nat)
    requires i < |contents|
    ensures Issued(max, contents)[i] == Event(Min(i, max) + 1, contents[i])
    decreases |contents|
  {
    var last := |contents| - 1;
    var before := Issued(max, contents[..last]);
    assert Issued(max, contents) == before + [Event(|Last(before, Max(0, max))| + 1, contents[last])];
    if i < last {
      IssuedAt(max, contents[..last], i);
    } else {
      assert |Last(before, max)| == Min(last, max);
    }
  }

  lemma IssuedNumbers(max: nat, contents: seq<Content>)
    ensures Numbered(max, Issued(max, contents))
  {
    forall i | 0 <= i < |contents|
      ensures Issued(max, contents)[i].number == Min(i, max) + 1
    {
      IssuedAt(max, contents, i);
    }
  }

  /** Two records are given the same id exactly when the log was already full at the earlier
      one, so the first max + 1 ids are distinct and every later one repeats the last. */
  lemma SameId(max: nat, contents: seq<Content>, i: nat, j: nat)
    requires i < j < |contents|
    ensures Issued(max, contents)[i].number == Issued(max, contents)[j].number <==> max <= i
  {
    IssuedNumbers(max, contents);
  }

  predicate DistinctIds(events: seq<Event>) {
    forall i, j :: 0 <= i < j < |events| ==> events[i].number != events[j].number
  }

  lemma TailIds(max: nat, all: seq<Event>)
    requires Numbered(max, all)
    ensures DistinctIds(Last(all, max)) <==> max < 2 || |all| <= max + 1
  {
    var kept := Last(all, max);
    if max >= 2 && |all| > max + 1 {
      assert kept[max - 2].number == kept[max - 1].number;
    }
  }

  /** The ids a reader can see in the list at one time are distinct exactly until the second
      record after the log is full. */
  lemma KeptIdsAreDistinct(max: nat, contents: seq<Content>)
    ensures DistinctIds(Last(Issued(max, contents), max)) <==> max < 2 || |contents| <= max + 1
  {
    IssuedNumbers(max, contents);
    TailIds(max, Issued(max, contents));
  }

  // ---------------------------------------------------------------- queries

  lemma {:induction false} NewestIsTail(events: seq<Event>, query: Query, limit: nat)
    ensures Newest(events, query, limit) == Reversed(Last(Matching(events, query), limit))
  {
    if events != [] && limit > 0 {
      var older, newest := events[..|events| - 1], events[|events| - 1];
      if Matches(newest, query) {
        NewestIsTail(older, query, limit - 1);
        var tail := Last(Matching(older, query) + [newest], limit);
        assert tail[..|tail| - 1] == Last(Matching(older, query), limit - 1);
      } else {
        NewestIsTail(older, query, limit);
      }
    }
  }

  /** A query with a limit of at least one answers the newest matches first, at most so many. */
  lemma ListedIsNewest(activities: seq<Event>, query: Query)
    requires LimitOf(query) >= 1
    ensures Listed(activities, query) == Newest(activities, query, LimitOf(query))
  {
    NewestIsTail(activities, query, LimitOf(query));
  }

  lemma {:induction false} ReversedLength<T>(items: seq<T>)
    ensures |Reversed(items)| == |items|
  {
    if items != [] {
      ReversedLength(items[..|items| - 1]);
    }
  }

  /** The limit bounds the answer exactly when it is positive or skips every match: a limit of
      zero answers everything. */
  lemma LimitHolds(activities: seq<Event>, query: Query)
    ensures |Listed(activities, query)| <= Max(0, LimitOf(query)) <==>
            LimitOf(query) >= 1 || |Matching(activities, query)| <= -LimitOf(query)
  {
    ReversedLength(SliceBack(Matching(activities, query), LimitOf(query)));
  }

  lemma {:induction false} ReversedMembers<T>(items: seq<T>)
    ensures forall x :: x in Reversed(items) <==> x in items
  {
    if items != [] {
      ReversedMembers(items[..|items| - 1]);
      assert items == items[..|items| - 1] + [items[|items| - 1]];
    }
  }

  lemma {:induction false} MatchingMembers(events: seq<Event>, query: Query)
    ensures forall e :: e in Matching(events, query) <==> e in events && Matches(e, query)
  {
    if events != [] {
      MatchingMembers(events[..|events| - 1], query);
      assert events == events[..|events| - 1] + [events[|events| - 1]];
    }
  }

  /** A query that names a value is never answered with an event of another one, nor one that
      names a time with an event known to be older. */
  lemma AnswersAreWanted(activities: seq<Event>, query: Query, e: Event)
    requires e in Listed(activities, query)
    ensures e in activities
    ensures query.taskId.Some? && query.taskId.value != "" ==> e.content.taskId == query.taskId
    ensures query.queueItemId.Some? && query.queueItemId.value != "" ==> e.content.queueItemId == query.queueItemId
    ensures query.eventId.Some? && query.eventId.value != "" ==> e.content.eventId == query.eventId
    ensures query.taskSessionId.Some? && query.taskSessionId.value != "" ==> e.content.taskSessionId == query.taskSessionId
    ensures query.status.Some? && query.status.value != "" ==> e.content.status == query.status
    ensures query.since.Some? && e.content.occurredAt.Some? ==> e.content.occurredAt.value >= query.since.value
  {
    var matching := Matching(activities, query);
    ReversedMembers(SliceBack(matching, LimitOf(query)));
    MatchingMembers(activities, query);
    assert e in matching;
  }

  /** Of the values and the time a query names, the event has every value and is not known to be
      older; an empty value names nothing. */
  predicate IsWanted(event: Event, query: Query) {
    && (query.taskId == None || query.taskId == Some("") || event.content.taskId == query.taskId)
    && (query.queueItemId == None || query.queueItemId == Some("") || event.content.queueItemId == query.queueItemId)
    && (query.eventId == None || query.eventId == Some("") || event.content.eventId == query.eventId)
    && (query.taskSessionId == None || query.taskSessionId == Some("") ||
        event.content.taskSessionId == query.taskSessionId)
    && (query.status == None || query.status == Some("") || event.content.status == query.status)
    && (query.since == None || event.content.occurredAt == None ||
        query.since.value <= event.content.occurredAt.value)
  }

  lemma {:induction false} MatchingPositions(events: seq<Event>, query: Query) returns (at: seq<nat>)
    ensures KeptAt(events, e => IsWanted(e, query), Matching(events, query), at)
  {
    if events == [] {
      at := [];
    } else {
      var older, newest := events[..|events| - 1], events[|events| - 1];
      at := MatchingPositions(older, query);
      KeepOneMore(older, newest, e => IsWanted(e, query), Matching(older, query), at);
      assert events == older + [newest];
      if IsWanted(newest, query) {
        at := at + [|older|];
      }
    }
  }

  lemma {:induction false} ReversedAt<T>(items: seq<T>, k: nat)
    requires k < |items|
    ensures |Reversed(items)| == |items| && Reversed(items)[k] == items[|items| - 1 - k]
  {
    if k > 0 {
      ReversedAt(items[..|items| - 1], k - 1);
    } else {
      ReversedLength(items[..|items| - 1]);
    }
  }

  lemma NewestAt<T>(items: seq<T>, limit: nat, k: nat)
    requires limit >= 1 && k < Min(limit, |items|)
    ensures |Reversed(SliceBack(items, limit))| == Min(limit, |items|)
    ensures Reversed(SliceBack(items, limit))[k] == items[|items| - 1 - k]
  {
    ReversedAt(SliceBack(items, limit), k);
  }

  /** With a positive limit, 100 where none is given, the answer is the newest events wanted,
      newest first, as many as the limit allows: `at` are the places of all that are wanted. */
  lemma AnswerIs(activities: seq<Event>, query: Query) returns (at: seq<nat>)
    requires query.limit.None? || query.limit.value >= 1
    ensures Increasing(at) && forall i :: 0 <= i < |activities| ==> (i in at <==> IsWanted(activities[i], query))
    ensures |Listed(activities, query)| == Min(if query.limit.Some? then query.limit.value else 100, |at|)
    ensures forall k :: 0 <= k < |Listed(activities, query)| ==>
              0 <= at[|at| - 1 - k] < |activities| && Listed(activities, query)[k] == activities[at[|at| - 1 - k]]
  {
    at := MatchingPositions(activities, query);
    var matching := Matching(activities, query);
    ReversedLength(SliceBack(matching, LimitOf(query)));
    forall k | 0 <= k < Min(LimitOf(query), |at|)
      ensures Listed(activities, query)[k] == activities[at[|at| - 1 - k]]
    {
      NewestAt(matching, LimitOf(query), k);
    }
  }

  predicate NoneMatches(events: seq<Event>, query: Query) {
    forall e :: e in events ==> !Matches(e, query)
  }

  lemma {:induction false} NewestOfNone(events: seq<Event>, query: Query, limit: nat)
    requires limit > 0
    ensures Newest(events, query, limit) == [] <==> NoneMatches(events, query)
  {
    if events != [] {
      NewestOfNone(events[..|events| - 1], query, limit);
      assert events == events[..|events| - 1] + [events[|events| - 1]];
    }
  }

  lemma {:induction false} NewestSplits(dropped: seq<Event>, kept: seq<Event>, query: Query, limit: nat)
    ensures |Newest(kept, query, limit)| <= limit
    ensures Newest(dropped + kept, query, limit) ==
            Newest(kept, query, limit) + Newest(dropped, query, limit - |Newest(kept, query, limit)|)
    decreases |kept|
  {
    if kept == [] {
      assert dropped + kept == dropped;
    } else if limit > 0 {
      var last := |kept| - 1;
      assert (dropped + kept)[..|dropped + kept| - 1] == dropped + kept[..last];
      NewestSplits(dropped, kept[..last], query, if Matches(kept[last], query) then limit - 1 else limit);
    }
  }

  lemma AnswerOfTail(dropped: seq<Event>, kept: seq<Event>, query: Query, limit: nat)
    requires limit >= 1
    ensures Newest(kept, query, limit) <= Newest(dropped + kept, query, limit)
    ensures Newest(kept, query, limit) == Newest(dropped + kept, query, limit) <==>
            |Newest(kept, query, limit)| == limit || NoneMatches(dropped, query)
  {
    NewestSplits(dropped, kept, query, limit);
    var left := limit - |Newest(kept, query, limit)|;
    if left > 0 {
      NewestOfNone(dropped, query, left);
    }
  }

  /** The capped log against the whole history: its answer is always the beginning of the
      answer an uncapped log would give, and the same one exactly when it reaches the limit
      or no match has been dropped. */
  lemma CappedAnswer(max: nat, contents: seq<Content>, query: Query)
    requires LimitOf(query) >= 1
    ensures var all := Issued(max, contents);
            var answer, full := Listed(Last(all, max), query), Newest(all, query, LimitOf(query));
            && answer <= full
            && (answer == full <==>
                |answer| == LimitOf(query) || NoneMatches(all[..|all| - |Last(all, max)|], query))
  {
    var all := Issued(max, contents);
    var kept := Last(all, max);
    var dropped := all[..|all| - |kept|];
    ListedIsNewest(kept, query);
    AnswerOfTail(dropped, kept, query, LimitOf(query));
    assert dropped + kept == all;
  }
}
