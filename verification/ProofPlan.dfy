/** Selecting primitives from the catalogue and the proof plan made from a selection
    (app/shared/src/primitives.ts). */
module ProofPlan {
  import opened JsMap
  import opened Prelude

  datatype Budget = Budget(name: string, rest: int)

  /** A row of the catalogue with what its summary counts. A self-test that is not a string is
      None. */
  datatype Primitive = Primitive(
    id: string,
    status: string,
    category: string,
    routeCount: nat,
    cliCommandCount: nat,
    selfTests: seq<Option<string>>,
    proofRefCount: nat,
    latencyBudgets: seq<Budget>,
    responsivenessCritical: bool)

  /** An absent list is the empty one, an absent count 0 and an absent flag false. */
  datatype Selector = Selector(
    ids: seq<string>,
    statuses: seq<string>,
    categories: seq<string>,
    minRouteCount: int,
    requireCli: bool,
    requireSelfTests: bool,
    requireProofs: bool,
    requireLatencyBudgets: bool,
    requireResponsivenessCritical: bool)

  datatype Command = Command(command: string, primitiveIds: seq<string>)

  datatype SelfTests = SelfTests(selectedIds: seq<string>, missingIds: seq<string>, commands: seq<Command>)

  datatype BudgetRow = BudgetRow(primitiveId: string, status: string, category: string, budget: Budget)

  datatype Plan = Plan(
    selectedIds: seq<string>,
    missingIds: seq<string>,
    primitives: seq<Primitive>,
    commands: seq<Command>,
    budgets: seq<BudgetRow>)

  type Order = (string, string) -> bool

  /** What the program takes from the language: trimming, and the two orders of strings. */
  datatype Language = Language(trim: string -> string, codeUnits: Order, locale: Order)

  // ---------------------------------------------------------------- values

  /** An empty list lets everything through. */
  predicate Admits(wanted: seq<string>, value: string) {
    wanted == [] || value in wanted
  }

  predicate Passes(primitive: Primitive, selector: Selector) {
    && Admits(selector.ids, primitive.id)
    && Admits(selector.statuses, primitive.status)
    && Admits(selector.categories, primitive.category)
    && primitive.routeCount >= selector.minRouteCount
    && (selector.requireCli ==> primitive.cliCommandCount != 0)
    && (selector.requireSelfTests ==> primitive.selfTests != [])
    && (selector.requireProofs ==> primitive.proofRefCount != 0)
    && (selector.requireLatencyBudgets ==> primitive.latencyBudgets != [])
    && (selector.requireResponsivenessCritical ==> primitive.responsivenessCritical)
  }

  function Select(catalog: seq<Primitive>, selector: Selector): seq<Primitive> {
    Filter(catalog, p => Passes(p, selector))
  }

  function IdsOf(primitives: seq<Primitive>): (r: seq<string>)
    ensures forall id :: id in r <==> exists p :: p in primitives && p.id == id
  {
    if primitives == [] then []
    else
      var r := [primitives[0].id] + IdsOf(primitives[1..]);
      assert forall p :: p in primitives <==> p == primitives[0] || p in primitives[1..];
      r
  }

  function ReadString(language: Language, value: Option<string>): Option<string> {
    if value.None? || language.trim(value.value) == "" then None else Some(language.trim(value.value))
  }

  function ReadIds(language: Language, primitives: seq<Primitive>): seq<string> {
    if primitives == [] then []
    else
      var id := ReadString(language, Some(primitives[0].id));
      (if id.Some? then [id.value] else []) + ReadIds(language, primitives[1..])
  }

  type Pair = (string, string)

  /** The self-tests of one primitive as pairs of command and id. */
  function TestPairs(language: Language, selfTests: seq<Option<string>>, id: string): seq<Pair> {
    if selfTests == [] then []
    else
      var before := TestPairs(language, selfTests[..|selfTests| - 1], id);
      var command := ReadString(language, selfTests[|selfTests| - 1]);
      if command.Some? then before + [(command.value, id)] else before
  }

  function PairsOf(language: Language, primitive: Primitive, selected: seq<string>): seq<Pair> {
    var id := ReadString(language, Some(primitive.id));
    if id.Some? && id.value in selected then TestPairs(language, primitive.selfTests, id.value) else []
  }

  /** The pairs in the order the two loops come to them. */
  function Pairs(language: Language, primitives: seq<Primitive>, selected: seq<string>): seq<Pair> {
    if primitives == [] then []
    else Pairs(language, primitives[..|primitives| - 1], selected) + PairsOf(language, primitives[|primitives| - 1], selected)
  }

  function AddPair(groups: Entries<seq<string>>, pair: Pair): Entries<seq<string>> {
    var ids := if Get(groups, pair.0).Some? then Get(groups, pair.0).value else [];
    Set(groups, pair.0, if pair.1 in ids then ids else ids + [pair.1])
  }

  function Groups(pairs: seq<Pair>): Entries<seq<string>> {
    if pairs == [] then [] else AddPair(Groups(pairs[..|pairs| - 1]), pairs[|pairs| - 1])
  }

  function ByCommand(order: Order): (Command, Command) -> bool {
    (a: Command, b: Command) => order(a.command, b.command)
  }

  function CommandsOf(language: Language, groups: Entries<seq<string>>): seq<Command> {
    if groups == [] then []
    else [Command(groups[0].0, Sort(language.codeUnits, groups[0].1))] + CommandsOf(language, groups[1..])
  }

  function Chosen(language: Language, catalog: seq<Primitive>, primitiveIds: seq<string>): seq<string> {
    var known := Unique(ReadIds(language, catalog));
    if primitiveIds == [] then Sort(language.codeUnits, known) else Filter(Unique(primitiveIds), id => id in known)
  }

  function SelectSelfTests(language: Language, catalog: seq<Primitive>, primitiveIds: seq<string>): SelfTests {
    var known := Unique(ReadIds(language, catalog));
    var selected := Chosen(language, catalog, primitiveIds);
    SelfTests(selected,
              Filter(Unique(primitiveIds), id => id !in known),
              Sort(ByCommand(language.locale),
                   CommandsOf(language, Groups(Pairs(language, catalog, selected)))))
  }

  /** `new Map(...)`: of rows with the same id the last counts. */
  function CategoryOf(catalog: seq<Primitive>, id: string): (category: string)
    ensures (forall p, q :: p in catalog && q in catalog && p.id == q.id ==> p == q) ==>
              forall p :: p in catalog && p.id == id ==> category == p.category
  {
    if catalog == [] then ""
    else if catalog[|catalog| - 1].id == id then catalog[|catalog| - 1].category
    else CategoryOf(catalog[..|catalog| - 1], id)
  }

  function RowsOf(primitive: Primitive, category: string, budgets: seq<Budget>): (rows: seq<BudgetRow>)
    ensures |rows| == |budgets|
    ensures forall i :: 0 <= i < |rows| ==> rows[i] == BudgetRow(primitive.id, primitive.status, category, budgets[i])
  {
    if budgets == [] then []
    else RowsOf(primitive, category, budgets[..|budgets| - 1])
         + [BudgetRow(primitive.id, primitive.status, category, budgets[|budgets| - 1])]
  }

  /** The budgets of `primitives`, in order, as far as their ids are selected. */
  function Rows(catalog: seq<Primitive>, primitives: seq<Primitive>, selected: seq<string>): seq<BudgetRow> {
    if primitives == [] then []
    else
      var before, last := Rows(catalog, primitives[..|primitives| - 1], selected), primitives[|primitives| - 1];
      if last.id in selected then before + RowsOf(last, CategoryOf(catalog, last.id), last.latencyBudgets) else before
  }

  function SelectBudgets(catalog: seq<Primitive>, selector: Selector): seq<BudgetRow> {
    Rows(catalog, catalog, IdsOf(Select(catalog, selector)))
  }

  /** The requested ids that no primitive has as they are. */
  function Unknown(catalog: seq<Primitive>, selector: Selector): seq<string> {
    Filter(Unique(selector.ids), id => id !in IdsOf(catalog))
  }

  function BuildPlan(language: Language, catalog: seq<Primitive>, selector: Selector): Plan {
    var primitives := Select(catalog, selector);
    var selfTests := SelectSelfTests(language, catalog, IdsOf(primitives) + Unknown(catalog, selector));
    Plan(IdsOf(primitives), selfTests.missingIds, primitives, selfTests.commands,
         SelectBudgets(catalog, selector.(ids := IdsOf(primitives))))
  }

  // ---------------------------------------------------------------- the loops

  method SelectPrimitiveSelfTestCommands(language: Language, catalog: seq<Primitive>, primitiveIds: seq<string>)
    returns (selection: SelfTests)
    ensures selection == SelectSelfTests(language, catalog, primitiveIds)
  {
    var known := Unique(ReadIds(language, catalog));
    var selected := Chosen(language, catalog, primitiveIds);
    var grouped := GroupCommands(language, catalog, selected);
    selection := SelfTests(selected,
                           Filter(Unique(primitiveIds), id => id !in known),
                           Sort(ByCommand(language.locale),
                                CommandsOf(language, grouped)));
  }

  method GroupCommands(language: Language, catalog: seq<Primitive>, selected: seq<string>)
    returns (grouped: Entries<seq<string>>)
    ensures grouped == Groups(Pairs(language, catalog, selected))
  {
    grouped := [];
    for i := 0 to |catalog|
      invariant grouped == Groups(Pairs(language, catalog[..i], selected))
    {
      PairsOfMore(language, catalog, i, selected);
      var id := ReadString(language, Some(catalog[i].id));
      if id.None? || id.value !in selected {
        assert Pairs(language, catalog[..i], selected) + [] == Pairs(language, catalog[..i], selected);
        continue;
      }
      grouped := AddTests(language, grouped, Pairs(language, catalog[..i], selected), catalog[i].selfTests, id.value);
    }
    assert catalog[..|catalog|] == catalog;
  }

  method AddTests(language: Language, given: Entries<seq<string>>, ghost before: seq<Pair>,
                  selfTests: seq<Option<string>>, id: string)
    returns (grouped: Entries<seq<string>>)
    requires given == Groups(before)
    ensures grouped == Groups(before + TestPairs(language, selfTests, id))
  {
    grouped := given;
    assert before + [] == before;
    for j := 0 to |selfTests|
      invariant grouped == Groups(before + TestPairs(language, selfTests[..j], id))
    {
      var command := ReadString(language, selfTests[j]);
      ghost var pairs := TestPairs(language, selfTests[..j], id);
      TestPairsOfMore(language, selfTests, j, id);
      if command.None? {
        continue;
      }
      GroupsOfMore(before, pairs, (command.value, id));
      grouped := AddToGroup(grouped, command.value, id);
    }
    assert selfTests[..|selfTests|] == selfTests;
  }

  method AddToGroup(grouped: Entries<seq<string>>, command: string, id: string) returns (after: Entries<seq<string>>)
    ensures after == AddPair(grouped, (command, id))
  {
    after := grouped;
    if Get(grouped, command).None? {
      after := Set(after, command, []);
      GetMeaningOfSet(grouped, command);
    }
    var ids := Get(after, command).value;
    if id !in ids {
      after := Set(after, command, ids + [id]);
    } else {
      SetSame(after, command);
    }
  }

  /** A new key is found where it was put, and setting it again overwrites it there. */
  lemma {:induction false} GetMeaningOfSet(groups: Entries<seq<string>>, key: string)
    requires Get(groups, key).None?
    ensures Get(Set(groups, key, []), key) == Some([])
    ensures forall ids :: Set(Set(groups, key, []), key, ids) == Set(groups, key, ids)
  {
    if groups != [] {
      GetMeaningOfSet(groups[1..], key);
    }
  }

  lemma TestPairsOfMore(language: Language, selfTests: seq<Option<string>>, j: nat, id: string)
    requires j < |selfTests|
    ensures var (pairs, command) := (TestPairs(language, selfTests[..j], id), ReadString(language, selfTests[j]));
            TestPairs(language, selfTests[..j + 1], id) == if command.Some? then pairs + [(command.value, id)] else pairs
  {
    assert selfTests[..j + 1][..j] == selfTests[..j];
  }

  lemma PairsOfMore(language: Language, catalog: seq<Primitive>, i: nat, selected: seq<string>)
    requires i < |catalog|
    ensures Pairs(language, catalog[..i + 1], selected) ==
            Pairs(language, catalog[..i], selected) + PairsOf(language, catalog[i], selected)
  {
    assert catalog[..i + 1][..i] == catalog[..i];
  }

  lemma GroupsOfMore(before: seq<Pair>, pairs: seq<Pair>, pair: Pair)
    ensures Groups(before + (pairs + [pair])) == AddPair(Groups(before + pairs), pair)
  {
    var all := before + (pairs + [pair]);
    assert all[..|all| - 1] == before + pairs;
  }

  /** Putting back what is there changes nothing. */
  lemma {:induction false} SetSame(groups: Entries<seq<string>>, key: string)
    requires Get(groups, key).Some?
    ensures Set(groups, key, Get(groups, key).value) == groups
  {
    if groups[0].0 != key {
      SetSame(groups[1..], key);
    }
  }

  method SelectPrimitiveLatencyBudgets(catalog: seq<Primitive>, selector: Selector) returns (budgets: seq<BudgetRow>)
    ensures budgets == SelectBudgets(catalog, selector)
  {
    var selected := IdsOf(Select(catalog, selector));
    budgets := [];
    for i := 0 to |catalog|
      invariant budgets == Rows(catalog, catalog[..i], selected)
    {
      assert catalog[..i + 1][..i] == catalog[..i];
      var primitive := catalog[i];
      if primitive.id !in selected {
        continue;
      }
      budgets := AddBudgets(budgets, primitive, CategoryOf(catalog, primitive.id));
    }
    assert catalog[..|catalog|] == catalog;
  }

  method AddBudgets(given: seq<BudgetRow>, primitive: Primitive, category: string) returns (budgets: seq<BudgetRow>)
    ensures budgets == given + RowsOf(primitive, category, primitive.latencyBudgets)
  {
    budgets := given;
    var added := primitive.latencyBudgets;
    for j := 0 to |added|
      invariant budgets == given + RowsOf(primitive, category, added[..j])
    {
      assert added[..j + 1][..j] == added[..j];
      budgets := budgets + [BudgetRow(primitive.id, primitive.status, category, added[j])];
    }
    assert added[..|added|] == added;
  }

  // ---------------------------------------------------------------- commands

  /** A primitive has `id` and lists `command` among its self-tests. */
  ghost predicate ListsTest(language: Language, primitive: Primitive, id: string, command: string) {
    && ReadString(language, Some(primitive.id)) == Some(id)
    && exists t :: t in primitive.selfTests && ReadString(language, t) == Some(command)
  }

  ghost predicate Lists(language: Language, catalog: seq<Primitive>, id: string, command: string) {
    exists p :: p in catalog && ListsTest(language, p, id, command)
  }

  lemma {:induction false} TestPairsMeaning(language: Language, selfTests: seq<Option<string>>, id: string)
    ensures forall pair :: pair in TestPairs(language, selfTests, id) <==>
              pair.1 == id && exists t :: t in selfTests && ReadString(language, t) == Some(pair.0)
  {
    if selfTests != [] {
      var last := |selfTests| - 1;
      TestPairsMeaning(language, selfTests[..last], id);
      assert forall t :: t in selfTests <==> t in selfTests[..last] || t == selfTests[last];
    }
  }

  lemma PairsOfMeaning(language: Language, primitive: Primitive, selected: seq<string>)
    ensures forall c, id :: (c, id) in PairsOf(language, primitive, selected) <==>
              id in selected && ListsTest(language, primitive, id, c)
  {
    var id := ReadString(language, Some(primitive.id));
    if id.Some? {
      TestPairsMeaning(language, primitive.selfTests, id.value);
    }
  }

  lemma {:induction false} PairsMeaning(language: Language, catalog: seq<Primitive>, selected: seq<string>)
    ensures forall c, id :: (c, id) in Pairs(language, catalog, selected) <==>
              id in selected && Lists(language, catalog, id, c)
  {
    if catalog != [] {
      var before, last := catalog[..|catalog| - 1], catalog[|catalog| - 1];
      PairsMeaning(language, before, selected);
      PairsOfMeaning(language, last, selected);
      forall c, id
        ensures Lists(language, catalog, id, c) <==> Lists(language, before, id, c) || ListsTest(language, last, id, c)
      {
        assert forall p :: p in catalog <==> p in before || p == last;
      }
    }
  }

  ghost predicate InGroup(groups: Entries<seq<string>>, command: string, id: string) {
    exists g :: g in groups && g.0 == command && id in g.1
  }

  ghost predicate GroupsFit(groups: Entries<seq<string>>) {
    DistinctKeys(groups) && forall g :: g in groups ==> g.1 != [] && Distinct(g.1)
  }

  lemma SetInGroup(groups: Entries<seq<string>>, key: string, ids: seq<string>, command: string, id: string)
    requires DistinctKeys(groups)
    ensures InGroup(Set(groups, key, ids), command, id) <==>
            if command == key then id in ids else InGroup(groups, command, id)
  {
  }

  lemma AddPairMeaning(groups: Entries<seq<string>>, pair: Pair)
    requires GroupsFit(groups)
    ensures GroupsFit(AddPair(groups, pair))
    ensures forall c, id :: InGroup(AddPair(groups, pair), c, id) <==> InGroup(groups, c, id) || (c, id) == pair
  {
    GetMeaning(groups, pair.0);
    var ids := if Get(groups, pair.0).Some? then Get(groups, pair.0).value else [];
    var more := if pair.1 in ids then ids else ids + [pair.1];
    AddPairFits(groups, pair.0, more);
    forall c, id
      ensures InGroup(AddPair(groups, pair), c, id) <==> InGroup(groups, c, id) || (c, id) == pair
    {
      SetInGroup(groups, pair.0, more, c, id);
      assert InGroup(groups, pair.0, id) <==> id in ids;
    }
  }

  lemma AddPairFits(groups: Entries<seq<string>>, key: string, ids: seq<string>)
    requires GroupsFit(groups) && ids != [] && Distinct(ids)
    ensures GroupsFit(Set(groups, key, ids))
  {
    SetMeaning(groups, key, ids);
  }

  /** Each command has one group, and its group holds exactly the ids it is paired with. */
  lemma {:induction false} GroupsMeaning(pairs: seq<Pair>)
    ensures GroupsFit(Groups(pairs))
    ensures forall c, id :: InGroup(Groups(pairs), c, id) <==> (c, id) in pairs
  {
    if pairs != [] {
      var before, last := pairs[..|pairs| - 1], pairs[|pairs| - 1];
      GroupsMeaning(before);
      AddPairMeaning(Groups(before), last);
      assert pairs == before + [last];
    }
  }

  // ---------------------------------------------------------------- a self-test selection

  ghost predicate Covered(commands: seq<Command>, command: string, id: string) {
    exists a :: a in commands && a.command == command && id in a.primitiveIds
  }

  /** One entry a command, with some ids and none of them twice. */
  ghost predicate Tidy(commands: seq<Command>) {
    && Distinct(commands)
    && (forall a, b :: a in commands && b in commands && a.command == b.command ==> a == b)
    && forall a :: a in commands ==> a.primitiveIds != [] && Distinct(a.primitiveIds)
  }

  lemma {:induction false} CommandsOfMeaning(language: Language, groups: Entries<seq<string>>)
    requires GroupsFit(groups)
    ensures Tidy(CommandsOf(language, groups))
    ensures forall a :: a in CommandsOf(language, groups) ==> exists g :: g in groups && g.0 == a.command
    ensures forall c, id :: Covered(CommandsOf(language, groups), c, id) <==> InGroup(groups, c, id)
  {
    if groups != [] {
      var rest, first := groups[1..], groups[0];
      var command := Command(first.0, Sort(language.codeUnits, first.1));
      assert forall g :: g in groups <==> g == first || g in rest;
      CommandsOfMeaning(language, rest);
      SortMembers(language.codeUnits, first.1);
      assert first.1[0] in command.primitiveIds;
      PutInFront(command, CommandsOf(language, rest));
      forall c, id
        ensures InGroup(groups, c, id) <==> InGroup(rest, c, id) || (c == first.0 && id in first.1)
      {
      }
    }
  }

  lemma PutInFront(command: Command, commands: seq<Command>)
    requires Tidy(commands) && command.primitiveIds != [] && Distinct(command.primitiveIds)
    requires forall a :: a in commands ==> a.command != command.command
    ensures Tidy([command] + commands)
    ensures forall c, id :: Covered([command] + commands, c, id) <==>
              Covered(commands, c, id) || (c == command.command && id in command.primitiveIds)
  {
  }

  /** Each command comes once, and its ids are exactly the selected primitives that list it. */
  lemma SelfTestsMeaning(language: Language, catalog: seq<Primitive>, primitiveIds: seq<string>)
    ensures var selection := SelectSelfTests(language, catalog, primitiveIds);
            && Tidy(selection.commands)
            && forall c, id :: Covered(selection.commands, c, id) <==>
                 id in selection.selectedIds && Lists(language, catalog, id, c)
  {
    var selected := Chosen(language, catalog, primitiveIds);
    var pairs := Pairs(language, catalog, selected);
    PairsMeaning(language, catalog, selected);
    GroupsMeaning(pairs);
    CommandsOfMeaning(language, Groups(pairs));
    SortMembers(ByCommand(language.locale), CommandsOf(language, Groups(pairs)));
  }

  lemma ReadIdsMeaning(language: Language, catalog: seq<Primitive>)
    ensures forall id :: id in ReadIds(language, catalog) <==>
              exists p :: p in catalog && ReadString(language, Some(p.id)) == Some(id)
  {
  }

  /** What is selected and what is missing: without a request everything is selected; with
      one, each requested id is either selected or missing. */
  lemma ChosenMeaning(language: Language, catalog: seq<Primitive>, primitiveIds: seq<string>)
    ensures var selection := SelectSelfTests(language, catalog, primitiveIds);
            && (forall id :: id in selection.selectedIds <==>
                 id in ReadIds(language, catalog) && (primitiveIds == [] || id in primitiveIds))
            && (forall id :: id in selection.missingIds <==> id !in ReadIds(language, catalog) && id in primitiveIds)
  {
    SortMembers(language.codeUnits, Unique(ReadIds(language, catalog)));
  }

  /** The commands come in the order of the locale, their ids in that of code units. */
  lemma SelectionIsOrdered(language: Language, catalog: seq<Primitive>, primitiveIds: seq<string>)
    requires StrictWeakOrder(language.locale) && StrictWeakOrder(language.codeUnits)
    ensures var commands := SelectSelfTests(language, catalog, primitiveIds).commands;
            && InOrder(ByCommand(language.locale), commands)
            && forall a :: a in commands ==> InOrder(language.codeUnits, a.primitiveIds)
  {
    var byCommand := ByCommand(language.locale);
    var commands := CommandsOf(language, Groups(Pairs(language, catalog, Chosen(language, catalog, primitiveIds))));
    ByCommandOrders(language.locale);
    SortOrders(byCommand, commands);
    SortMembers(byCommand, commands);
    GroupsAreOrdered(language, Groups(Pairs(language, catalog, Chosen(language, catalog, primitiveIds))));
  }

  lemma ByCommandOrders(order: Order)
    requires StrictWeakOrder(order)
    ensures StrictWeakOrder(ByCommand(order))
  {
    forall a, b | ByCommand(order)(a, b)
      ensures !ByCommand(order)(b, a)
    {
      assert order(a.command, b.command);
    }
    forall a, b, c | !ByCommand(order)(a, b) && !ByCommand(order)(b, c)
      ensures !ByCommand(order)(a, c)
    {
      assert !order(a.command, b.command) && !order(b.command, c.command);
    }
  }

  lemma {:induction false} GroupsAreOrdered(language: Language, groups: Entries<seq<string>>)
    requires StrictWeakOrder(language.codeUnits)
    ensures forall a :: a in CommandsOf(language, groups) ==> InOrder(language.codeUnits, a.primitiveIds)
  {
    if groups != [] {
      SortOrders(language.codeUnits, groups[0].1);
      GroupsAreOrdered(language, groups[1..]);
    }
  }

  // ---------------------------------------------------------------- the plan

  /** Ids of the catalogue are trimmed and not empty. */
  predicate TrimmedIds(language: Language, catalog: seq<Primitive>) {
    forall p :: p in catalog ==> p.id != "" && language.trim(p.id) == p.id
  }

  lemma TrimmedAreRead(language: Language, catalog: seq<Primitive>)
    requires TrimmedIds(language, catalog)
    ensures forall id :: id in ReadIds(language, catalog) <==> id in IdsOf(catalog)
  {
  }

  /** In any catalogue: the commands cover those of the selected and unknown ids that some
      primitive lists them under when trimmed, or every primitive where there are none. */
  lemma PlanCommands(language: Language, catalog: seq<Primitive>, selector: Selector)
    ensures var plan := BuildPlan(language, catalog, selector);
            var requested := plan.selectedIds + Unknown(catalog, selector);
            && Tidy(plan.commands)
            && (forall id :: id in plan.missingIds <==> id in requested && id !in ReadIds(language, catalog))
            && forall c, id :: Covered(plan.commands, c, id) <==>
                 Lists(language, catalog, id, c) && (id in requested || requested == [])
  {
    var requested := IdsOf(Select(catalog, selector)) + Unknown(catalog, selector);
    SelfTestsMeaning(language, catalog, requested);
    ChosenMeaning(language, catalog, requested);
    ReadIdsMeaning(language, catalog);
  }

  /** With trimmed ids, the plan's missing ids are the requested ones the catalogue does not
      have, and its commands cover the selected primitives that list them, or every primitive
      where nothing is selected and nothing is missing. */
  lemma PlanOfTrimmed(language: Language, catalog: seq<Primitive>, selector: Selector)
    requires TrimmedIds(language, catalog)
    ensures var plan := BuildPlan(language, catalog, selector);
            && (forall id :: id in plan.missingIds <==> id in selector.ids && id !in IdsOf(catalog))
            && forall c, id :: Covered(plan.commands, c, id) <==>
                 Lists(language, catalog, id, c) &&
                 (id in plan.selectedIds || (plan.selectedIds == [] && plan.missingIds == []))
  {
    var plan, unknown := BuildPlan(language, catalog, selector), Unknown(catalog, selector);
    PlanCommands(language, catalog, selector);
    TrimmedAreRead(language, catalog);
    assert forall id :: id in plan.missingIds <==> id in unknown;
    SameEmptiness(plan.missingIds, unknown);
    forall id, c | Lists(language, catalog, id, c)
      ensures id !in unknown
    {
      ReadIdsMeaning(language, catalog);
    }
  }

  lemma SameEmptiness(a: seq<string>, b: seq<string>)
    requires forall id :: id in a <==> id in b
    ensures a == [] <==> b == []
  {
    if a != [] {
      assert a[0] in b;
    }
    if b != [] {
      assert b[0] in a;
    }
  }

  /** In any catalogue: a selected id is reported missing as well exactly when it is empty or
      not trimmed, since it is then compared with trimmed ids. */
  lemma SelectedButMissing(language: Language, catalog: seq<Primitive>, selector: Selector, id: string)
    requires forall s :: language.trim(language.trim(s)) == language.trim(s)
    requires id in BuildPlan(language, catalog, selector).selectedIds
    ensures id in BuildPlan(language, catalog, selector).missingIds <==> id == "" || language.trim(id) != id
  {
    var selected := Select(catalog, selector);
    PlanCommands(language, catalog, selector);
    var p :| p in selected && p.id == id;
    ReadUntrimmed(language, catalog, p);
  }

  lemma ReadUntrimmed(language: Language, catalog: seq<Primitive>, p: Primitive)
    requires p in catalog && forall s :: language.trim(language.trim(s)) == language.trim(s)
    ensures p.id in ReadIds(language, catalog) <==> p.id != "" && language.trim(p.id) == p.id
  {
    ReadIdsMeaning(language, catalog);
    if q :| q in catalog && ReadString(language, Some(q.id)) == Some(p.id) {
      assert language.trim(q.id) == p.id;
    }
  }

  /** Some primitive of the catalogue passes the selector. */
  ghost predicate Finds(catalog: seq<Primitive>, selector: Selector) {
    exists p :: p in catalog && Passes(p, selector)
  }

  ghost predicate AsksForUnknown(catalog: seq<Primitive>, selector: Selector) {
    exists id :: id in selector.ids && forall p :: p in catalog ==> p.id != id
  }

  lemma FindsMeaning(catalog: seq<Primitive>, selector: Selector)
    ensures Finds(catalog, selector) <==> Select(catalog, selector) != []
    ensures Finds(catalog, selector) <==> IdsOf(Select(catalog, selector)) != []
  {
    var selected := Select(catalog, selector);
    if selected != [] {
      assert selected[0] in selected;
      assert selected[0].id in IdsOf(selected);
    }
  }

  lemma UnknownMeaning(catalog: seq<Primitive>, selector: Selector)
    ensures AsksForUnknown(catalog, selector) <==> Unknown(catalog, selector) != []
    ensures forall id :: id in Unknown(catalog, selector) <==>
              id in selector.ids && forall p :: p in catalog ==> p.id != id
  {
    var unknown := Unknown(catalog, selector);
    if unknown != [] {
      assert unknown[0] in unknown;
    }
  }

  /** In any catalogue, the commands name selected primitives only, if and only if no unknown id
      is one that a primitive lists tests under when trimmed, and something is selected, or an
      unknown id is asked for, or there are no tests at all. */
  lemma CommandsAreClosed(language: Language, catalog: seq<Primitive>, selector: Selector)
    ensures var plan := BuildPlan(language, catalog, selector);
            (forall c, id :: Covered(plan.commands, c, id) ==> id in plan.selectedIds) <==>
            && (Finds(catalog, selector) || AsksForUnknown(catalog, selector) ||
                forall c, id :: !Lists(language, catalog, id, c))
            && (forall id, c :: id in selector.ids && Lists(language, catalog, id, c) ==>
                  exists p :: p in catalog && p.id == id)
  {
    PlanCommands(language, catalog, selector);
    FindsMeaning(catalog, selector);
    UnknownMeaning(catalog, selector);
    ClosedIds(language, catalog, selector, IdsOf(Select(catalog, selector)), Unknown(catalog, selector));
  }

  lemma ClosedIds(language: Language, catalog: seq<Primitive>, selector: Selector, selected: seq<string>, unknown: seq<string>)
    requires selected == IdsOf(Select(catalog, selector)) && unknown == Unknown(catalog, selector)
    ensures (forall c, id :: Lists(language, catalog, id, c) && (id in selected + unknown || selected + unknown == []) ==>
               id in selected) <==>
            && (selected != [] || unknown != [] || forall c, id :: !Lists(language, catalog, id, c))
            && (forall id, c :: id in selector.ids && Lists(language, catalog, id, c) ==>
                  exists p :: p in catalog && p.id == id)
  {
    UnknownMeaning(catalog, selector);
    assert forall id :: id in selected ==> id !in unknown;
  }

  lemma {:induction false} RowsMeaning(catalog: seq<Primitive>, primitives: seq<Primitive>, selected: seq<string>)
    ensures forall row :: row in Rows(catalog, primitives, selected) <==>
              exists p, b :: p in primitives && b in p.latencyBudgets && p.id in selected &&
                row == BudgetRow(p.id, p.status, CategoryOf(catalog, p.id), b)
  {
    if primitives != [] {
      var before, last := primitives[..|primitives| - 1], primitives[|primitives| - 1];
      RowsMeaning(catalog, before, selected);
      assert forall p :: p in primitives <==> p in before || p == last;
      RowsOfMeaning(last, CategoryOf(catalog, last.id), last.latencyBudgets);
    }
  }

  lemma {:induction false} RowsOfNone(catalog: seq<Primitive>, primitives: seq<Primitive>)
    ensures Rows(catalog, primitives, []) == []
  {
    if primitives != [] {
      RowsOfNone(catalog, primitives[..|primitives| - 1]);
    }
  }

  lemma RowsOfMeaning(primitive: Primitive, category: string, budgets: seq<Budget>)
    ensures forall row :: row in RowsOf(primitive, category, budgets) <==>
              exists b :: b in budgets && row == BudgetRow(primitive.id, primitive.status, category, b)
  {
  }

  lemma {:induction false} IdsInOrder(primitives: seq<Primitive>)
    ensures |IdsOf(primitives)| == |primitives|
    ensures forall k :: 0 <= k < |primitives| ==> IdsOf(primitives)[k] == primitives[k].id
  {
    if primitives != [] {
      IdsInOrder(primitives[1..]);
    }
  }

  /** The row has one of the ids, statuses and categories wanted, where any are given, has enough
      routes, and has what the selector asks for. */
  predicate Meets(p: Primitive, selector: Selector) {
    && (selector.ids == [] || p.id in selector.ids)
    && (selector.statuses == [] || p.status in selector.statuses)
    && (selector.categories == [] || p.category in selector.categories)
    && p.routeCount >= selector.minRouteCount
    && (selector.requireCli ==> p.cliCommandCount > 0)
    && (selector.requireSelfTests ==> |p.selfTests| > 0)
    && (selector.requireProofs ==> p.proofRefCount > 0)
    && (selector.requireLatencyBudgets ==> |p.latencyBudgets| > 0)
    && (selector.requireResponsivenessCritical ==> p.responsivenessCritical)
  }

  lemma PassesIs(p: Primitive, selector: Selector)
    ensures Passes(p, selector) <==> Meets(p, selector)
  {
  }

  lemma SelectedAt(catalog: seq<Primitive>, selector: Selector) returns (at: seq<nat>)
    ensures KeptAt(catalog, p => Passes(p, selector), Select(catalog, selector), at)
  {
    at := FilterPositions(catalog, p => Passes(p, selector));
  }

  /** The primitives of a plan are rows of the catalogue, in its order: those whose id, status and
      category are among the wanted ones, where any are given, that have enough routes and, as far
      as the selector asks for it, commands, self-tests, proofs and budgets and matter for
      responsiveness. Their ids are the selected ids. */
  lemma PlanSelects(language: Language, catalog: seq<Primitive>, selector: Selector) returns (at: seq<nat>)
    ensures var plan := BuildPlan(language, catalog, selector);
            && |at| == |plan.primitives| == |plan.selectedIds| && Increasing(at)
            && forall k :: 0 <= k < |at| ==>
                 at[k] < |catalog| && plan.primitives[k] == catalog[at[k]] && plan.selectedIds[k] == catalog[at[k]].id
    ensures forall i :: 0 <= i < |catalog| ==>
              (i in at <==> Meets(catalog[i], selector))
  {
    at := SelectedAt(catalog, selector);
    IdsInOrder(Select(catalog, selector));
    forall i | 0 <= i < |catalog|
      ensures i in at <==> Meets(catalog[i], selector)
    {
      PassesIs(catalog[i], selector);
    }
  }

  /** The values both lists let through, where an empty list lets everything through. */
  function Common(a: seq<string>, b: seq<string>): seq<string> {
    if a == [] then b else if b == [] then a else Filter(a, x => x in b)
  }

  /** No value gets through both. */
  predicate Clash(a: seq<string>, b: seq<string>) {
    a != [] && b != [] && Common(a, b) == []
  }

  function Both(a: Selector, b: Selector): Selector {
    Selector(Common(a.ids, b.ids), Common(a.statuses, b.statuses), Common(a.categories, b.categories),
             Max(a.minRouteCount, b.minRouteCount), a.requireCli || b.requireCli,
             a.requireSelfTests || b.requireSelfTests, a.requireProofs || b.requireProofs,
             a.requireLatencyBudgets || b.requireLatencyBudgets,
             a.requireResponsivenessCritical || b.requireResponsivenessCritical)
  }

  predicate SelectorsClash(a: Selector, b: Selector) {
    Clash(a.ids, b.ids) || Clash(a.statuses, b.statuses) || Clash(a.categories, b.categories)
  }

  lemma AdmitsCommon(a: seq<string>, b: seq<string>, value: string)
    ensures !Clash(a, b) ==> (Admits(Common(a, b), value) <==> Admits(a, value) && Admits(b, value))
    ensures Clash(a, b) ==> !(Admits(a, value) && Admits(b, value))
  {
    if a != [] && b != [] {
      assert value in Common(a, b) <==> value in a && value in b;
    }
  }

  lemma PassesBoth(p: Primitive, a: Selector, b: Selector)
    ensures !SelectorsClash(a, b) ==> (Passes(p, Both(a, b)) <==> Passes(p, a) && Passes(p, b))
    ensures SelectorsClash(a, b) ==> !(Passes(p, a) && Passes(p, b))
  {
    AdmitsCommon(a.ids, b.ids, p.id);
    AdmitsCommon(a.statuses, b.statuses, p.status);
    AdmitsCommon(a.categories, b.categories, p.category);
  }

  lemma {:induction false} FilterTwice<T(!new)>(s: seq<T>, f: T -> bool, g: T -> bool, both: T -> bool)
    requires forall x :: both(x) <==> f(x) && g(x)
    ensures Filter(Filter(s, f), g) == Filter(s, both)
  {
    if s != [] {
      FilterTwice(s[1..], f, g, both);
      if f(s[0]) {
        assert ([s[0]] + Filter(s[1..], f))[1..] == Filter(s[1..], f);
      }
    }
  }

  /** For a caller who merges two selectors by what their lists have in common: the merged one
      selects what passes both if and only if no two of the lists have nothing in common, or
      nothing passes the merged one anyway. Lists without a common value make an empty list, which
      is no criterion. */
  lemma SelectInTurn(catalog: seq<Primitive>, a: Selector, b: Selector)
    ensures Select(Select(catalog, a), b) == Select(catalog, Both(a, b)) <==>
            !SelectorsClash(a, b) || forall p :: p in catalog ==> !Passes(p, Both(a, b))
  {
    forall p
      ensures !SelectorsClash(a, b) ==> (Passes(p, Both(a, b)) <==> Passes(p, a) && Passes(p, b))
      ensures SelectorsClash(a, b) ==> !(Passes(p, a) && Passes(p, b))
    {
      PassesBoth(p, a, b);
    }
    FindsMeaning(catalog, Both(a, b));
    if SelectorsClash(a, b) {
      NothingPasses(Select(catalog, a), p => Passes(p, b));
    } else {
      FilterTwice(catalog, p => Passes(p, a), p => Passes(p, b), p => Passes(p, Both(a, b)));
    }
  }

  lemma NothingPasses<T(!new)>(s: seq<T>, f: T -> bool)
    requires forall x :: x in s ==> !f(x)
    ensures Filter(s, f) == []
  {
    var r := Filter(s, f);
    assert forall x :: x !in r;
  }

  /** Selecting again by the ids of a non-empty selection selects the same. */
  lemma SelectAgain(catalog: seq<Primitive>, selector: Selector)
    requires Select(catalog, selector) != []
    ensures Select(catalog, selector.(ids := IdsOf(Select(catalog, selector)))) == Select(catalog, selector)
  {
    var selected := Select(catalog, selector);
    var again := selector.(ids := IdsOf(selected));
    assert selected[0].id in IdsOf(selected);
    forall p | p in catalog
      ensures Passes(p, selector) <==> Passes(p, again)
    {
      assert Passes(p, selector) ==> p in selected;
    }
    SameFilter(catalog, p => Passes(p, selector), p => Passes(p, again));
  }

  lemma {:induction false} SameFilter<T(!new)>(s: seq<T>, f: T -> bool, g: T -> bool)
    requires forall x :: x in s ==> f(x) == g(x)
    ensures Filter(s, f) == Filter(s, g)
  {
    if s != [] {
      assert s[0] in s && forall x :: x in s[1..] ==> x in s;
      SameFilter(s[1..], f, g);
    }
  }

  /** The plan's budgets are those of the selection if and only if some primitive passes the
      selector, or none that passes it without its ids shares its id with one that has budgets. */
  lemma BudgetsAreClosed(language: Language, catalog: seq<Primitive>, selector: Selector)
    ensures BuildPlan(language, catalog, selector).budgets == SelectBudgets(catalog, selector) <==>
            Finds(catalog, selector) ||
            forall p, q :: p in catalog && Passes(p, selector.(ids := [])) && q in catalog && q.id == p.id ==>
              q.latencyBudgets == []
  {
    var wide := IdsOf(Select(catalog, selector.(ids := [])));
    FindsMeaning(catalog, selector);
    if Finds(catalog, selector) {
      SelectAgain(catalog, selector);
    } else {
      RowsOfNone(catalog, catalog);
      NoRows(catalog, wide);
    }
  }

  lemma NoRows(catalog: seq<Primitive>, ids: seq<string>)
    ensures Rows(catalog, catalog, ids) == [] <==> forall p :: p in catalog && p.id in ids ==> p.latencyBudgets == []
  {
    RowsMeaning(catalog, catalog, ids);
    var rows := Rows(catalog, catalog, ids);
    if rows != [] {
      assert rows[0] in rows;
    }
    forall p | p in catalog && p.id in ids && p.latencyBudgets != []
      ensures rows != []
    {
      assert p.latencyBudgets[0] in p.latencyBudgets;
      assert BudgetRow(p.id, p.status, CategoryOf(catalog, p.id), p.latencyBudgets[0]) in rows;
    }
  }

  /** Asking for unknown ids only: the plan covers no primitive by commands, but lists the
      budgets of every primitive that passes the rest of the selector. */
  lemma UnknownIdsWiden(language: Language, catalog: seq<Primitive>, selector: Selector)
    requires TrimmedIds(language, catalog)
    requires selector.ids != [] && forall id :: id in selector.ids ==> id !in IdsOf(catalog)
    ensures var plan := BuildPlan(language, catalog, selector);
            && plan.selectedIds == [] && (forall id :: id in plan.missingIds <==> id in selector.ids)
            && (forall c, id :: !Covered(plan.commands, c, id))
            && plan.budgets == SelectBudgets(catalog, selector.(ids := []))
  {
    NoneSelected(catalog, selector);
    PlanOfTrimmed(language, catalog, selector);
    var missing := BuildPlan(language, catalog, selector).missingIds;
    assert selector.ids[0] in missing;
  }

  lemma NoneSelected(catalog: seq<Primitive>, selector: Selector)
    requires selector.ids != [] && forall id :: id in selector.ids ==> id !in IdsOf(catalog)
    ensures Select(catalog, selector) == []
  {
    var selected := Select(catalog, selector);
    assert forall p :: p in catalog ==> p.id in IdsOf(catalog) && !Passes(p, selector);
    assert forall p :: p !in selected;
  }
}
