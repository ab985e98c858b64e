/** The links the applications list prints: one page link per page, and one
    removal link per active-filter chip. */
module FilterLinks {
  import opened Prelude
  import opened WorkItemFilters
  import Text

  // ---- Pagination ----

  datatype PageLink = PageLink(number: int, href: seq<Pair>, current: bool)

  datatype Pagination = Pagination(previous: Option<seq<Pair>>, next: Option<seq<Pair>>, items: seq<PageLink>)

  function PageHref(f: Filters, page: int): seq<Pair> {
    Href(f.(page := page))
  }

  function LinkAt(f: Filters, page: int, i: int): PageLink {
    PageLink(i, PageHref(f, i), i == page)
  }

  /** The structure `buildPagination` returns, `None` for a single page. */
  function PaginationOf(page: int, totalPages: int, f: Filters): Option<Pagination> {
    if totalPages <= 1 then None
    else
      Some(Pagination(
             if page > 1 then Some(PageHref(f, page - 1)) else None,
             if page < totalPages then Some(PageHref(f, page + 1)) else None,
             seq(totalPages, k requires 0 <= k < totalPages => LinkAt(f, page, k + 1))))
  }

  method MakePageHref(f: Filters, page: int) returns (href: seq<Pair>)
    ensures href == PageHref(f, page)
  {
    href := BuildHref(f.(page := page));
  }

  /** `buildPagination` */
  method BuildPagination(page: int, totalPages: int, f: Filters) returns (r: Option<Pagination>)
    ensures r == PaginationOf(page, totalPages, f)
  {
    hide PageHref;
    if totalPages <= 1 {
      return None;
    }
    var items: seq<PageLink> := [];
    var i := 1;
    while i <= totalPages
      invariant 1 <= i <= totalPages + 1
      invariant |items| == i - 1 && forall k :: 0 <= k < i - 1 ==> items[k] == LinkAt(f, page, k + 1)
    {
      var href := MakePageHref(f, i);
      items := items + [PageLink(i, href, i == page)];
      i := i + 1;
    }
    var previous, next := None, None;
    if page > 1 {
      var href := MakePageHref(f, page - 1);
      previous := Some(href);
    }
    if page < totalPages {
      var href := MakePageHref(f, page + 1);
      next := Some(href);
    }
    assert items == PaginationOf(page, totalPages, f).value.items;
    return Some(Pagination(previous, next, items));
  }

  lemma RereadKeepsPage(f: Filters, user: User, page: int)
    ensures Reread(f.(page := page), user) == Reread(f, user).(page := page)
  {
    hide ResolveSort, ResolveAssigneeMode, DefaultNations, WasteProcessingTypes, Flatten, Dedup;
  }

  /** Every page link reads as the same filters on its own page, exactly when the
      form was submitted or neither `sort` nor `assigneeMode` is junk. */
  lemma PageLinkReadsBack(query: Query, user: User, page: int)
    requires page >= 1
    ensures var f := ReadFilters(query, user);
            ReadFilters(Regroup(PageHref(f, page)), user) == InUse(f).(page := page) <==> f.filtersApplied || !HasJunk(query)
  {
    hide ReadFilters, Reread, Href, Regroup, WithDerived, HasJunk, InUse;
    var f := ReadFilters(query, user);
    ReadIsPrintable(query, user);
    HrefRereads(f, user);
    OtherPageIsPrintable(f, page);
    HrefRereads(f.(page := page), user);
    RereadKeepsPage(f, user, page);
    RoundTripsExactly(query, user);
    SamePage(Reread(f, user), InUse(f), page, f, user);
  }

  /** On any page but the first the previous link, and on any but the last the next,
      leads to the same filters one page back or on; there is a link to every page
      in order, and the one marked is the page shown. */
  lemma NeighboursReadBack(query: Query, user: User, page: int, totalPages: int)
    requires 1 <= page <= totalPages && (ReadFilters(query, user).filtersApplied || !HasJunk(query))
    ensures var f := ReadFilters(query, user);
            var shown := PaginationOf(page, totalPages, f);
            && (shown.Some? <==> totalPages > 1)
            && (shown.Some? ==>
                  var p := shown.value;
                  && (p.previous.Some? <==> page > 1) && (p.next.Some? <==> page < totalPages)
                  && (p.previous.Some? ==> ReadFilters(Regroup(p.previous.value), user) == InUse(f).(page := page - 1))
                  && (p.next.Some? ==> ReadFilters(Regroup(p.next.value), user) == InUse(f).(page := page + 1))
                  && |p.items| == totalPages
                  && forall k :: 0 <= k < totalPages ==>
                       && p.items[k].number == k + 1 && (p.items[k].current <==> k + 1 == page)
                       && ReadFilters(Regroup(p.items[k].href), user) == InUse(f).(page := k + 1))
  {
    hide ReadFilters, PageHref, Regroup, InUse, HasJunk;
    forall k | 1 <= k <= totalPages
      ensures ReadFilters(Regroup(PageHref(ReadFilters(query, user), k)), user) == InUse(ReadFilters(query, user)).(page := k)
    {
      PageLinkReadsBack(query, user, k);
    }
  }

  lemma OtherPageIsPrintable(f: Filters, page: int)
    requires Printable(f) && page >= 1
    ensures Printable(f.(page := page))
  {
    hide IsChoice, IsMaterialList, IsCleanText;
  }

  lemma SamePage(a: Filters, b: Filters, page: int, f: Filters, user: User)
    requires a == Reread(f, user) && b == InUse(f)
    ensures a.(page := page) == b.(page := page) <==> a == b
  {
    hide ResolveSort, ResolveAssigneeMode, DefaultNations, WasteProcessingTypes, Flatten, Dedup;
    assert a.page == f.page == b.page;
    assert a == a.(page := page).(page := f.page) && b == b.(page := page).(page := f.page);
  }

  // ---- Active-filter chips ----

  datatype ChipKey =
    | TypeKey | ApplicationTypeKey | StatusKey | NationKey | MaterialKey
    | AssignmentKey | OrganisationKey | SortKey | ArchivedKey

  /** Which filter value a chip stands for. */
  datatype ChipId = ChipId(key: ChipKey, value: string)

  datatype Chip = Chip(id: ChipId, href: seq<Pair>)

  /** One entry of the assignable-users directory. */
  datatype Officer = Officer(id: string, name: Option<string>)

  function AssigneeUserName(userId: string, officers: seq<Officer>): string {
    var found := Find(officers, (o: Officer) => o.id == userId);
    if found.Some? && found.value.name.Some? then found.value.name.value else userId
  }

  /** `buildAssignmentChipLabel`; an empty label shows no chip. */
  function AssignmentLabel(f: Filters, officers: seq<Officer>): string {
    if !f.assigneeModeExplicit then ""
    else
      match f.assigneeMode
      case Any => ""
      case Mine => "Your applications"
      case Unassigned => "Unassigned"
      case SpecificUser =>
        if f.assigneeUserId.Some? && f.assigneeUserId.value != ""
        then AssigneeUserName(f.assigneeUserId.value, officers) else ""
  }

  /** The officer shown is the first with the id, by name, or by id where there is no
      name or no such officer. */
  lemma OfficerNamed(userId: string, officers: seq<Officer>, k: nat)
    requires k <= |officers| && forall i :: 0 <= i < k ==> officers[i].id != userId
    ensures k < |officers| && officers[k].id == userId ==>
              AssigneeUserName(userId, officers) == if officers[k].name.Some? then officers[k].name.value else userId
    ensures k == |officers| ==> AssigneeUserName(userId, officers) == userId
  {
    if k < |officers| && officers[k].id == userId {
      FindFirst(officers, (o: Officer) => o.id == userId, k);
    }
  }

  /** The label of the assignment chip: none for a choice the user did not make. */
  lemma AssignmentLabelExactly(f: Filters, officers: seq<Officer>)
    ensures var text := AssignmentLabel(f, officers);
            && (!f.assigneeModeExplicit || f.assigneeMode == Any ==> text == "")
            && (f.assigneeModeExplicit && f.assigneeMode == Mine ==> text == "Your applications")
            && (f.assigneeModeExplicit && f.assigneeMode == Unassigned ==> text == "Unassigned")
            && (f.assigneeModeExplicit && f.assigneeMode == SpecificUser ==>
                  text == if f.assigneeUserId.None? || f.assigneeUserId == Some("") then ""
                           else AssigneeUserName(f.assigneeUserId.value, officers))
  {
  }

  function Without(values: seq<string>, value: string): seq<string> {
    Filter(values, v => v != value)
  }

  /** `withoutFilter`: one value removed, back to page 1, and marked as submitted
      so that no default comes back. */
  function WithoutFilter(f: Filters, id: ChipId): Filters {
    var next := f.(page := 1, filtersApplied := true);
    match id.key
    case TypeKey => next.(typeIds := Without(f.typeIds, id.value))
    case ApplicationTypeKey => next.(applicationTypeIds := Without(f.applicationTypeIds, id.value))
    case StatusKey => next.(statusGroups := Without(f.statusGroups, id.value))
    case NationKey => next.(nations := Without(f.nations, id.value))
    case MaterialKey => next.(materials := Without(f.materials, id.value))
    case AssignmentKey => next.(assigneeMode := Any, assigneeModeExplicit := false, assigneeUserId := None)
    case OrganisationKey => next.(organisation := "")
    case SortKey => next.(sort := None, sortExplicit := false)
    case ArchivedKey => next.(includeArchived := false)
  }

  function Ids(key: ChipKey, values: seq<string>): seq<ChipId> {
    Map(values, (v: string) => ChipId(key, v))
  }

  function One(condition: bool, key: ChipKey, value: string): seq<ChipId> {
    if condition then [ChipId(key, value)] else []
  }

  function SortValue(f: Filters): string {
    if f.sort.Some? then SortToken(f.sort.value) else ""
  }

  function ListIds(f: Filters): seq<ChipId> {
    Ids(TypeKey, f.typeIds) + Ids(ApplicationTypeKey, f.applicationTypeIds) + Ids(StatusKey, f.statusGroups)
    + Ids(NationKey, f.nations) + Ids(MaterialKey, f.materials)
  }

  function SingleIds(f: Filters, officers: seq<Officer>): seq<ChipId> {
    One(AssignmentLabel(f, officers) != "", AssignmentKey, "") + One(f.organisation != "", OrganisationKey, f.organisation)
    + One(f.sortExplicit, SortKey, SortValue(f)) + One(f.includeArchived, ArchivedKey, "true")
  }

  /** The chips shown, in order. */
  function ChipIds(f: Filters, officers: seq<Officer>): seq<ChipId> {
    ListIds(f) + SingleIds(f, officers)
  }

  function ChipFor(f: Filters, id: ChipId): Chip {
    Chip(id, Href(WithoutFilter(f, id)))
  }

  method MakeChip(f: Filters, id: ChipId) returns (chip: Chip)
    ensures chip == ChipFor(f, id)
  {
    var href := BuildHref(WithoutFilter(f, id));
    return Chip(id, href);
  }

  method AddChips(f: Filters, chips: seq<Chip>, ids: seq<ChipId>) returns (out: seq<Chip>)
    ensures out == chips + Map(ids, (id: ChipId) => ChipFor(f, id))
  {
    hide ChipFor, WithoutFilter;
    out := chips;
    for i := 0 to |ids|
      invariant out == chips + Map(ids, (id: ChipId) => ChipFor(f, id))[..i]
    {
      var chip := MakeChip(f, ids[i]);
      out := out + [chip];
    }
  }

  lemma MapAppend(f: Filters, a: seq<ChipId>, b: seq<ChipId>)
    ensures Map(a + b, (id: ChipId) => ChipFor(f, id))
            == Map(a, (id: ChipId) => ChipFor(f, id)) + Map(b, (id: ChipId) => ChipFor(f, id))
  {
  }

  method AddListChips(f: Filters) returns (chips: seq<Chip>)
    ensures chips == Map(ListIds(f), (id: ChipId) => ChipFor(f, id))
  {
    hide ChipFor, Ids;
    var types, applicationTypes := Ids(TypeKey, f.typeIds), Ids(ApplicationTypeKey, f.applicationTypeIds);
    var statuses, nations := Ids(StatusKey, f.statusGroups), Ids(NationKey, f.nations);
    var materials := Ids(MaterialKey, f.materials);
    chips := AddChips(f, [], types);
    chips := AddChips(f, chips, applicationTypes);
    MapAppend(f, types, applicationTypes);
    chips := AddChips(f, chips, statuses);
    MapAppend(f, types + applicationTypes, statuses);
    chips := AddChips(f, chips, nations);
    MapAppend(f, types + applicationTypes + statuses, nations);
    chips := AddChips(f, chips, materials);
    MapAppend(f, types + applicationTypes + statuses + nations, materials);
  }

  /** `buildActiveFilters`: the chips, each with the link that removes it. */
  method BuildActiveFilters(f: Filters, officers: seq<Officer>) returns (chips: seq<Chip>)
    ensures chips == Map(ChipIds(f, officers), (id: ChipId) => ChipFor(f, id))
  {
    hide ChipFor, ListIds, AssignmentLabel, SortValue;
    chips := AddListChips(f);
    var singles := One(AssignmentLabel(f, officers) != "", AssignmentKey, "");
    if f.organisation != "" {
      singles := singles + [ChipId(OrganisationKey, f.organisation)];
    }
    if f.sortExplicit {
      singles := singles + [ChipId(SortKey, SortValue(f))];
    }
    if f.includeArchived {
      singles := singles + [ChipId(ArchivedKey, "true")];
    }
    assert singles == SingleIds(f, officers);
    MapAppend(f, ListIds(f), singles);
    chips := AddChips(f, chips, singles);
  }

  /** A chip is shown for every value chosen in a group of boxes and for each other
      choice the user made; an officer whose name is empty gets none. */
  lemma ChipShownExactly(query: Query, user: User, officers: seq<Officer>, id: ChipId)
    ensures var f := ReadFilters(query, user);
            id in ChipIds(f, officers)
            <==> match id.key
                 case TypeKey => id.value in f.typeIds
                 case ApplicationTypeKey => id.value in f.applicationTypeIds
                 case StatusKey => id.value in f.statusGroups
                 case NationKey => id.value in f.nations
                 case MaterialKey => id.value in f.materials
                 case AssignmentKey => id.value == "" && AssignmentLabel(f, officers) != ""
                 case OrganisationKey => id.value == f.organisation != ""
                 case SortKey => f.sortExplicit && f.sort.Some? && id.value == SortToken(f.sort.value)
                 case ArchivedKey => f.includeArchived && id.value == "true"
  {
    var f := ReadFilters(query, user);
    ReadIsPrintable(query, user);
    assert f.sortExplicit ==> f.sort.Some?;
    hide ReadFilters, AssignmentLabel, Printable, ListIds, SingleIds;
    ListIdsHold(f, id);
    SingleIdsHold(f, officers, id);
  }

  lemma ListIdsHold(f: Filters, id: ChipId)
    ensures id in ListIds(f)
            <==> || (id.key == TypeKey && id.value in f.typeIds)
                 || (id.key == ApplicationTypeKey && id.value in f.applicationTypeIds)
                 || (id.key == StatusKey && id.value in f.statusGroups)
                 || (id.key == NationKey && id.value in f.nations)
                 || (id.key == MaterialKey && id.value in f.materials)
  {
    hide Ids;
    IdsHold(TypeKey, f.typeIds, id);
    IdsHold(ApplicationTypeKey, f.applicationTypeIds, id);
    IdsHold(StatusKey, f.statusGroups, id);
    IdsHold(NationKey, f.nations, id);
    IdsHold(MaterialKey, f.materials, id);
  }

  lemma OneHolds(condition: bool, key: ChipKey, value: string, id: ChipId)
    ensures id in One(condition, key, value) <==> condition && id.key == key && id.value == value
  {
  }

  lemma SingleIdsHold(f: Filters, officers: seq<Officer>, id: ChipId)
    ensures id in SingleIds(f, officers)
            <==> || (id.key == AssignmentKey && AssignmentLabel(f, officers) != "" && id.value == "")
                 || (id.key == OrganisationKey && f.organisation != "" && id.value == f.organisation)
                 || (id.key == SortKey && f.sortExplicit && id.value == SortValue(f))
                 || (id.key == ArchivedKey && f.includeArchived && id.value == "true")
  {
    hide One, AssignmentLabel, SortValue;
    OneHolds(AssignmentLabel(f, officers) != "", AssignmentKey, "", id);
    OneHolds(f.organisation != "", OrganisationKey, f.organisation, id);
    OneHolds(f.sortExplicit, SortKey, SortValue(f), id);
    OneHolds(f.includeArchived, ArchivedKey, "true", id);
  }

  lemma IdsHold(key: ChipKey, values: seq<string>, id: ChipId)
    ensures id in Ids(key, values) <==> id.key == key && id.value in values
  {
    if id.key == key && id.value in values {
      var i :| 0 <= i < |values| && values[i] == id.value;
      assert Ids(key, values)[i] == id;
    }
  }

  // ---- Following a chip ----

  /** The filters after following the link of a chip. */
  function Follow(f: Filters, user: User, id: ChipId): Filters {
    ReadFilters(Regroup(ChipFor(f, id).href), user)
  }

  lemma RemovedIsChoice(values: seq<string>, value: string, allowed: seq<string>)
    requires IsChoice(values, allowed)
    ensures IsChoice(Without(values, value), allowed)
  {
    FilterUnique(values, v => v != value);
  }

  lemma RemovedIsMaterialList(values: seq<string>, value: string)
    requires IsMaterialList(values)
    ensures IsMaterialList(Without(values, value))
  {
    FilterUnique(values, v => v != value);
  }

  /** `withoutFilter`, field by field. */
  lemma WithoutFields(f: Filters, id: ChipId)
    ensures var g, k, v := WithoutFilter(f, id), id.key, id.value;
            && g.typeIds == (if k == TypeKey then Without(f.typeIds, v) else f.typeIds)
            && g.applicationTypeIds
               == (if k == ApplicationTypeKey then Without(f.applicationTypeIds, v) else f.applicationTypeIds)
            && g.statusGroups == (if k == StatusKey then Without(f.statusGroups, v) else f.statusGroups)
            && g.nations == (if k == NationKey then Without(f.nations, v) else f.nations)
            && g.materials == (if k == MaterialKey then Without(f.materials, v) else f.materials)
  {
    hide Without;
  }

  lemma WithoutSingles(f: Filters, id: ChipId)
    ensures var g, k := WithoutFilter(f, id), id.key;
            && g.organisation == (if k == OrganisationKey then "" else f.organisation)
            && g.search == f.search && g.page == 1 && g.filtersApplied
            && g.includeArchived == (if k == ArchivedKey then false else f.includeArchived)
            && g.sort == (if k == SortKey then None else f.sort)
            && g.sortExplicit == (if k == SortKey then false else f.sortExplicit)
  {
    hide Without;
  }

  lemma WithoutAssignee(f: Filters, id: ChipId)
    ensures var g, k := WithoutFilter(f, id), id.key;
            && g.assigneeMode == (if k == AssignmentKey then Any else f.assigneeMode)
            && g.assigneeModeExplicit == (if k == AssignmentKey then false else f.assigneeModeExplicit)
            && g.assigneeUserId == (if k == AssignmentKey then None else f.assigneeUserId)
  {
    hide Without;
  }

  lemma WithoutIsPrintable(f: Filters, id: ChipId)
    requires Printable(f)
    ensures Printable(WithoutFilter(f, id))
  {
    Text.TrimKeeps("");
    hide IsChoice, IsMaterialList, Without, Text.Trim, IsCleanText, WithoutFilter;
    WithoutFields(f, id);
    WithoutSingles(f, id);
    WithoutAssignee(f, id);
    RemovedIsChoice(f.typeIds, id.value, ALLOWED_TYPE_IDS);
    RemovedIsChoice(f.applicationTypeIds, id.value, ALLOWED_APPLICATION_TYPE_IDS);
    RemovedIsChoice(f.statusGroups, id.value, STATUS_GROUPS);
    RemovedIsChoice(f.nations, id.value, VALID_NATIONS);
    RemovedIsMaterialList(f.materials, id.value);
  }

  lemma IdsCons(key: ChipKey, values: seq<string>)
    requires values != []
    ensures Ids(key, values) == [ChipId(key, values[0])] + Ids(key, values[1..])
  {
  }

  lemma FilterCons(x: ChipId, rest: seq<ChipId>, id: ChipId)
    ensures Filter([x] + rest, (y: ChipId) => y != id) == (if x != id then [x] else []) + Filter(rest, (y: ChipId) => y != id)
  {
    assert ([x] + rest)[1..] == rest;
  }

  lemma {:induction false} IdsWithout(key: ChipKey, values: seq<string>, id: ChipId)
    ensures Filter(Ids(key, values), (x: ChipId) => x != id)
            == Ids(key, if key == id.key then Without(values, id.value) else values)
  {
    if values != [] {
      hide Ids, Filter, Without;
      IdsCons(key, values);
      FilterCons(ChipId(key, values[0]), Ids(key, values[1..]), id);
      IdsWithout(key, values[1..], id);
      WithoutCons(values, id.value);
      var left := Without(values, id.value);
      if left != [] {
        IdsCons(key, left);
      }
    }
  }

  lemma WithoutCons(values: seq<string>, value: string)
    requires values != []
    ensures Without(values, value)
            == if values[0] != value then [values[0]] + Without(values[1..], value) else Without(values[1..], value)
  {
  }

  lemma OneWithout(condition: bool, key: ChipKey, value: string, id: ChipId)
    requires key == id.key && condition ==> value == id.value
    ensures Filter(One(condition, key, value), (x: ChipId) => x != id)
            == if key == id.key then [] else One(condition, key, value)
  {
    var q := (x: ChipId) => x != id;
    assert [ChipId(key, value)][1..] == [];
    assert Filter([ChipId(key, value)], q) == if q(ChipId(key, value)) then [ChipId(key, value)] else [];
  }

  /** The value a single-valued filter's chip has. */
  predicate FitsSingle(f: Filters, officers: seq<Officer>, id: ChipId) {
    match id.key
    case AssignmentKey => id.value == "" && AssignmentLabel(f, officers) != ""
    case OrganisationKey => id.value == f.organisation && f.organisation != ""
    case SortKey => id.value == SortValue(f) && f.sortExplicit
    case ArchivedKey => id.value == "true" && f.includeArchived
    case _ => true
  }

  lemma ChipFits(f: Filters, officers: seq<Officer>, id: ChipId)
    requires id in ChipIds(f, officers)
    ensures FitsSingle(f, officers, id)
  {
    hide AssignmentLabel, SortValue;
  }

  lemma ListIdsWithout(f: Filters, id: ChipId)
    ensures Filter(ListIds(f), (x: ChipId) => x != id) == ListIds(WithoutFilter(f, id))
  {
    hide Ids, Filter, Without;
    var a, b, c, d, e :=
      Ids(TypeKey, f.typeIds), Ids(ApplicationTypeKey, f.applicationTypeIds), Ids(StatusKey, f.statusGroups),
      Ids(NationKey, f.nations), Ids(MaterialKey, f.materials);
    FilterAppend(a, b, (x: ChipId) => x != id);
    FilterAppend(a + b, c, (x: ChipId) => x != id);
    FilterAppend(a + b + c, d, (x: ChipId) => x != id);
    FilterAppend(a + b + c + d, e, (x: ChipId) => x != id);
    IdsWithout(TypeKey, f.typeIds, id);
    IdsWithout(ApplicationTypeKey, f.applicationTypeIds, id);
    IdsWithout(StatusKey, f.statusGroups, id);
    IdsWithout(NationKey, f.nations, id);
    IdsWithout(MaterialKey, f.materials, id);
  }

  lemma SingleIdsWithout(f: Filters, officers: seq<Officer>, id: ChipId)
    requires FitsSingle(f, officers, id)
    ensures Filter(SingleIds(f, officers), (x: ChipId) => x != id) == SingleIds(WithoutFilter(f, id), officers)
  {
    hide Filter, AssigneeUserName, One;
    var a, b, c, d :=
      One(AssignmentLabel(f, officers) != "", AssignmentKey, ""), One(f.organisation != "", OrganisationKey, f.organisation),
      One(f.sortExplicit, SortKey, SortValue(f)), One(f.includeArchived, ArchivedKey, "true");
    FilterAppend(a, b, (x: ChipId) => x != id);
    FilterAppend(a + b, c, (x: ChipId) => x != id);
    FilterAppend(a + b + c, d, (x: ChipId) => x != id);
    OneWithout(AssignmentLabel(f, officers) != "", AssignmentKey, "", id);
    OneWithout(f.organisation != "", OrganisationKey, f.organisation, id);
    OneWithout(f.sortExplicit, SortKey, SortValue(f), id);
    OneWithout(f.includeArchived, ArchivedKey, "true", id);
    SinglesLeft(f, officers, id);
  }

  lemma SinglesLeft(f: Filters, officers: seq<Officer>, id: ChipId)
    ensures var g := WithoutFilter(f, id);
            && One(AssignmentLabel(g, officers) != "", AssignmentKey, "")
               == (if id.key == AssignmentKey then [] else One(AssignmentLabel(f, officers) != "", AssignmentKey, ""))
            && One(g.organisation != "", OrganisationKey, g.organisation)
               == (if id.key == OrganisationKey then [] else One(f.organisation != "", OrganisationKey, f.organisation))
            && One(g.sortExplicit, SortKey, SortValue(g))
               == (if id.key == SortKey then [] else One(f.sortExplicit, SortKey, SortValue(f)))
            && One(g.includeArchived, ArchivedKey, "true")
               == (if id.key == ArchivedKey then [] else One(f.includeArchived, ArchivedKey, "true"))
  {
    hide WithoutFilter, AssignmentLabel, SortToken;
    WithoutSingles(f, id);
    WithoutLabel(f, officers, id);
  }

  lemma WithoutLabel(f: Filters, officers: seq<Officer>, id: ChipId)
    ensures AssignmentLabel(WithoutFilter(f, id), officers)
            == if id.key == AssignmentKey then "" else AssignmentLabel(f, officers)
  {
    hide WithoutFilter, AssigneeUserName;
    WithoutAssignee(f, id);
  }

  /** Reading back a submitted form changes no chip. */
  lemma RereadKeepsChips(g: Filters, user: User, officers: seq<Officer>)
    requires g.filtersApplied && (g.assigneeMode == SpecificUser ==> g.assigneeModeExplicit)
    ensures ChipIds(Reread(g, user), officers) == ChipIds(g, officers)
  {
    hide AssigneeUserName, DefaultNations, WasteProcessingTypes, Flatten, Dedup, Ids, SortToken, ResolveSort;
  }

  /** Every explicit choice but the removed one is as it was. */
  predicate KeepsOthers(f: Filters, g: Filters, key: ChipKey) {
    && (key != TypeKey ==> g.typeIds == f.typeIds)
    && (key != ApplicationTypeKey ==> g.applicationTypeIds == f.applicationTypeIds)
    && (key != StatusKey ==> g.statusGroups == f.statusGroups)
    && (key != NationKey ==> g.nations == f.nations)
    && (key != MaterialKey ==> g.materials == f.materials)
    && (key != SortKey ==> g.sortExplicit == f.sortExplicit && (f.sortExplicit ==> g.sort == f.sort))
    && (key != AssignmentKey ==>
          && g.assigneeModeExplicit == f.assigneeModeExplicit
          && (f.assigneeModeExplicit ==> g.assigneeMode == f.assigneeMode)
          && (f.assigneeMode == SpecificUser ==> g.assigneeUserId == f.assigneeUserId))
    && (key != OrganisationKey ==> g.organisation == f.organisation)
    && (key != ArchivedKey ==> g.includeArchived == f.includeArchived)
    && g.search == f.search
  }

  lemma RereadKeepsOthers(f: Filters, user: User, id: ChipId)
    requires Printable(f)
    ensures var g := Reread(WithoutFilter(f, id), user);
            KeepsOthers(f, g, id.key) && g.page == 1 && g.filtersApplied
  {
    hide DefaultNations, WasteProcessingTypes, Flatten, Dedup, IsChoice, IsMaterialList, Without, ResolveSort,
         ResolveAssigneeMode, IsCleanText, WithoutFilter, Text.Trim;
    WithoutFields(f, id);
    WithoutSingles(f, id);
    WithoutAssignee(f, id);
  }

  /** Following a chip's link and reading the page's filters again removes exactly
      that chip, goes back to page 1 and leaves every other explicit choice
      alone. */
  lemma ChipLinkRemovesOne(f: Filters, user: User, officers: seq<Officer>, id: ChipId)
    requires Printable(f) && id in ChipIds(f, officers)
    ensures var g := Follow(f, user, id);
            && ChipIds(g, officers) == Filter(ChipIds(f, officers), (x: ChipId) => x != id)
            && KeepsOthers(f, g, id.key) && g.page == 1 && g.filtersApplied
            && Printable(g)
  {
    hide ListIds, SingleIds, Filter, WithoutFilter, Reread, ReadFilters, Href, Regroup, Printable, KeepsOthers;
    var g := WithoutFilter(f, id);
    WithoutIsPrintable(f, id);
    HrefRereads(g, user);
    WithoutModes(f, id);
    RereadKeepsChips(g, user, officers);
    RereadKeepsOthers(f, user, id);
    ChipFits(f, officers, id);
    ListIdsWithout(f, id);
    SingleIdsWithout(f, officers, id);
    FilterAppend(ListIds(f), SingleIds(f, officers), (x: ChipId) => x != id);
    ReadIsPrintable(Regroup(Href(g)), user);
  }

  lemma WithoutModes(f: Filters, id: ChipId)
    requires Printable(f)
    ensures var g := WithoutFilter(f, id);
            g.filtersApplied && (g.assigneeMode == SpecificUser ==> g.assigneeModeExplicit)
  {
    hide IsChoice, IsMaterialList, Without, IsCleanText, WithoutFilter;
    WithoutFields(f, id);
    WithoutSingles(f, id);
    WithoutAssignee(f, id);
  }

  /** A chip's link is never the bare list, which would bring saved filters back. */
  lemma ChipLinkIsNotBare(f: Filters, id: ChipId)
    ensures Pair(FiltersAppliedParam, "1") in ChipFor(f, id).href
  {
    hide ListsPart, RestPart, SortPairs, Without;
    var g := WithoutFilter(f, id);
    assert Pair(FiltersAppliedParam, "1") in Only(g.filtersApplied, FiltersAppliedParam, "1");
    assert Pair(FiltersAppliedParam, "1") in SwitchesPart(g);
  }

  // ---- Removing chips until none is left ----

  lemma IdsUnique(key: ChipKey, values: seq<string>)
    requires Unique(values)
    ensures Unique(Ids(key, values)) && forall x :: x in Ids(key, values) ==> x.key == key
  {
  }

  lemma UniqueAppend(a: seq<ChipId>, b: seq<ChipId>)
    requires Unique(a) && Unique(b) && forall x, y :: x in a && y in b ==> x != y
    ensures Unique(a + b)
  {
    var s := a + b;
    forall i, j | 0 <= i < j < |s| ensures s[i] != s[j] {
      if i < |a| <= j {
        assert s[i] in a && s[j] in b;
      }
    }
  }

  function Place(key: ChipKey): nat {
    match key
    case TypeKey => 0
    case ApplicationTypeKey => 1
    case StatusKey => 2
    case NationKey => 3
    case MaterialKey => 4
    case AssignmentKey => 5
    case OrganisationKey => 6
    case SortKey => 7
    case ArchivedKey => 8
  }

  ghost predicate KeysBelow(s: seq<ChipId>, n: nat) {
    forall x :: x in s ==> Place(x.key) < n
  }

  lemma AppendGroup(a: seq<ChipId>, key: ChipKey, values: seq<string>)
    requires Unique(a) && KeysBelow(a, Place(key)) && Unique(values)
    ensures Unique(a + Ids(key, values)) && KeysBelow(a + Ids(key, values), Place(key) + 1)
  {
    IdsUnique(key, values);
    UniqueAppend(a, Ids(key, values));
  }

  lemma ChipsAreUnique(f: Filters, officers: seq<Officer>)
    requires Printable(f)
    ensures Unique(ChipIds(f, officers))
  {
    hide AssignmentLabel, SortValue, IsMaterialList, Ids;
    var t := Ids(TypeKey, f.typeIds);
    AppendGroup([], TypeKey, f.typeIds);
    assert [] + t == t;
    var a := t + Ids(ApplicationTypeKey, f.applicationTypeIds);
    AppendGroup(t, ApplicationTypeKey, f.applicationTypeIds);
    var s := a + Ids(StatusKey, f.statusGroups);
    AppendGroup(a, StatusKey, f.statusGroups);
    var n := s + Ids(NationKey, f.nations);
    AppendGroup(s, NationKey, f.nations);
    MaterialsUnique(f);
    AppendGroup(n, MaterialKey, f.materials);
    SinglesUnique(f, officers);
    UniqueAppend(ListIds(f), SingleIds(f, officers));
  }

  lemma MaterialsUnique(f: Filters)
    requires Printable(f)
    ensures Unique(f.materials)
  {
  }

  lemma AppendSingle(a: seq<ChipId>, condition: bool, key: ChipKey, value: string)
    requires Unique(a) && KeysBelow(a, Place(key))
    ensures Unique(a + One(condition, key, value)) && KeysBelow(a + One(condition, key, value), Place(key) + 1)
  {
    UniqueAppend(a, One(condition, key, value));
  }

  lemma OneAlone(condition: bool, key: ChipKey, value: string)
    ensures Unique(One(condition, key, value)) && KeysBelow(One(condition, key, value), Place(key) + 1)
    ensures forall x :: x in One(condition, key, value) ==> x.key == key
  {
  }

  lemma SinglesUnique(f: Filters, officers: seq<Officer>)
    ensures Unique(SingleIds(f, officers))
    ensures forall x :: x in SingleIds(f, officers) ==> Place(x.key) >= 5
  {
    hide AssignmentLabel, SortValue, One;
    var a, b, c, d :=
      One(AssignmentLabel(f, officers) != "", AssignmentKey, ""), One(f.organisation != "", OrganisationKey, f.organisation),
      One(f.sortExplicit, SortKey, SortValue(f)), One(f.includeArchived, ArchivedKey, "true");
    OneAlone(AssignmentLabel(f, officers) != "", AssignmentKey, "");
    AppendSingle(a, f.organisation != "", OrganisationKey, f.organisation);
    AppendSingle(a + b, f.sortExplicit, SortKey, SortValue(f));
    AppendSingle(a + b + c, f.includeArchived, ArchivedKey, "true");
    OneAlone(f.organisation != "", OrganisationKey, f.organisation);
    OneAlone(f.sortExplicit, SortKey, SortValue(f));
    OneAlone(f.includeArchived, ArchivedKey, "true");
  }

  lemma {:induction false} RemovingOne(s: seq<ChipId>, id: ChipId)
    requires Unique(s) && id in s
    ensures |Filter(s, (x: ChipId) => x != id)| == |s| - 1
  {
    if s[0] == id {
      FilterAll(s[1..], (x: ChipId) => x != id);
    } else {
      RemovingOne(s[1..], id);
    }
  }

  /** One chip fewer each time. */
  lemma ChipCountFalls(f: Filters, user: User, officers: seq<Officer>, id: ChipId)
    requires Printable(f) && id in ChipIds(f, officers)
    ensures |ChipIds(Follow(f, user, id), officers)| == |ChipIds(f, officers)| - 1
  {
    hide ChipIds, Follow, Printable;
    ChipLinkRemovesOne(f, user, officers, id);
    ChipsAreUnique(f, officers);
    RemovingOne(ChipIds(f, officers), id);
  }

  /** Following chips one after another; each pick says which of the chips still
      there. */
  function FollowAll(f: Filters, user: User, officers: seq<Officer>, picks: seq<nat>): Filters
    decreases |picks|
  {
    var ids := ChipIds(f, officers);
    if picks == [] || ids == [] then f
    else FollowAll(Follow(f, user, ids[picks[0] % |ids|]), user, officers, picks[1..])
  }

  /** Removing chips in any order ends, after as many links as there were chips,
      with none. */
  lemma {:induction false} RemovingEnds(f: Filters, user: User, officers: seq<Officer>, picks: seq<nat>)
    requires Printable(f)
    requires |picks| >= |ChipIds(f, officers)|
    ensures ChipIds(FollowAll(f, user, officers, picks), officers) == []
    decreases |picks|
  {
    hide ChipIds, Follow, Printable;
    var ids := ChipIds(f, officers);
    if ids != [] {
      var id := ids[picks[0] % |ids|];
      ChipLinkRemovesOne(f, user, officers, id);
      ChipCountFalls(f, user, officers, id);
      RemovingEnds(Follow(f, user, id), user, officers, picks[1..]);
    }
  }
}
