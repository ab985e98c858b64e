/** The applications list's filter state and its URL form: `readFilters` parses a
    query, `buildHref` prints the filters back. A URL is the ordered list of its
    key and value pairs; a parsed query groups the values by key. */
module WorkItemFilters {
  import opened Prelude
  import opened Text

  /** The query parameters `readFilters` looks at. */
  datatype Param =
    | TypeParam | ApplicationTypeParam | StatusParam | NationParam | MaterialParam | SortParam
    | FiltersAppliedParam | IncludeArchivedParam | SearchParam | OrganisationParam
    | AssigneeModeParam | AssigneeUserIdParam | PageParam

  datatype Pair = Pair(key: Param, value: string)

  /** Every key with the values it came with, in order: one value is a string of
      the parsed query, several are an array. */
  type Query = map<Param, seq<string>>

  function ValuesOf(pairs: seq<Pair>, p: Param): seq<string> {
    Map(Filter(pairs, (x: Pair) => x.key == p), (x: Pair) => x.value)
  }

  /** The query the server parses a printed URL into. */
  function Regroup(pairs: seq<Pair>): Query {
    map p: Param | ValuesOf(pairs, p) != [] :: ValuesOf(pairs, p)
  }

  function Get(query: Query, p: Param): seq<string> {
    if p in query then query[p] else []
  }

  // ---- Option lists ----

  const ALLOWED_TYPE_IDS := ["re-accreditation", "exporter"]
  const ALLOWED_APPLICATION_TYPE_IDS :=
    ["re-accreditation", "accreditation", "registration-application", "annual-fee-payment"]
  const STATUS_GROUPS :=
    ["submitted", "duly-made", "updated", "awaiting-decision", "queried", "approved-pending-contact",
     "approved", "rejected", "withdrawn"]
  const VALID_NATIONS := ["England", "Scotland", "Wales", "NorthernIreland"]
  const MATERIAL_TOKENS :=
    ["aluminium", "fibre", "glass-other", "glass-remelt", "paper", "plastic", "steel", "wood"]

  function StateIdsOf(group: string): seq<string> {
    match group
    case "duly-made" => ["duly-made", "assessment-started"]
    case "updated" => ["assessment-in-progress", "updated"]
    case "rejected" => ["rejected", "rejected-pending-contact"]
    case _ => [group]
  }

  datatype Sort = DueDate | Organisation | Status

  function SortToken(s: Sort): string {
    match s
    case DueDate => "due-date"
    case Organisation => "organisation"
    case Status => "status"
  }

  datatype Mode = Any | Mine | Unassigned | SpecificUser

  function ModeToken(m: Mode): string {
    match m
    case Any => "any"
    case Mine => "mine"
    case Unassigned => "unassigned"
    case SpecificUser => "user"
  }

  /** The signed-in user: its id, and the roles it holds. */
  datatype User = User(id: Option<string>, roles: seq<string>)

  function NationOf(role: string): Option<string> {
    match role
    case "role:nation-england" => Some("England")
    case "role:nation-scotland" => Some("Scotland")
    case "role:nation-wales" => Some("Wales")
    case "role:nation-northern-ireland" => Some("NorthernIreland")
    case _ => None
  }

  // ---- uniqueStringList ----

  /** The trimmed values that are not blank, each at its first place. */
  function UniqueList(values: seq<string>): seq<string> {
    if values == [] then []
    else
      var out := UniqueList(values[..|values| - 1]);
      var trimmed := Trim(values[|values| - 1]);
      if trimmed == "" || trimmed in out then out else out + [trimmed]
  }

  predicate IsCleanText(s: string) {
    s != "" && Trim(s) == s
  }

  /** No value twice, none blank, none with white space around it. */
  ghost predicate IsCleanList(list: seq<string>) {
    Unique(list) && forall x :: x in list ==> IsCleanText(x)
  }

  lemma {:induction false} UniqueListIsUnique(values: seq<string>)
    ensures IsCleanList(UniqueList(values))
  {
    if values != [] {
      UniqueListIsUnique(values[..|values| - 1]);
      TrimIsIdempotent(values[|values| - 1]);
    }
  }

  ghost predicate IsTyped(values: seq<string>, x: string) {
    exists i :: 0 <= i < |values| && Trim(values[i]) == x
  }

  lemma TypedGrows(values: seq<string>, last: string, x: string)
    ensures IsTyped(values + [last], x) <==> IsTyped(values, x) || Trim(last) == x
  {
    hide Trim;
    var longer := values + [last];
    if i :| 0 <= i < |values| && Trim(values[i]) == x {
      assert Trim(longer[i]) == x;
    }
    assert longer[|values|] == last;
  }

  lemma {:induction false} UniqueListHolds(values: seq<string>, x: string)
    ensures x in UniqueList(values) <==> x != "" && IsTyped(values, x)
  {
    if values != [] {
      var front, last := values[..|values| - 1], values[|values| - 1];
      hide Trim, IsTyped;
      UniqueListHolds(front, x);
      assert values == front + [last];
      TypedGrows(front, last, x);
    } else {
      assert !IsTyped(values, x);
    }
  }

  /** The list holds exactly the trimmed values that are not blank, none twice. */
  lemma UniqueListIsClean(values: seq<string>)
    ensures IsCleanList(UniqueList(values))
    ensures forall x :: x in UniqueList(values) <==> x != "" && IsTyped(values, x)
  {
    UniqueListIsUnique(values);
    forall x ensures x in UniqueList(values) <==> x != "" && IsTyped(values, x) {
      UniqueListHolds(values, x);
    }
  }

  lemma {:induction false} UniqueListKeeps(list: seq<string>)
    requires IsCleanList(list)
    ensures UniqueList(list) == list
  {
    if list != [] {
      var n := |list| - 1;
      UniqueListKeeps(list[..n]);
      assert list == list[..n] + [list[n]];
      assert list[n] in list;
    }
  }

  /** `uniqueStringList`: one pass, remembering what it has seen. */
  method UniqueStringList(values: seq<string>) returns (out: seq<string>)
    ensures out == UniqueList(values)
  {
    var seen: set<string> := {};
    out := [];
    for i := 0 to |values|
      invariant out == UniqueList(values[..i])
      invariant forall x :: x in seen <==> x in out
    {
      assert values[..i + 1][..i] == values[..i];
      var trimmed := Trim(values[i]);
      if trimmed != "" && trimmed !in seen {
        seen := seen + {trimmed};
        out := out + [trimmed];
      }
    }
    assert values[..|values|] == values;
  }

  function ReadList(values: seq<string>, allowed: seq<string>): seq<string> {
    Filter(UniqueList(values), v => v in allowed)
  }

  /** A clean list of options. */
  ghost predicate IsChoice(list: seq<string>, allowed: seq<string>) {
    IsCleanList(list) && forall x :: x in list ==> x in allowed
  }

  lemma ReadListIsClean(values: seq<string>, allowed: seq<string>)
    ensures IsChoice(ReadList(values, allowed), allowed)
  {
    UniqueListIsClean(values);
    FilterUnique(UniqueList(values), v => v in allowed);
  }

  lemma ReadListKeeps(list: seq<string>, allowed: seq<string>)
    requires IsChoice(list, allowed)
    ensures ReadList(list, allowed) == list
  {
    UniqueListKeeps(list);
    FilterAll(list, v => v in allowed);
  }

  // ---- Materials: lower-cased, then de-duplicated again ----

  function Dedup(s: seq<string>): (r: seq<string>)
    ensures Unique(r) && forall x :: x in r <==> x in s
  {
    if s == [] then []
    else
      var out := Dedup(s[..|s| - 1]);
      assert s == s[..|s| - 1] + [s[|s| - 1]];
      if s[|s| - 1] in out then out else out + [s[|s| - 1]]
  }

  lemma {:induction false} DedupKeeps(s: seq<string>)
    requires Unique(s)
    ensures Dedup(s) == s
  {
    if s != [] {
      DedupKeeps(s[..|s| - 1]);
      assert s == s[..|s| - 1] + [s[|s| - 1]];
    }
  }

  function ReadMaterials(values: seq<string>): seq<string> {
    Filter(Dedup(Map(UniqueList(values), Lower)), m => m in MATERIAL_TOKENS)
  }

  lemma LowerIsIdempotent(s: string)
    ensures Lower(Lower(s)) == Lower(s)
  {
  }

  lemma LowerIsClean(s: string)
    requires IsCleanText(s)
    ensures IsCleanText(Lower(s))
  {
    var pre, post := TrimSplits(s);
    TrimKeeps(Lower(s));
  }

  ghost predicate IsMaterialList(list: seq<string>) {
    IsCleanList(list) && forall x :: x in list ==> x in MATERIAL_TOKENS && Lower(x) == x
  }

  lemma ReadMaterialsIsClean(values: seq<string>)
    ensures IsMaterialList(ReadMaterials(values))
  {
    UniqueListIsClean(values);
    var lowered := Map(UniqueList(values), Lower);
    FilterUnique(Dedup(lowered), m => m in MATERIAL_TOKENS);
    forall x | x in ReadMaterials(values)
      ensures IsCleanText(x) && Lower(x) == x
    {
      var i :| 0 <= i < |lowered| && lowered[i] == x;
      assert UniqueList(values)[i] in UniqueList(values);
      LowerIsClean(UniqueList(values)[i]);
      LowerIsIdempotent(UniqueList(values)[i]);
    }
  }

  lemma ReadMaterialsKeeps(list: seq<string>)
    requires IsMaterialList(list)
    ensures ReadMaterials(list) == list
  {
    UniqueListKeeps(list);
    var lowered := Map(list, Lower);
    assert forall i :: 0 <= i < |list| ==> list[i] in list;
    assert lowered == list;
    DedupKeeps(list);
    FilterAll(list, m => m in MATERIAL_TOKENS);
  }

  // ---- The filter state ----

  datatype Filters = Filters(
    typeIds: seq<string>,
    wasteProcessingTypes: seq<string>,
    applicationTypeIds: seq<string>,
    statusGroups: seq<string>,
    stateIds: seq<string>,
    materials: seq<string>,
    sort: Option<Sort>,
    sortExplicit: bool,
    organisation: string,
    search: string,
    page: int,
    assigneeMode: Mode,
    assigneeModeExplicit: bool,
    assigneeUserId: Option<string>,
    backendAssigneeId: Option<string>,
    backendUnassignedOnly: bool,
    nations: seq<string>,
    includeArchived: bool,
    filtersApplied: bool)

  function ParseSort(values: seq<string>): Option<Sort> {
    if values == [SortToken(DueDate)] then Some(DueDate)
    else if values == [SortToken(Organisation)] then Some(Organisation)
    else if values == [SortToken(Status)] then Some(Status)
    else None
  }

  /** `resolveSort`: the value, and whether the user chose it. */
  function ResolveSort(values: seq<string>, filtersApplied: bool): (Option<Sort>, bool) {
    if ParseSort(values).Some? then (ParseSort(values), true)
    else if values != [] || filtersApplied then (None, false)
    else (Some(DueDate), false)
  }

  function ParseMode(values: seq<string>): Option<Mode> {
    if values == [ModeToken(Mine)] then Some(Mine)
    else if values == [ModeToken(Unassigned)] then Some(Unassigned)
    else if values == [ModeToken(SpecificUser)] then Some(SpecificUser)
    else None
  }

  /** `resolveAssigneeMode` */
  function ResolveAssigneeMode(values: seq<string>, filtersApplied: bool): (Mode, bool) {
    if ParseMode(values).Some? then (ParseMode(values).value, true)
    else if values != [] || filtersApplied then (Any, false)
    else (Mine, false)
  }

  function DefaultNations(user: User): seq<string> {
    var roles := Filter(user.roles, r => NationOf(r).Some?);
    if |roles| == 1 && NationOf(roles[0]).Some? then [NationOf(roles[0]).value] else []
  }

  /** `resolveNations` */
  function ResolveNations(values: seq<string>, user: User, filtersApplied: bool): seq<string> {
    var chosen := ReadList(values, VALID_NATIONS);
    if chosen != [] then chosen
    else if filtersApplied then []
    else DefaultNations(user)
  }

  /** A parameter that must be a single string. */
  function ReadText(values: seq<string>): string {
    if |values| == 1 then Trim(values[0]) else ""
  }

  function Join(values: seq<string>): string {
    if values == [] then ""
    else if |values| == 1 then values[0]
    else values[0] + "," + Join(values[1..])
  }

  /** `clampPositiveInt(query.page, 1)`: `parseInt` sees an array joined with
      commas, and nothing as `undefined`. */
  function ReadPage(values: seq<string>): int {
    var parsed := if values == [] then None else ParseInt(Join(values));
    if parsed.Some? && parsed.value >= 1 then parsed.value else 1
  }

  function WasteProcessingTypes(typeIds: seq<string>): seq<string> {
    var exporter, reprocessor := "exporter" in typeIds, "re-accreditation" in typeIds;
    if exporter == reprocessor then [] else if exporter then ["Exporter"] else ["Reprocessor"]
  }

  function Flatten(groups: seq<string>): seq<string> {
    if groups == [] then [] else StateIdsOf(groups[0]) + Flatten(groups[1..])
  }

  /** The filters with everything derived from the choices filled in. */
  function WithDerived(f: Filters, user: User): Filters {
    var hasUser := user.id.Some? && user.id.value != "";
    f.(wasteProcessingTypes := WasteProcessingTypes(f.typeIds),
       stateIds := Dedup(Flatten(f.statusGroups)),
       backendAssigneeId :=
         if f.assigneeMode == Mine && hasUser then user.id
         else if f.assigneeMode == SpecificUser && f.assigneeUserId.Some? then f.assigneeUserId
         else None,
       backendUnassignedOnly := f.assigneeMode == Unassigned)
  }

  function ReadUserId(values: seq<string>): Option<string> {
    if ReadText(values) != "" then Some(ReadText(values)) else None
  }

  predicate IsOneOf(values: seq<string>, a: string, b: string) {
    values == [a] || values == [b]
  }

  /** `readFilters` */
  function ReadFilters(query: Query, user: User): Filters {
    var filtersApplied := Get(query, FiltersAppliedParam) == ["1"];
    var (sort, sortExplicit) := ResolveSort(Get(query, SortParam), filtersApplied);
    var (mode, modeExplicit) := ResolveAssigneeMode(Get(query, AssigneeModeParam), filtersApplied);
    WithDerived(
      Filters(
        ReadList(Get(query, TypeParam), ALLOWED_TYPE_IDS), [],
        ReadList(Get(query, ApplicationTypeParam), ALLOWED_APPLICATION_TYPE_IDS),
        ReadList(Get(query, StatusParam), STATUS_GROUPS), [],
        ReadMaterials(Get(query, MaterialParam)),
        sort, sortExplicit,
        ReadText(Get(query, OrganisationParam)),
        ReadText(Get(query, SearchParam)),
        ReadPage(Get(query, PageParam)),
        mode, modeExplicit,
        ReadUserId(Get(query, AssigneeUserIdParam)), None, false,
        ResolveNations(Get(query, NationParam), user, filtersApplied),
        IsOneOf(Get(query, IncludeArchivedParam), "true", "1"),
        filtersApplied),
      user)
  }

  // ---- buildHref ----

  function ListPairs(key: Param, values: seq<string>): seq<Pair> {
    Map(values, (v: string) => Pair(key, v))
  }

  function Only(condition: bool, key: Param, value: string): seq<Pair> {
    if condition then [Pair(key, value)] else []
  }

  function SortPairs(f: Filters): seq<Pair> {
    if f.sort.Some? && f.sortExplicit then [Pair(SortParam, SortToken(f.sort.value))] else []
  }

  function AssigneePairs(f: Filters): seq<Pair> {
    if !f.assigneeModeExplicit || f.assigneeMode == Any then []
    else
      [Pair(AssigneeModeParam, ModeToken(f.assigneeMode))]
      + (if f.assigneeMode == SpecificUser && f.assigneeUserId.Some? && f.assigneeUserId.value != ""
         then [Pair(AssigneeUserIdParam, f.assigneeUserId.value)] else [])
  }

  function PagePairs(f: Filters): seq<Pair> {
    if f.page > 1 then [Pair(PageParam, PrintNat(f.page))] else []
  }

  /** The checkbox groups, in the order they are printed. */
  function ListsPart(f: Filters): seq<Pair> {
    ListPairs(TypeParam, f.typeIds) + ListPairs(ApplicationTypeParam, f.applicationTypeIds)
    + ListPairs(StatusParam, f.statusGroups) + ListPairs(NationParam, f.nations) + ListPairs(MaterialParam, f.materials)
  }

  function SwitchesPart(f: Filters): seq<Pair> {
    SortPairs(f) + Only(f.filtersApplied, FiltersAppliedParam, "1") + Only(f.includeArchived, IncludeArchivedParam, "true")
  }

  function RestPart(f: Filters): seq<Pair> {
    Only(f.search != "", SearchParam, f.search) + Only(f.organisation != "", OrganisationParam, f.organisation)
    + AssigneePairs(f) + PagePairs(f)
  }

  /** What `buildHref` puts after the `?`, in order. */
  function Href(f: Filters): seq<Pair> {
    ListsPart(f) + SwitchesPart(f) + RestPart(f)
  }

  method AppendAll(params: seq<Pair>, key: Param, values: seq<string>) returns (out: seq<Pair>)
    ensures out == params + ListPairs(key, values)
  {
    out := params;
    for i := 0 to |values|
      invariant out == params + ListPairs(key, values)[..i]
    {
      out := out + [Pair(key, values[i])];
    }
  }

  method PrintLists(f: Filters) returns (params: seq<Pair>)
    ensures params == ListsPart(f)
  {
    params := AppendAll([], TypeParam, f.typeIds);
    params := AppendAll(params, ApplicationTypeParam, f.applicationTypeIds);
    params := AppendAll(params, StatusParam, f.statusGroups);
    params := AppendAll(params, NationParam, f.nations);
    params := AppendAll(params, MaterialParam, f.materials);
    assert [] + ListPairs(TypeParam, f.typeIds) == ListPairs(TypeParam, f.typeIds);
  }

  method PrintSwitches(f: Filters) returns (params: seq<Pair>)
    ensures params == SwitchesPart(f)
  {
    params := [];
    if f.sort.Some? && f.sortExplicit {
      params := params + [Pair(SortParam, SortToken(f.sort.value))];
    }
    assert params == SortPairs(f);
    if f.filtersApplied {
      params := params + [Pair(FiltersAppliedParam, "1")];
    }
    assert params == SortPairs(f) + Only(f.filtersApplied, FiltersAppliedParam, "1");
    if f.includeArchived {
      params := params + [Pair(IncludeArchivedParam, "true")];
    }
  }

  method PrintRest(f: Filters) returns (params: seq<Pair>)
    ensures params == RestPart(f)
  {
    params := [];
    if f.search != "" {
      params := params + [Pair(SearchParam, f.search)];
    }
    assert params == Only(f.search != "", SearchParam, f.search);
    if f.organisation != "" {
      params := params + [Pair(OrganisationParam, f.organisation)];
    }
    ghost var before := params;
    assert params == Only(f.search != "", SearchParam, f.search)
                     + Only(f.organisation != "", OrganisationParam, f.organisation);
    if f.assigneeModeExplicit && f.assigneeMode != Any {
      params := params + [Pair(AssigneeModeParam, ModeToken(f.assigneeMode))];
      if f.assigneeMode == SpecificUser && f.assigneeUserId.Some? && f.assigneeUserId.value != "" {
        params := params + [Pair(AssigneeUserIdParam, f.assigneeUserId.value)];
      }
    }
    assert params == before + AssigneePairs(f);
    before := params;
    if f.page > 1 {
      params := params + [Pair(PageParam, PrintNat(f.page))];
    }
    assert params == before + PagePairs(f);
  }

  /** `buildHref` */
  method BuildHref(f: Filters) returns (params: seq<Pair>)
    ensures params == Href(f)
  {
    params := PrintLists(f);
    var switches := PrintSwitches(f);
    var rest := PrintRest(f);
    params := params + switches + rest;
  }

  // ---- Reading back what was printed ----

  lemma ValuesAppend(a: seq<Pair>, b: seq<Pair>, p: Param)
    ensures ValuesOf(a + b, p) == ValuesOf(a, p) + ValuesOf(b, p)
  {
    FilterAppend(a, b, (x: Pair) => x.key == p);
  }

  lemma ValuesOfList(key: Param, values: seq<string>, p: Param)
    ensures ValuesOf(ListPairs(key, values), p) == if p == key then values else []
  {
    var pairs := ListPairs(key, values);
    assert forall x :: x in pairs ==> x.key == key;
    if p == key {
      FilterAll(pairs, (x: Pair) => x.key == p);
    } else {
      FilterNone(pairs, (x: Pair) => x.key == p);
    }
  }

  lemma ValuesOfOne(pair: Pair, p: Param)
    ensures ValuesOf([pair], p) == if p == pair.key then [pair.value] else []
    ensures ValuesOf([], p) == []
  {
    var q := (x: Pair) => x.key == p;
    assert [pair][1..] == [];
    assert Filter([pair], q) == if q(pair) then [pair] else [];
  }

  function OneIf(condition: bool, value: string): seq<string> {
    if condition then [value] else []
  }

  /** The values each parameter is printed with. */
  function Printed(f: Filters, p: Param): seq<string> {
    match p
    case TypeParam => f.typeIds
    case ApplicationTypeParam => f.applicationTypeIds
    case StatusParam => f.statusGroups
    case NationParam => f.nations
    case MaterialParam => f.materials
    case SortParam => if f.sort.Some? && f.sortExplicit then [SortToken(f.sort.value)] else []
    case FiltersAppliedParam => OneIf(f.filtersApplied, "1")
    case IncludeArchivedParam => OneIf(f.includeArchived, "true")
    case SearchParam => OneIf(f.search != "", f.search)
    case OrganisationParam => OneIf(f.organisation != "", f.organisation)
    case AssigneeModeParam => OneIf(f.assigneeModeExplicit && f.assigneeMode != Any, ModeToken(f.assigneeMode))
    case AssigneeUserIdParam =>
      if f.assigneeModeExplicit && f.assigneeMode == SpecificUser && f.assigneeUserId.Some? && f.assigneeUserId.value != ""
      then [f.assigneeUserId.value] else []
    case PageParam => if f.page > 1 then [PrintNat(f.page)] else []
  }

  lemma ListsPrinted(f: Filters, p: Param)
    ensures ValuesOf(ListsPart(f), p)
            == if IsListParam(p) then Printed(f, p) else []
  {
    hide ValuesOf, ListPairs;
    var a, b, c, d, e :=
      ListPairs(TypeParam, f.typeIds), ListPairs(ApplicationTypeParam, f.applicationTypeIds),
      ListPairs(StatusParam, f.statusGroups), ListPairs(NationParam, f.nations), ListPairs(MaterialParam, f.materials);
    ValuesAppend(a, b, p);
    ValuesAppend(a + b, c, p);
    ValuesAppend(a + b + c, d, p);
    ValuesAppend(a + b + c + d, e, p);
    ValuesOfList(TypeParam, f.typeIds, p);
    ValuesOfList(ApplicationTypeParam, f.applicationTypeIds, p);
    ValuesOfList(StatusParam, f.statusGroups, p);
    ValuesOfList(NationParam, f.nations, p);
    ValuesOfList(MaterialParam, f.materials, p);
  }

  lemma OnlyPrinted(condition: bool, key: Param, value: string, p: Param)
    ensures ValuesOf(Only(condition, key, value), p) == if p == key then OneIf(condition, value) else []
  {
    hide ValuesOf;
    ValuesOfOne(Pair(key, value), p);
  }

  lemma AssigneePrinted(f: Filters, p: Param)
    ensures ValuesOf(AssigneePairs(f), p)
            == if p == AssigneeModeParam || p == AssigneeUserIdParam then Printed(f, p) else []
  {
    hide ValuesOf;
    ValuesOfOne(Pair(AssigneeModeParam, ModeToken(f.assigneeMode)), p);
    if f.assigneeUserId.Some? {
      var mode, user := Pair(AssigneeModeParam, ModeToken(f.assigneeMode)), Pair(AssigneeUserIdParam, f.assigneeUserId.value);
      ValuesOfOne(user, p);
      ValuesAppend([mode], [user], p);
    }
    assert [Pair(AssigneeModeParam, ModeToken(f.assigneeMode))] + [] == [Pair(AssigneeModeParam, ModeToken(f.assigneeMode))];
  }

  predicate IsListParam(p: Param) {
    p == TypeParam || p == ApplicationTypeParam || p == StatusParam || p == NationParam || p == MaterialParam
  }

  predicate IsSwitchParam(p: Param) {
    p == SortParam || p == FiltersAppliedParam || p == IncludeArchivedParam
  }

  lemma SwitchesPrinted(f: Filters, p: Param)
    ensures ValuesOf(SwitchesPart(f), p) == if IsSwitchParam(p) then Printed(f, p) else []
  {
    hide ValuesOf, Only, SortPairs, OneIf;
    var a, b, c :=
      SortPairs(f), Only(f.filtersApplied, FiltersAppliedParam, "1"), Only(f.includeArchived, IncludeArchivedParam, "true");
    ValuesAppend(a, b, p);
    ValuesAppend(a + b, c, p);
    hide Printed;
    EndsPrinted(f, p);
    TogglesPrinted(f, p);
  }

  lemma TogglesPrinted(f: Filters, p: Param)
    ensures ValuesOf(Only(f.filtersApplied, FiltersAppliedParam, "1"), p)
            == if p == FiltersAppliedParam then Printed(f, p) else []
    ensures ValuesOf(Only(f.includeArchived, IncludeArchivedParam, "true"), p)
            == if p == IncludeArchivedParam then Printed(f, p) else []
  {
    hide ValuesOf, Only, OneIf;
    OnlyPrinted(f.filtersApplied, FiltersAppliedParam, "1", p);
    OnlyPrinted(f.includeArchived, IncludeArchivedParam, "true", p);
  }

  lemma TextsPrinted(f: Filters, p: Param)
    ensures ValuesOf(Only(f.search != "", SearchParam, f.search), p) == if p == SearchParam then Printed(f, p) else []
    ensures ValuesOf(Only(f.organisation != "", OrganisationParam, f.organisation), p)
            == if p == OrganisationParam then Printed(f, p) else []
  {
    hide ValuesOf, Only, OneIf;
    OnlyPrinted(f.search != "", SearchParam, f.search, p);
    OnlyPrinted(f.organisation != "", OrganisationParam, f.organisation, p);
  }

  lemma RestPrinted(f: Filters, p: Param)
    ensures ValuesOf(RestPart(f), p) == if IsListParam(p) || IsSwitchParam(p) then [] else Printed(f, p)
  {
    hide ValuesOf, Only, AssigneePairs, PagePairs, OneIf, Printed;
    var a, b, c, d :=
      Only(f.search != "", SearchParam, f.search), Only(f.organisation != "", OrganisationParam, f.organisation),
      AssigneePairs(f), PagePairs(f);
    ValuesAppend(a, b, p);
    ValuesAppend(a + b, c, p);
    ValuesAppend(a + b + c, d, p);
    EndsPrinted(f, p);
    TextsPrinted(f, p);
    AssigneePrinted(f, p);
  }

  lemma EndsPrinted(f: Filters, p: Param)
    ensures ValuesOf(SortPairs(f), p) == if p == SortParam then Printed(f, p) else []
    ensures ValuesOf(PagePairs(f), p) == if p == PageParam then Printed(f, p) else []
  {
    hide ValuesOf, PrintNat;
    if f.sort.Some? {
      ValuesOfOne(Pair(SortParam, SortToken(f.sort.value)), p);
    }
    if f.page > 1 {
      ValuesOfOne(Pair(PageParam, PrintNat(f.page)), p);
    }
    ValuesOfOne(Pair(PageParam, ""), p);
  }

  /** A printed URL, parsed again, gives every parameter the values it was
      printed with. */
  lemma PrintedIsParsed(f: Filters, p: Param)
    ensures Get(Regroup(Href(f)), p) == Printed(f, p)
  {
    hide ValuesOf, ListsPart, SwitchesPart, RestPart, Printed;
    ValuesAppend(ListsPart(f), SwitchesPart(f), p);
    ValuesAppend(ListsPart(f) + SwitchesPart(f), RestPart(f), p);
    ListsPrinted(f, p);
    SwitchesPrinted(f, p);
    RestPrinted(f, p);
  }

  // ---- The round trip ----

  /** What holds of every filter state that is read, and of every one a link is
      printed from. */
  ghost predicate Printable(f: Filters) {
    && IsChoice(f.typeIds, ALLOWED_TYPE_IDS)
    && IsChoice(f.applicationTypeIds, ALLOWED_APPLICATION_TYPE_IDS)
    && IsChoice(f.statusGroups, STATUS_GROUPS)
    && IsChoice(f.nations, VALID_NATIONS)
    && IsMaterialList(f.materials)
    && Trim(f.organisation) == f.organisation && Trim(f.search) == f.search
    && ModesFit(f)
  }

  predicate ModesFit(f: Filters) {
    && f.page >= 1
    && (f.sortExplicit ==> f.sort.Some?)
    && (f.assigneeModeExplicit ==> f.assigneeMode != Any)
    && (f.assigneeMode == SpecificUser ==> f.assigneeModeExplicit)
    && (f.assigneeUserId.Some? ==> IsCleanText(f.assigneeUserId.value))
  }

  lemma NationsAreClean(values: seq<string>, user: User, filtersApplied: bool)
    ensures IsChoice(ResolveNations(values, user, filtersApplied), VALID_NATIONS)
  {
    ReadListIsClean(values, VALID_NATIONS);
    var roles := Filter(user.roles, r => NationOf(r).Some?);
    if |roles| == 1 {
      NationIsClean(roles[0]);
    }
  }

  lemma NationIsClean(role: string)
    ensures NationOf(role).Some? ==> IsCleanText(NationOf(role).value) && NationOf(role).value in VALID_NATIONS
  {
    if NationOf(role).Some? {
      TrimKeeps(NationOf(role).value);
    }
  }

  lemma TextIsTrimmed(values: seq<string>)
    ensures Trim(ReadText(values)) == ReadText(values)
  {
    if |values| == 1 {
      TrimIsIdempotent(values[0]);
    } else {
      TrimKeeps("");
    }
  }

  lemma ReadIsPrintable(query: Query, user: User)
    ensures Printable(ReadFilters(query, user))
  {
    hide IsChoice, IsMaterialList, ReadList, ReadMaterials, ReadText, ResolveNations;
    ReadListIsClean(Get(query, TypeParam), ALLOWED_TYPE_IDS);
    ReadListIsClean(Get(query, ApplicationTypeParam), ALLOWED_APPLICATION_TYPE_IDS);
    ReadListIsClean(Get(query, StatusParam), STATUS_GROUPS);
    NationsAreClean(Get(query, NationParam), user, Get(query, FiltersAppliedParam) == ["1"]);
    ReadMaterialsIsClean(Get(query, MaterialParam));
    TextIsTrimmed(Get(query, OrganisationParam));
    TextIsTrimmed(Get(query, SearchParam));
    TextIsTrimmed(Get(query, AssigneeUserIdParam));
  }

  /** What a link printed from `f` reads as: an explicit choice is kept, anything
      else falls back to the default, and an officer not in use is dropped. */
  function Reread(f: Filters, user: User): Filters {
    WithDerived(
      f.(wasteProcessingTypes := [], stateIds := [], backendAssigneeId := None, backendUnassignedOnly := false,
         sort := if f.sortExplicit then f.sort else ResolveSort([], f.filtersApplied).0,
         assigneeMode := if f.assigneeModeExplicit then f.assigneeMode else ResolveAssigneeMode([], f.filtersApplied).0,
         assigneeUserId := if f.assigneeMode == SpecificUser then f.assigneeUserId else None,
         nations := if f.nations == [] && !f.filtersApplied then DefaultNations(user) else f.nations),
      user)
  }

  lemma SortRereads(f: Filters)
    requires f.sortExplicit ==> f.sort.Some?
    ensures ResolveSort(Printed(f, SortParam), f.filtersApplied)
            == if f.sortExplicit then (f.sort, true) else ResolveSort([], f.filtersApplied)
    ensures !ResolveSort([], f.filtersApplied).1
  {
    assert SortToken(DueDate)[0] == 'd' && SortToken(Organisation)[0] == 'o' && SortToken(Status)[0] == 's';
    if f.sortExplicit {
      assert [SortToken(f.sort.value)][0] == SortToken(f.sort.value);
    }
  }

  lemma ModeRereads(f: Filters)
    requires f.assigneeModeExplicit ==> f.assigneeMode != Any
    ensures ResolveAssigneeMode(Printed(f, AssigneeModeParam), f.filtersApplied)
            == if f.assigneeModeExplicit then (f.assigneeMode, true) else ResolveAssigneeMode([], f.filtersApplied)
    ensures !ResolveAssigneeMode([], f.filtersApplied).1
  {
    assert ModeToken(Mine)[0] == 'm' && ModeToken(Unassigned)[1] == 'n' && ModeToken(SpecificUser)[1] == 's';
    if f.assigneeModeExplicit {
      assert [ModeToken(f.assigneeMode)][0] == ModeToken(f.assigneeMode);
    }
  }

  lemma PageRereads(f: Filters)
    requires f.page >= 1
    ensures ReadPage(Printed(f, PageParam)) == f.page
  {
    if f.page > 1 {
      ParseIntPrint(f.page);
    }
  }

  lemma UserIdRereads(f: Filters)
    requires f.assigneeUserId.Some? ==> IsCleanText(f.assigneeUserId.value)
    requires f.assigneeMode == SpecificUser ==> f.assigneeModeExplicit
    ensures ReadUserId(Printed(f, AssigneeUserIdParam)) == if f.assigneeMode == SpecificUser then f.assigneeUserId else None
  {
  }

  lemma SwitchesReread(f: Filters)
    ensures Printed(f, FiltersAppliedParam) == ["1"] <==> f.filtersApplied
    ensures IsOneOf(Printed(f, IncludeArchivedParam), "true", "1") <==> f.includeArchived
  {
  }

  lemma NationsReread(f: Filters, user: User)
    requires IsChoice(f.nations, VALID_NATIONS)
    ensures ResolveNations(Printed(f, NationParam), user, f.filtersApplied)
            == if f.nations == [] && !f.filtersApplied then DefaultNations(user) else f.nations
  {
    hide ReadList, DefaultNations;
    ReadListKeeps(f.nations, VALID_NATIONS);
  }

  lemma HrefRereads(f: Filters, user: User)
    requires Printable(f)
    ensures ReadFilters(Regroup(Href(f)), user) == Reread(f, user)
  {
    hide Href, Regroup, Get, ReadList, ReadMaterials, ReadPage, ReadUserId, ResolveNations, ResolveSort,
         ResolveAssigneeMode, IsChoice, IsMaterialList, IsOneOf, WithDerived, DefaultNations, PrintNat;
    forall p ensures Get(Regroup(Href(f)), p) == Printed(f, p) {
      PrintedIsParsed(f, p);
    }
    SwitchesReread(f);
    ReadListKeeps(f.typeIds, ALLOWED_TYPE_IDS);
    ReadListKeeps(f.applicationTypeIds, ALLOWED_APPLICATION_TYPE_IDS);
    ReadListKeeps(f.statusGroups, STATUS_GROUPS);
    ReadMaterialsKeeps(f.materials);
    NationsReread(f, user);
    SortRereads(f);
    ModeRereads(f);
    PageRereads(f);
    UserIdRereads(f);
  }

  /** The filters without an officer that is chosen but not in use. */
  function InUse(f: Filters): Filters {
    f.(assigneeUserId := if f.assigneeMode == SpecificUser then f.assigneeUserId else None)
  }

  /** The query has a `sort` or an `assigneeMode` that means nothing. */
  predicate HasJunk(query: Query) {
    || (Get(query, SortParam) != [] && ParseSort(Get(query, SortParam)).None?)
    || (Get(query, AssigneeModeParam) != [] && ParseMode(Get(query, AssigneeModeParam)).None?)
  }

  lemma DerivedTwice(f: Filters, g: Filters, user: User)
    requires WithDerived(g, user) == g
    requires f == g.(wasteProcessingTypes := [], stateIds := [], backendAssigneeId := None, backendUnassignedOnly := false)
    ensures WithDerived(f, user) == g
  {
  }

  lemma InUseIsDerived(query: Query, user: User)
    ensures WithDerived(InUse(ReadFilters(query, user)), user) == InUse(ReadFilters(query, user))
  {
    hide ReadList, ReadMaterials, ReadPage, ReadText, ReadUserId, ResolveNations, ResolveSort, ResolveAssigneeMode, IsOneOf,
         WasteProcessingTypes, Flatten, Dedup;
  }

  lemma ModeIsNotAny(values: seq<string>)
    ensures ParseMode(values) != Some(Any)
  {
  }

  lemma DefaultsKept(query: Query, user: User)
    ensures var f := ReadFilters(query, user);
            && ((if f.sortExplicit then f.sort else ResolveSort([], f.filtersApplied).0) == f.sort
                <==> f.filtersApplied || f.sortExplicit || Get(query, SortParam) == [])
            && ((if f.assigneeModeExplicit then f.assigneeMode else ResolveAssigneeMode([], f.filtersApplied).0) == f.assigneeMode
                <==> f.filtersApplied || f.assigneeModeExplicit || Get(query, AssigneeModeParam) == [])
            && (f.sortExplicit <==> ParseSort(Get(query, SortParam)).Some?)
            && (f.assigneeModeExplicit <==> ParseMode(Get(query, AssigneeModeParam)).Some?)
  {
    assert ParseSort([]) == None && ParseMode([]) == None;
    hide ReadList, ReadMaterials, ReadPage, ReadText, ReadUserId, ResolveNations, ParseSort, ParseMode, WithDerived, IsOneOf;
    DerivedKeeps(query, user);
    ModeIsNotAny(Get(query, AssigneeModeParam));
  }

  lemma DerivedKeeps(query: Query, user: User)
    ensures var f := ReadFilters(query, user);
            && f.filtersApplied == (Get(query, FiltersAppliedParam) == ["1"])
            && (f.sort, f.sortExplicit) == ResolveSort(Get(query, SortParam), f.filtersApplied)
            && (f.assigneeMode, f.assigneeModeExplicit)
               == ResolveAssigneeMode(Get(query, AssigneeModeParam), f.filtersApplied)
            && f.nations == ResolveNations(Get(query, NationParam), user, f.filtersApplied)
  {
    hide ReadList, ReadMaterials, ReadPage, ReadText, ReadUserId, ResolveNations, ResolveSort, ResolveAssigneeMode, IsOneOf;
  }

  lemma NationsKept(query: Query, user: User)
    ensures var f := ReadFilters(query, user);
            (if f.nations == [] && !f.filtersApplied then DefaultNations(user) else f.nations) == f.nations
  {
    hide ReadList, ReadMaterials, ReadPage, ReadText, ReadUserId, ResolveSort, ResolveAssigneeMode, DefaultNations,
         WithDerived, IsOneOf;
    DerivedKeeps(query, user);
  }

  /** For every query and user, the filters read, printed as a link, parsed and
      read again are the same filters, derived fields included, exactly when the
      form was submitted or neither `sort` nor `assigneeMode` is junk. */
  lemma RoundTripsExactly(query: Query, user: User)
    ensures var f := ReadFilters(query, user);
            ReadFilters(Regroup(Href(f)), user) == InUse(f) <==> f.filtersApplied || !HasJunk(query)
  {
    hide Href, Regroup, ReadFilters, Printable, WithDerived, ResolveSort, ResolveAssigneeMode, DefaultNations, ParseSort,
         ParseMode;
    var f := ReadFilters(query, user);
    ReadIsPrintable(query, user);
    HrefRereads(f, user);
    DefaultsKept(query, user);
    NationsKept(query, user);
    InUseIsDerived(query, user);
    RereadFields(f, user);
    var g := InUse(f);
    if f.filtersApplied || !HasJunk(query) {
      DerivedTwice(g.(wasteProcessingTypes := [], stateIds := [], backendAssigneeId := None, backendUnassignedOnly := false),
                   g, user);
    }
  }

  lemma RereadFields(f: Filters, user: User)
    ensures Reread(f, user).sort == if f.sortExplicit then f.sort else ResolveSort([], f.filtersApplied).0
    ensures Reread(f, user).assigneeMode
            == if f.assigneeModeExplicit then f.assigneeMode else ResolveAssigneeMode([], f.filtersApplied).0
  {
    hide ResolveSort, ResolveAssigneeMode, DefaultNations;
  }

  /** For instance `?sort=sideways`: read as no order, but its own page links read
      as the default order again. */
  lemma JunkSortComesBack(user: User)
    ensures var f := ReadFilters(map[SortParam := ["sideways"]], user);
            && f.sort == None
            && ReadFilters(Regroup(Href(f)), user).sort == Some(DueDate)
  {
    hide ReadList, ReadMaterials, ReadPage, ReadUserId, ResolveNations, Href, Regroup, Printable;
    var query: Query := map[SortParam := ["sideways"]];
    assert ["sideways"][0] == "sideways" && |"sideways"| == 8 && |"due-date"| == 8 && "sideways"[0] == 's';
    DerivedKeeps(query, user);
    ReadIsPrintable(query, user);
    HrefRereads(ReadFilters(query, user), user);
    RereadFields(ReadFilters(query, user), user);
  }
}
