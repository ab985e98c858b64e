/** What the applications list makes of a query, told on the values the query has:
    which choices are read, in what order the list comes, and whose applications it
    shows. */
module ListReads {
  import opened Prelude
  import opened Text
  import opened WorkItemFilters

  /** The choice `x` was ticked, whatever white space came with it. */
  ghost predicate Ticked(query: Query, p: Param, x: string) {
    exists i :: 0 <= i < |Get(query, p)| && Trim(Get(query, p)[i]) == x
  }

  predicate Submitted(query: Query) {
    FiltersAppliedParam in query && query[FiltersAppliedParam] == ["1"]
  }

  lemma ReadListHolds(values: seq<string>, allowed: seq<string>, x: string)
    ensures x in ReadList(values, allowed) <==> x in allowed && x != "" && IsTyped(values, x)
  {
    UniqueListIsClean(values);
  }

  /** Each group of boxes holds exactly the ticked values it offers; a material may be
      ticked in any case. */
  lemma ChoicesExactly(query: Query, user: User, x: string)
    ensures var f := ReadFilters(query, user);
            && (x in f.typeIds <==> (x == "re-accreditation" || x == "exporter") && Ticked(query, TypeParam, x))
            && (x in f.applicationTypeIds
                <==> (|| x == "re-accreditation" || x == "accreditation" || x == "registration-application"
                      || x == "annual-fee-payment")
                     && Ticked(query, ApplicationTypeParam, x))
            && (x in f.statusGroups
                <==> (|| x == "submitted" || x == "duly-made" || x == "updated" || x == "awaiting-decision" || x == "queried"
                      || x == "approved-pending-contact" || x == "approved" || x == "rejected" || x == "withdrawn")
                     && Ticked(query, StatusParam, x))
            && (x in f.materials
                <==> (|| x == "aluminium" || x == "fibre" || x == "glass-other" || x == "glass-remelt" || x == "paper"
                      || x == "plastic" || x == "steel" || x == "wood")
                     && exists i :: 0 <= i < |Get(query, MaterialParam)| && Lower(Trim(Get(query, MaterialParam)[i])) == x)
  {
    ReadListHolds(Get(query, TypeParam), ALLOWED_TYPE_IDS, x);
    ReadListHolds(Get(query, ApplicationTypeParam), ALLOWED_APPLICATION_TYPE_IDS, x);
    ReadListHolds(Get(query, StatusParam), STATUS_GROUPS, x);
    MaterialsHold(Get(query, MaterialParam), x);
    hide ReadList, ReadMaterials, ReadPage, ReadText, ReadUserId, ResolveNations, ResolveSort, ResolveAssigneeMode, IsOneOf,
         WasteProcessingTypes, Flatten, Dedup, Trim, Lower;
  }

  lemma MaterialsHold(values: seq<string>, x: string)
    ensures x in ReadMaterials(values)
            <==> x in MATERIAL_TOKENS && exists i :: 0 <= i < |values| && Lower(Trim(values[i])) == x
  {
    UniqueListIsClean(values);
    var list := UniqueList(values);
    var lowered := Map(list, Lower);
    hide UniqueList, Trim, Lower;
    if x in ReadMaterials(values) {
      var k :| 0 <= k < |lowered| && lowered[k] == x;
      assert list[k] in list;
    }
    if x in MATERIAL_TOKENS && exists i :: 0 <= i < |values| && Lower(Trim(values[i])) == x {
      var i :| 0 <= i < |values| && Lower(Trim(values[i])) == x;
      assert Trim(values[i]) != "" by {
        assert |Lower(Trim(values[i]))| == |Trim(values[i])|;
      }
      assert Trim(values[i]) in list;
      var k :| 0 <= k < |list| && list[k] == Trim(values[i]);
      assert lowered[k] == x;
    }
  }

  /** Typed text is read without the white space around it, and not at all if the
      parameter comes more than once; the two switches only from their own values. */
  lemma TextsExactly(query: Query, user: User)
    ensures var f := ReadFilters(query, user);
            && f.search == (if |Get(query, SearchParam)| == 1 then Trim(Get(query, SearchParam)[0]) else "")
            && f.organisation == (if |Get(query, OrganisationParam)| == 1 then Trim(Get(query, OrganisationParam)[0]) else "")
            && (f.filtersApplied <==> Submitted(query))
            && (f.includeArchived <==> Get(query, IncludeArchivedParam) == ["true"] || Get(query, IncludeArchivedParam) == ["1"])
  {
    hide ReadList, ReadMaterials, ReadPage, ResolveNations, ResolveSort, ResolveAssigneeMode, WasteProcessingTypes, Flatten,
         Dedup, Trim;
  }

  lemma FirstCounts(values: seq<string>)
    requires values != []
    ensures ParseInt(Join(values)) == ParseInt(values[0])
  {
    if |values| > 1 {
      CommaEnds(values[0], Join(values[1..]));
      assert values[0] + "," + Join(values[1..]) == values[0] + ("," + Join(values[1..]));
    }
  }

  /** A number ends at a comma. */
  lemma CommaEnds(s: string, rest: string)
    ensures ParseInt(s + ("," + rest)) == ParseInt(s)
  {
    var pre, sign, digits, after := IntParts(s);
    ParseIntReads(pre, sign, digits, after);
    ParseIntReads(pre, sign, digits, after + ("," + rest));
    assert pre + (sign + (digits + (after + ("," + rest)))) == s + ("," + rest);
  }

  lemma IntParts(s: string) returns (pre: string, sign: string, digits: string, rest: string)
    ensures s == pre + (sign + (digits + rest)) && AllWhite(pre) && AllDigits(digits)
    ensures sign in ["", "-", "+"]
    ensures rest == "" || !IsDigit(rest[0])
    ensures digits == "" && sign == "" ==> rest == "" || (!IsWhite(rest[0]) && rest[0] != '-' && rest[0] != '+')
  {
    pre := TrimStartSplits(s);
    var t := TrimStart(s);
    hide TrimStart, IsWhite;
    if t != "" && t[0] == '-' {
      sign := "-";
      digits, rest := DigitParts(t[1..]);
      assert t == "-" + t[1..];
    } else if t != "" && t[0] == '+' {
      sign := "+";
      digits, rest := DigitParts(t[1..]);
      assert t == "+" + t[1..];
    } else {
      sign := "";
      digits, rest := DigitParts(t);
      assert digits == "" ==> rest == t;
      assert sign + t == t;
    }
  }

  lemma DigitParts(body: string) returns (digits: string, rest: string)
    ensures body == digits + rest && AllDigits(digits) && (rest == "" || !IsDigit(rest[0]))
  {
    digits := TakeDigits(body);
    rest := body[|digits|..];
  }

  /** The page is the number the first `page` value begins with, if that is at least
      1, and page 1 otherwise. */
  lemma PageExactly(query: Query, user: User)
    ensures var f, typed := ReadFilters(query, user), Get(query, PageParam);
            f.page == if typed != [] && ParseInt(typed[0]).Some? && ParseInt(typed[0]).value >= 1 then ParseInt(typed[0]).value
                      else 1
  {
    if Get(query, PageParam) != [] {
      FirstCounts(Get(query, PageParam));
    }
    hide ReadList, ReadMaterials, ReadText, ReadUserId, ResolveNations, ResolveSort, ResolveAssigneeMode, WasteProcessingTypes,
         Flatten, Dedup, IsOneOf, ParseInt, Join;
  }

  /** The order is the one named, a single time; by due date when none is and the
      form was not submitted; and none otherwise. */
  lemma SortExactly(query: Query, user: User)
    ensures var f, named := ReadFilters(query, user), Get(query, SortParam);
            && (f.sort == Some(DueDate) <==> named == ["due-date"] || (named == [] && !Submitted(query)))
            && (f.sort == Some(Organisation) <==> named == ["organisation"])
            && (f.sort == Some(Status) <==> named == ["status"])
            && (f.sortExplicit <==> named == ["due-date"] || named == ["organisation"] || named == ["status"])
  {
    DerivedKeeps(query, user);
    hide ReadFilters;
    OneOfEach("due-date", "organisation", "status", Get(query, SortParam));
    assert "due-date"[0] == 'd' && "organisation"[0] == 'o' && "status"[0] == 's';
  }

  lemma OneOfEach(a: string, b: string, c: string, values: seq<string>)
    requires a != b && b != c && a != c
    ensures !(values == [a] && values == [b]) && !(values == [b] && values == [c]) && !(values == [a] && values == [c])
  {
    if values != [] {
      assert [a][0] == a && [b][0] == b && [c][0] == c;
    }
  }

  // ---- Whose applications ----

  /** What the backend makes of the two assignee fields for an application and who
      holds it. */
  predicate BackendShows(assigneeId: Option<string>, unassignedOnly: bool, holder: Option<string>) {
    (assigneeId.Some? ==> holder == assigneeId) && (unassignedOnly ==> holder.None?)
  }

  /** An application is shown, so far as its holder goes: under "mine", and on
      landing on the list, exactly if the signed-in user holds it; under
      "unassigned" exactly if nobody does; under a named officer exactly if that
      one does; and whoever holds it otherwise. */
  lemma AssigneeFindsExactly(query: Query, user: User, holder: Option<string>)
    ensures var f, mode, officer := ReadFilters(query, user), Get(query, AssigneeModeParam), Get(query, AssigneeUserIdParam);
            BackendShows(f.backendAssigneeId, f.backendUnassignedOnly, holder)
            <==> if mode == ["mine"] || (mode == [] && !Submitted(query))
                 then user.id.Some? && user.id.value != "" ==> holder == user.id
                 else if mode == ["unassigned"] then holder == None
                 else if mode == ["user"] && |officer| == 1 && Trim(officer[0]) != "" then holder == Some(Trim(officer[0]))
                 else true
  {
    DerivedKeeps(query, user);
    AssigneeFields(query, user);
    ModeExactly(Get(query, AssigneeModeParam), Submitted(query));
    hide ReadFilters, ResolveAssigneeMode, Trim;
  }

  lemma ModeExactly(named: seq<string>, submitted: bool)
    ensures var mode := ResolveAssigneeMode(named, submitted).0;
            && (mode == Mine <==> named == ["mine"] || (named == [] && !submitted))
            && (mode == Unassigned <==> named == ["unassigned"])
            && (mode == SpecificUser <==> named == ["user"])
    ensures !(named == ["mine"] && named == ["unassigned"]) && !(named == ["unassigned"] && named == ["user"])
    ensures !(named == ["mine"] && named == ["user"]) && [] != ["unassigned"] && [] != ["user"]
  {
    assert "mine"[0] == 'm' && "unassigned"[1] == 'n' && "user"[1] == 's';
    OneOfEach("mine", "unassigned", "user", named);
    assert |["unassigned"]| == 1 && |["user"]| == 1;
  }

  /** The two fields sent, from the mode and the officer read. */
  lemma AssigneeFields(query: Query, user: User)
    ensures var f, officer := ReadFilters(query, user), Get(query, AssigneeUserIdParam);
            && f.backendUnassignedOnly == (f.assigneeMode == Unassigned)
            && f.backendAssigneeId ==
               if f.assigneeMode == Mine && user.id.Some? && user.id.value != "" then user.id
               else if f.assigneeMode == SpecificUser && |officer| == 1 && Trim(officer[0]) != "" then Some(Trim(officer[0]))
               else None
  {
    hide ReadList, ReadMaterials, ReadPage, ResolveNations, ResolveSort, ResolveAssigneeMode, WasteProcessingTypes, Flatten,
         Dedup, IsOneOf, Trim;
  }

  // ---- Which nations ----

  predicate IsNation(x: string) {
    x == "England" || x == "Scotland" || x == "Wales" || x == "NorthernIreland"
  }

  /** The role of the regulator of a nation. */
  predicate Regulates(role: string, nation: string) {
    || (role == "role:nation-england" && nation == "England")
    || (role == "role:nation-scotland" && nation == "Scotland")
    || (role == "role:nation-wales" && nation == "Wales")
    || (role == "role:nation-northern-ireland" && nation == "NorthernIreland")
  }

  predicate RegulatesOne(role: string) {
    || role == "role:nation-england" || role == "role:nation-scotland" || role == "role:nation-wales"
    || role == "role:nation-northern-ireland"
  }

  /** The user holds one nation's role, and only once. */
  ghost predicate OnlyRegulates(user: User, nation: string) {
    exists i :: 0 <= i < |user.roles| && Regulates(user.roles[i], nation)
                && forall j :: 0 <= j < |user.roles| && j != i ==> !RegulatesOne(user.roles[j])
  }

  lemma NationOfExactly(role: string, nation: string)
    ensures NationOf(role) == Some(nation) <==> Regulates(role, nation)
    ensures NationOf(role).Some? <==> RegulatesOne(role)
  {
  }

  /** Place `i` is the only one with an element that passes. */
  ghost predicate OnlyAt(roles: seq<string>, p: string -> bool, i: int) {
    0 <= i < |roles| && p(roles[i]) && forall j :: 0 <= j < |roles| && j != i ==> !p(roles[j])
  }

  lemma OnlyAtHead(roles: seq<string>, p: string -> bool)
    requires roles != [] && p(roles[0])
    ensures OnlyAt(roles, p, 0) <==> Filter(roles[1..], p) == []
    ensures forall i :: OnlyAt(roles, p, i) ==> i == 0
  {
    var rest := roles[1..];
    if OnlyAt(roles, p, 0) {
      FilterNone(rest, p);
    }
    if Filter(rest, p) == [] {
      forall j | 1 <= j < |roles| ensures !p(roles[j]) {
        assert roles[j] == rest[j - 1];
      }
    }
  }

  lemma OnlyAtTail(roles: seq<string>, p: string -> bool, i: int)
    requires roles != [] && !p(roles[0])
    ensures OnlyAt(roles, p, i) <==> OnlyAt(roles[1..], p, i - 1)
  {
    if OnlyAt(roles[1..], p, i - 1) {
      forall j | 0 <= j < |roles| && j != i ensures !p(roles[j]) {
        assert j > 0 ==> roles[j] == roles[1..][j - 1];
      }
    }
  }

  lemma {:induction false} OneLeft(roles: seq<string>, p: string -> bool, r: string)
    ensures Filter(roles, p) == [r] <==> exists i :: OnlyAt(roles, p, i) && roles[i] == r
  {
    if roles != [] {
      var rest := roles[1..];
      hide OnlyAt;
      if p(roles[0]) {
        assert Filter(roles, p) == [roles[0]] + Filter(rest, p);
        HeadAlone(roles[0], Filter(rest, p), r);
        OnlyAtHead(roles, p);
        if Filter(roles, p) == [r] {
          assert OnlyAt(roles, p, 0);
        }
      } else {
        assert Filter(roles, p) == Filter(rest, p);
        OneLeft(rest, p, r);
        if i :| OnlyAt(roles, p, i) && roles[i] == r {
          OnlyAtTail(roles, p, i);
          OnlyAtRange(rest, p, i - 1);
          assert rest[i - 1] == r;
        }
        if i :| OnlyAt(rest, p, i) && rest[i] == r {
          OnlyAtRange(rest, p, i);
          OnlyAtTail(roles, p, i + 1);
          assert roles[i + 1] == r;
        }
      }
    }
  }

  lemma OnlyAtRange(roles: seq<string>, p: string -> bool, i: int)
    requires OnlyAt(roles, p, i)
    ensures 0 <= i < |roles|
  {
  }

  lemma HeadAlone(head: string, rest: seq<string>, r: string)
    ensures [head] + rest == [r] <==> head == r && rest == []
  {
    if [head] + rest == [r] {
      assert |rest| == 0 && ([head] + rest)[0] == [r][0];
    }
  }

  lemma DefaultNationsExactly(user: User, nation: string)
    ensures nation in DefaultNations(user) <==> OnlyRegulates(user, nation)
  {
    var p := (r: string) => NationOf(r).Some?;
    var roles := Filter(user.roles, p);
    forall r ensures NationOf(r).Some? <==> RegulatesOne(r) {
      NationOfExactly(r, nation);
    }
    hide NationOf;
    if nation in DefaultNations(user) {
      OneLeft(user.roles, p, roles[0]);
      assert roles == [roles[0]];
      NationOfExactly(roles[0], nation);
      var i :| OnlyAt(user.roles, p, i) && user.roles[i] == roles[0];
      assert Regulates(user.roles[i], nation);
    }
    if i :| 0 <= i < |user.roles| && Regulates(user.roles[i], nation)
            && forall j :: 0 <= j < |user.roles| && j != i ==> !RegulatesOne(user.roles[j]) {
      NationOfExactly(user.roles[i], nation);
      assert OnlyAt(user.roles, p, i);
      OneLeft(user.roles, p, user.roles[i]);
    }
  }

  /** The nations are the ones ticked; if none is and the form was not submitted,
      the one the user regulates, if it is only one. */
  lemma NationsExactly(query: Query, user: User, x: string)
    ensures x in ReadFilters(query, user).nations
            <==> || (IsNation(x) && Ticked(query, NationParam, x))
                 || (&& !Submitted(query) && OnlyRegulates(user, x)
                     && forall y :: IsNation(y) ==> !Ticked(query, NationParam, y))
  {
    DerivedKeeps(query, user);
    var chosen := ReadList(Get(query, NationParam), VALID_NATIONS);
    forall y ensures y in chosen <==> IsNation(y) && Ticked(query, NationParam, y) {
      ReadListHolds(Get(query, NationParam), VALID_NATIONS, y);
    }
    DefaultNationsExactly(user, x);
    hide ReadFilters, ReadList, IsNation, DefaultNations, OnlyRegulates;
    if chosen != [] {
      assert chosen[0] in chosen;
    }
  }

  /** Landing on the list: the user's own applications in the order they are due, for
      the one nation the user regulates or else all of them, on page 1. */
  lemma Landing(user: User, holder: Option<string>, nation: string)
    requires user.id.Some? && user.id.value != ""
    ensures var f := ReadFilters(map[], user);
            && (BackendShows(f.backendAssigneeId, f.backendUnassignedOnly, holder) <==> holder == user.id)
            && (nation in f.nations <==> OnlyRegulates(user, nation))
            && f.sort == Some(DueDate) && !f.sortExplicit && !f.assigneeModeExplicit && f.page == 1
            && f.typeIds == f.applicationTypeIds == f.statusGroups == f.materials == []
            && f.search == f.organisation == "" && !f.includeArchived
  {
    hide ReadFilters, BackendShows, OnlyRegulates;
    AssigneeFindsExactly(map[], user, holder);
    NationsExactly(map[], user, nation);
    SortExactly(map[], user);
    TextsExactly(map[], user);
    PageExactly(map[], user);
    NothingTicked(user);
  }

  lemma NothingTicked(user: User)
    ensures var f := ReadFilters(map[], user);
            f.typeIds == f.applicationTypeIds == f.statusGroups == f.materials == [] && !f.assigneeModeExplicit
  {
    var f := ReadFilters(map[], user);
    DerivedKeeps(map[], user);
    forall x ensures x !in f.typeIds && x !in f.applicationTypeIds && x !in f.statusGroups && x !in f.materials {
      hide ReadFilters;
      ChoicesExactly(map[], user, x);
    }
    hide ReadFilters;
    HeadIn(f.typeIds);
    HeadIn(f.applicationTypeIds);
    HeadIn(f.statusGroups);
    HeadIn(f.materials);
  }

  lemma HeadIn(list: seq<string>)
    ensures list != [] ==> list[0] in list
  {
  }
}
