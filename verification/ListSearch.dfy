/** What the list's status and applicant-type filters ask the backend for, and
    which applications that finds. */
module ListSearch {
  import opened Prelude
  import opened WorkItemFilters
  import ReAccreditation

  // ---- Status ----

  /** The text of a status checkbox. */
  function StatusText(group: string): string {
    match group
    case "submitted" => "Not started"
    case "duly-made" => "Duly made"
    case "updated" => "Updated"
    case "awaiting-decision" => "Awaiting decision"
    case "queried" => "Queried"
    case "approved-pending-contact" => "Approved"
    case "approved" => "Granted"
    case "rejected" => "Refused"
    case _ => "Withdrawn"
  }

  lemma {:induction false} FlattenHolds(groups: seq<string>, id: string)
    ensures id in Flatten(groups) <==> exists i :: 0 <= i < |groups| && id in StateIdsOf(groups[i])
  {
    if groups != [] {
      FlattenHolds(groups[1..], id);
      assert groups == [groups[0]] + groups[1..];
      if id in Flatten(groups[1..]) {
        var i :| 0 <= i < |groups[1..]| && id in StateIdsOf(groups[1..][i]);
        assert id in StateIdsOf(groups[i + 1]);
      }
    }
  }

  lemma GroupReads(s: ReAccreditation.StateId, k: nat)
    requires k < |STATUS_GROUPS|
    ensures ReAccreditation.StateWireId(s) in StateIdsOf(STATUS_GROUPS[k])
            <==> ReAccreditation.DisplayName(s) == StatusText(STATUS_GROUPS[k])
  {
  }

  lemma ReadParts(query: Query, user: User)
    ensures var f := ReadFilters(query, user);
            && IsChoice(f.typeIds, ALLOWED_TYPE_IDS) && IsChoice(f.statusGroups, STATUS_GROUPS)
            && f.stateIds == Dedup(Flatten(f.statusGroups))
            && f.wasteProcessingTypes == WasteProcessingTypes(f.typeIds)
  {
    hide ReadList, ReadMaterials, ReadPage, ReadText, ReadUserId, ResolveNations, ResolveSort, ResolveAssigneeMode, IsOneOf,
         WasteProcessingTypes, Flatten, Dedup, IsChoice;
    ReadListIsClean(Get(query, TypeParam), ALLOWED_TYPE_IDS);
    ReadListIsClean(Get(query, StatusParam), STATUS_GROUPS);
  }

  /** The status filter asks for a state exactly when a box is ticked whose text is
      what the state reads as; and for no state twice. */
  lemma StatusFindsWhatItReads(query: Query, user: User, s: ReAccreditation.StateId)
    ensures var f := ReadFilters(query, user);
            && (ReAccreditation.StateWireId(s) in f.stateIds
                <==> exists i :: 0 <= i < |f.statusGroups| && StatusText(f.statusGroups[i]) == ReAccreditation.DisplayName(s))
            && Unique(f.stateIds)
  {
    hide ReadFilters, StateIdsOf, StatusText, ReAccreditation.StateWireId, ReAccreditation.DisplayName, Flatten;
    var f := ReadFilters(query, user);
    ReadParts(query, user);
    FlattenHolds(f.statusGroups, ReAccreditation.StateWireId(s));
    forall i | 0 <= i < |f.statusGroups|
      ensures ReAccreditation.StateWireId(s) in StateIdsOf(f.statusGroups[i])
              <==> ReAccreditation.DisplayName(s) == StatusText(f.statusGroups[i])
    {
      assert f.statusGroups[i] in f.statusGroups;
      var k :| 0 <= k < |STATUS_GROUPS| && STATUS_GROUPS[k] == f.statusGroups[i];
      GroupReads(s, k);
    }
  }

  // ---- Applicant type and application type ----

  /** The type ids sent: the applicant types, `exporter` as the one real type id
      it has, and the application types, once each. */
  function SentTypeIds(f: Filters): seq<string> {
    Dedup(Map(f.typeIds, (id: string) => if id == "exporter" then "re-accreditation" else id) + f.applicationTypeIds)
  }

  /** Does the backend find a re-accreditation by an exporter or a reprocessor?
      It must meet both filters, and an empty one asks for nothing; any processing
      type but `Exporter` means "not an exporter". */
  predicate BackendFinds(typeIds: seq<string>, wasteProcessingTypes: seq<string>, exporter: bool) {
    && (typeIds == [] || "re-accreditation" in typeIds)
    && (wasteProcessingTypes == [] || exists w :: w in wasteProcessingTypes && (w == "Exporter" <==> exporter))
  }

  lemma SentReAccreditation(f: Filters)
    requires IsChoice(f.typeIds, ALLOWED_TYPE_IDS)
    ensures SentTypeIds(f) == [] <==> f.typeIds == [] && f.applicationTypeIds == []
    ensures "re-accreditation" in SentTypeIds(f) <==> f.typeIds != [] || "re-accreditation" in f.applicationTypeIds
  {
    var mapped := Map(f.typeIds, (id: string) => if id == "exporter" then "re-accreditation" else id);
    if f.typeIds != [] {
      assert f.typeIds[0] in f.typeIds;
      assert mapped[0] == "re-accreditation";
    }
    assert SentTypeIds(f) == [] ==> (mapped + f.applicationTypeIds == []) by {
      if mapped + f.applicationTypeIds != [] {
        assert (mapped + f.applicationTypeIds)[0] in SentTypeIds(f);
      }
    }
  }

  lemma ProcessingTypes(typeIds: seq<string>, exporter: bool)
    ensures (WasteProcessingTypes(typeIds) == []
             || exists w :: w in WasteProcessingTypes(typeIds) && (w == "Exporter" <==> exporter))
            <==> ("exporter" in typeIds <==> "re-accreditation" in typeIds)
                 || (if exporter then "exporter" in typeIds else "re-accreditation" in typeIds)
  {
    var w := WasteProcessingTypes(typeIds);
    assert |"Exporter"| == 8 && |"Reprocessor"| == 11;
    assert w != [] ==> w[0] in w;
  }

  /** The applicant-type boxes mean "or": an application is found when neither or
      both are ticked, or the one for its own kind is; and, when no applicant type
      is ticked, when its application type is asked for or none is. With one
      ticked, the application-type boxes narrow nothing. */
  lemma ApplicantTypesAreAlternatives(query: Query, user: User, exporter: bool)
    ensures var f := ReadFilters(query, user);
            BackendFinds(SentTypeIds(f), f.wasteProcessingTypes, exporter)
            <==> && (f.typeIds == [] ==> f.applicationTypeIds == [] || "re-accreditation" in f.applicationTypeIds)
                 && (("exporter" in f.typeIds <==> "re-accreditation" in f.typeIds)
                     || (if exporter then "exporter" in f.typeIds else "re-accreditation" in f.typeIds))
  {
    hide ReadFilters, SentTypeIds, WasteProcessingTypes;
    ReadParts(query, user);
    SentReAccreditation(ReadFilters(query, user));
    ProcessingTypes(ReadFilters(query, user).typeIds, exporter);
  }
}
