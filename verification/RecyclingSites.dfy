/** The recycling operations tab: the application's overseas sites sorted by name,
    searched, and shown a page at a time. */
module RecyclingSites {
  import opened Prelude
  import Sorting
  import Text

  const PAGE_SIZE: nat := 20

  /** A site of the payload; `selected` is absent on old submissions. */
  datatype RawSite = RawSite(siteId: Option<string>, siteName: Option<string>, selected: Option<bool>)

  datatype Site = Site(siteId: Option<string>, siteName: string)

  const EM_DASH := ['\U{2014}']

  function SiteOf(raw: RawSite): Site {
    Site(raw.siteId, if raw.siteName.Some? && raw.siteName.value != "" then raw.siteName.value else EM_DASH)
  }

  /** `overseasSitesOf`: only an explicit `false` removes a site. */
  function OverseasSites(raw: seq<RawSite>): seq<RawSite> {
    Filter(raw, (s: RawSite) => s.selected != Some(false))
  }

  /** `buildRecyclingOperationsSites`. `rank` is the place of a name in the
      collation order. */
  function BuildSites(raw: seq<RawSite>, rank: string -> int): seq<Site> {
    Sorting.SortBy(Map(OverseasSites(raw), SiteOf), (s: Site) => rank(s.siteName))
  }

  /** Every site that was not removed is listed, as often as it was submitted, in
      name order, and sites of one name in the order submitted. */
  lemma SitesAreSorted(raw: seq<RawSite>, rank: string -> int, place: int)
    ensures var sites := BuildSites(raw, rank);
            && Sorting.SortedBy(sites, (s: Site) => rank(s.siteName))
            && multiset(sites) == multiset(Map(OverseasSites(raw), SiteOf))
            && Sorting.Ties(sites, (s: Site) => rank(s.siteName), place)
               == Sorting.Ties(Map(OverseasSites(raw), SiteOf), (s: Site) => rank(s.siteName), place)
  {
    var key := (s: Site) => rank(s.siteName);
    Sorting.SortByIsSorted(Map(OverseasSites(raw), SiteOf), key);
    Sorting.SortByIsStable(Map(OverseasSites(raw), SiteOf), key, place);
  }

  /** The site shown for a submitted one; one without a name has a dash for it. */
  predicate Shows(r: RawSite, s: Site) {
    s.siteId == r.siteId && s.siteName == if r.siteName.None? || r.siteName == Some("") then "\U{2014}" else r.siteName.value
  }

  lemma SiteOfExactly(r: RawSite, s: Site)
    ensures SiteOf(r) == s <==> Shows(r, s)
  {
  }

  /** The sites listed are those submitted and not removed, and as many. */
  lemma SitesListed(raw: seq<RawSite>, rank: string -> int, s: Site)
    ensures s in BuildSites(raw, rank) <==> exists r :: r in raw && r.selected != Some(false) && Shows(r, s)
    ensures |BuildSites(raw, rank)| == |Filter(raw, (r: RawSite) => r.selected != Some(false))|
  {
    hide SiteOf, BuildSites, Shows;
    var kept := OverseasSites(raw);
    var listed := Map(kept, SiteOf);
    SitesAreSorted(raw, rank, 0);
    Sorting.SameMembers(BuildSites(raw, rank), listed);
    assert |multiset(BuildSites(raw, rank))| == |multiset(listed)|;
    SameFilter(raw);
    if s in listed {
      var i :| 0 <= i < |listed| && listed[i] == s;
      SiteOfExactly(kept[i], s);
      assert kept[i] in kept;
    }
    if r :| r in raw && r.selected != Some(false) && Shows(r, s) {
      SiteOfExactly(r, s);
      var i :| 0 <= i < |kept| && kept[i] == r;
      assert listed[i] == s;
    }
  }

  lemma {:induction false} SameFilter(raw: seq<RawSite>)
    ensures |OverseasSites(raw)| == |Filter(raw, (r: RawSite) => r.selected != Some(false))|
  {
    if raw != [] {
      SameFilter(raw[1..]);
    }
  }

  predicate IsAt(s: string, term: string, i: int) {
    0 <= i <= |s| - |term| && s[i..i + |term|] == term
  }

  predicate Contains(s: string, term: string) {
    exists i | 0 <= i <= |s| :: IsAt(s, term, i)
  }

  predicate MatchesTerm(site: Site, search: string) {
    Contains(Text.Lower(site.siteName), Text.Lower(search))
  }

  /** `filterRecyclingOperationsSites` */
  function FilterSites(sites: seq<Site>, search: string): seq<Site> {
    if search == "" then sites else Filter(sites, (s: Site) => MatchesTerm(s, search))
  }

  // ---- Pages ----

  /** `Math.max(1, Math.ceil(n / PAGE_SIZE))` */
  function TotalPages(n: nat): (pages: nat)
    ensures pages >= 1
  {
    var pages := (n + PAGE_SIZE - 1) / PAGE_SIZE;
    if pages < 1 then 1 else pages
  }

  /** `slice((page - 1) * PAGE_SIZE, page * PAGE_SIZE)` */
  function PageSites(sites: seq<Site>, page: int): seq<Site>
    requires page >= 1
  {
    var from, to := (page - 1) * PAGE_SIZE, page * PAGE_SIZE;
    if from >= |sites| then [] else sites[from..if to <= |sites| then to else |sites|]
  }

  /** The pages up to and including one, put together. */
  function FirstPages(sites: seq<Site>, pages: nat): seq<Site> {
    if pages == 0 then [] else FirstPages(sites, pages - 1) + PageSites(sites, pages)
  }

  lemma {:induction false} FirstPagesArePrefix(sites: seq<Site>, pages: nat)
    ensures FirstPages(sites, pages) == sites[..if pages * PAGE_SIZE <= |sites| then pages * PAGE_SIZE else |sites|]
  {
    if pages > 0 {
      FirstPagesArePrefix(sites, pages - 1);
    }
  }

  lemma TotalPagesCover(n: nat)
    ensures n <= TotalPages(n) * PAGE_SIZE
    ensures n > 0 ==> (TotalPages(n) - 1) * PAGE_SIZE < n
    ensures n == 0 ==> TotalPages(n) == 1
  {
  }

  /** The pages, one after another, are exactly the matching sites in order. */
  lemma PagesAreTheList(sites: seq<Site>)
    ensures FirstPages(sites, TotalPages(|sites|)) == sites
  {
    FirstPagesArePrefix(sites, TotalPages(|sites|));
    TotalPagesCover(|sites|);
  }

  /** Every page but the last is full, and none is empty unless nothing matches. */
  lemma PageSizes(sites: seq<Site>, page: int)
    requires 1 <= page <= TotalPages(|sites|)
    ensures |PageSites(sites, page)| <= 20
    ensures page < TotalPages(|sites|) ==> |PageSites(sites, page)| == 20
    ensures PageSites(sites, page) == [] <==> sites == []
  {
    TotalPagesCover(|sites|);
  }

  /** `resolvePage`; `None` for a missing parameter, which `parseInt` reads as
      `undefined`. */
  function ResolvePage(rawPage: Option<string>, totalPages: nat): (page: int)
    requires totalPages >= 1
    ensures 1 <= page <= totalPages
  {
    var requested := if rawPage.Some? then Text.ParseInt(rawPage.value) else None;
    if requested.Some? && 1 <= requested.value <= totalPages then requested.value else 1
  }

  /** The two parameters of a page link. */
  datatype Link = Link(q: Option<string>, page: Option<string>)

  function HrefOf(q: string, page: int): Link {
    Link(if q != "" then Some(q) else None, if page > 1 then Some(Text.PrintNat(page)) else None)
  }

  datatype Item = Item(number: int, href: Link, current: bool)

  datatype Pagination = Pagination(previous: Option<Link>, next: Option<Link>, items: seq<Item>)

  /** `buildRecyclingOperationsPagination` */
  method BuildPagination(q: string, page: int, totalPages: int) returns (r: Option<Pagination>)
    ensures r.Some? <==> totalPages > 1
    ensures r.Some? ==>
              && |r.value.items| == totalPages
              && (forall k :: 0 <= k < totalPages ==> r.value.items[k] == Item(k + 1, HrefOf(q, k + 1), k + 1 == page))
              && r.value.previous == (if page > 1 then Some(HrefOf(q, page - 1)) else None)
              && r.value.next == (if page < totalPages then Some(HrefOf(q, page + 1)) else None)
  {
    if totalPages <= 1 {
      return None;
    }
    var items: seq<Item> := [];
    for i := 1 to totalPages + 1
      invariant |items| == i - 1
      invariant forall k :: 0 <= k < i - 1 ==> items[k] == Item(k + 1, HrefOf(q, k + 1), k + 1 == page)
    {
      items := items + [Item(i, HrefOf(q, i), i == page)];
    }
    return Some(Pagination(if page > 1 then Some(HrefOf(q, page - 1)) else None,
                           if page < totalPages then Some(HrefOf(q, page + 1)) else None,
                           items));
  }

  /** What the handler shows for a request: the search term, the page and its
      sites. */
  datatype Shown = Shown(searchTerm: string, page: int, totalPages: nat, sites: seq<Site>)

  function Show(all: seq<Site>, request: Link): Shown {
    var term := if request.q.Some? then Text.Trim(request.q.value) else "";
    var matching := FilterSites(all, term);
    var totalPages := TotalPages(|matching|);
    var page := ResolvePage(request.page, totalPages);
    Shown(term, page, totalPages, PageSites(matching, page))
  }

  lemma LinkResolves(q: string, page: int, totalPages: nat)
    requires 1 <= page <= totalPages
    ensures ResolvePage(HrefOf(q, page).page, totalPages) == page
  {
    if page > 1 {
      Text.ParseIntPrint(page);
    }
  }

  /** Every page link leads to its own page of the same search. */
  lemma LinksKeepTheSearch(all: seq<Site>, request: Link, page: int)
    requires 1 <= page <= Show(all, request).totalPages
    ensures var here := Show(all, request);
            var there := Show(all, HrefOf(here.searchTerm, page));
            && there.searchTerm == here.searchTerm && there.totalPages == here.totalPages && there.page == page
            && there.sites == PageSites(FilterSites(all, here.searchTerm), page)
  {
    hide FilterSites, PageSites, ResolvePage, TotalPages, Text.PrintNat;
    var here := Show(all, request);
    TermIsTrimmed(request);
    LinkResolves(here.searchTerm, page, here.totalPages);
    assert HrefOf(here.searchTerm, page).q.Some? ==> HrefOf(here.searchTerm, page).q.value == here.searchTerm;
  }

  lemma TermIsTrimmed(request: Link)
    ensures request.q.Some? ==> Text.Trim(Text.Trim(request.q.value)) == Text.Trim(request.q.value)
  {
    if request.q.Some? {
      Text.TrimIsIdempotent(request.q.value);
    }
  }

  /** The pages of a search hold exactly the listed sites whose name contains the
      term, whatever the case, in list order. */
  lemma SearchFindsExactly(all: seq<Site>, request: Link, s: Site)
    ensures var term := Show(all, request).searchTerm;
            s in FirstPages(FilterSites(all, term), Show(all, request).totalPages)
            <==> s in all && exists before, after :: Text.Lower(s.siteName) == before + Text.Lower(term) + after
    ensures Show(all, request).searchTerm == if request.q.Some? then Text.Trim(request.q.value) else ""
  {
    var term := Show(all, request).searchTerm;
    PagesAreTheList(FilterSites(all, term));
    ContainsExactly(Text.Lower(s.siteName), Text.Lower(term));
    if term == "" {
      assert Text.Lower(s.siteName) == "" + Text.Lower(term) + Text.Lower(s.siteName);
    }
  }

  lemma ContainsExactly(s: string, term: string)
    ensures Contains(s, term) <==> exists before, after :: s == before + term + after
  {
    if i :| 0 <= i <= |s| && IsAt(s, term, i) {
      assert s == s[..i] + term + s[i + |term|..];
    }
    if before, after :| s == before + term + after {
      assert IsAt(s, term, |before|);
    }
  }
}
