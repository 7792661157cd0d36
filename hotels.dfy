/**
 * The company area's hotel list (HotelsController.Index): the signed-in
 * company's hotels, filtered by an optional search term, counted, then paged
 * eight at a time.
 */
module Hotels {
  import opened Wrappers
  import opened Text
  import Paging
  import opened Filtering

  const PageSize: nat := 8

  datatype Company = Company(id: int, userName: string)

  datatype Hotel = Hotel(id: int, name: string, address: string, city: string, companyId: int)

  /** What Index answers: a redirect, or one page of hotels with the count of all filtered hotels. */
  datatype HotelIndex =
    | RedirectHome
    | RedirectNotFound
    | Listing(page: seq<Hotel>, totalItems: nat, currentPage: int)

  /** CompanyRepository.GetOne(e => e.UserName == userName): the first company with that user name. */
  function FindCompany(companies: seq<Company>, userName: string): (r: Option<Company>)
    ensures r.Some? ==> r.value in companies && r.value.userName == userName
    ensures r.None? <==> forall c :: c in companies ==> c.userName != userName
  {
    if companies == [] then None
    else if companies[0].userName == userName then Some(companies[0])
    else FindCompany(companies[1..], userName)
  }

  /** The hotels the company owns, in store order. */
  function CompanyHotels(hotels: seq<Hotel>, companyId: int): (r: seq<Hotel>)
    ensures forall h :: h in r <==> h in hotels && h.companyId == companyId
    ensures |r| <= |hotels|
  {
    if hotels == [] then []
    else (if hotels[0].companyId == companyId then [hotels[0]] else []) + CompanyHotels(hotels[1..], companyId)
  }

  /**
   * The search predicate: the (already trimmed) term occurs, ignoring case,
   * in the hotel's name, address or city, or in its company's user name.
   */
  predicate HotelMatches(h: Hotel, ownerName: string, term: string) {
    ContainsIgnoreCase(h.name, term) || ContainsIgnoreCase(h.address, term) ||
    ContainsIgnoreCase(h.city, term) || ContainsIgnoreCase(ownerName, term)
  }

  function SearchHotels(hotels: seq<Hotel>, ownerName: string, term: string): (r: seq<Hotel>)
    ensures forall h :: h in r <==> h in hotels && HotelMatches(h, ownerName, term)
    ensures |r| <= |hotels|
  {
    if hotels == [] then []
    else (if HotelMatches(hotels[0], ownerName, term) then [hotels[0]] else []) + SearchHotels(hotels[1..], ownerName, term)
  }

  /** The hotels Index counts and pages: the company's, narrowed by the search when it is not blank. */
  function FilteredHotels(company: Company, hotels: seq<Hotel>, search: Option<string>): seq<Hotel> {
    var owned := CompanyHotels(hotels, company.id);
    if IsNullOrWhiteSpace(search) then owned else SearchHotels(owned, company.userName, Trim(search.value))
  }

  /**
   * HotelsController.Index. userName is the signed-in user's name (None when
   * nobody is signed in). Hotels are scoped to the company whose user name it
   * is; their company navigation is that company, so its user name is the one
   * searched.
   */
  function Index(userName: Option<string>, companies: seq<Company>, hotels: seq<Hotel>,
                 search: Option<string>, pageNumber: int): (r: HotelIndex)
    requires pageNumber >= 1
    ensures r.RedirectHome? <==> IsNullOrEmpty(userName)
    ensures r.RedirectNotFound? <==> !IsNullOrEmpty(userName) && FindCompany(companies, userName.value).None?
    ensures r.Listing? ==>
              var company := FindCompany(companies, userName.value).value;
              var filtered := FilteredHotels(company, hotels, search);
              && r.totalItems == |filtered|
              && |r.page| <= PageSize
              && r.currentPage == pageNumber
              && (forall k :: 0 <= k < |r.page| ==>
                    Paging.PageStart(pageNumber, PageSize) + k < |filtered| &&
                    r.page[k] == filtered[Paging.PageStart(pageNumber, PageSize) + k])
              && (forall h :: h in r.page ==> h in hotels && h.companyId == company.id)
              && r.page == Paging.Page(filtered, pageNumber, PageSize)
  {
    if IsNullOrEmpty(userName) then RedirectHome
    else
      match FindCompany(companies, userName.value)
      case None => RedirectNotFound
      case Some(company) =>
        var filtered := FilteredHotels(company, hotels, search);
        var page := Paging.Page(filtered, pageNumber, PageSize);
        assert forall h :: h in filtered ==> h in hotels && h.companyId == company.id;
        assert forall h :: h in page ==> h in filtered;
        Listing(page, |filtered|, pageNumber)
  }

  /** The company test CompanyHotels applies. */
  function OwnedBy(companyId: int): Hotel -> bool {
    (h: Hotel) => h.companyId == companyId
  }

  /** CompanyHotels is LINQ's Where with the OwnedBy test. */
  lemma {:induction false} CompanyHotelsIsWhere(s: seq<Hotel>, companyId: int)
    ensures CompanyHotels(s, companyId) == Where(s, OwnedBy(companyId))
  {
    if s != [] {
      CompanyHotelsIsWhere(s[1..], companyId);
    }
  }

  /** CompanyHotels keeps the list's order: it distributes over concatenation and keeps or drops a single item. */
  lemma CompanyHotelsKeepsOrder(a: seq<Hotel>, b: seq<Hotel>, x: Hotel, companyId: int)
    ensures CompanyHotels(a + b, companyId) == CompanyHotels(a, companyId) + CompanyHotels(b, companyId)
    ensures CompanyHotels([x], companyId) == if x.companyId == companyId then [x] else []
  {
    CompanyHotelsIsWhere(a + b, companyId);
    CompanyHotelsIsWhere(a, companyId);
    CompanyHotelsIsWhere(b, companyId);
    CompanyHotelsIsWhere([x], companyId);
    WhereAppend(a, b, OwnedBy(companyId));
    WhereSingle(x, OwnedBy(companyId));
  }

  /** CompanyHotels holds each matching item once: its length is the number of matching positions. */
  lemma CompanyHotelsCount(s: seq<Hotel>, companyId: int)
    ensures |CompanyHotels(s, companyId)| == |set i | 0 <= i < |s| && s[i].companyId == companyId|
  {
    CompanyHotelsIsWhere(s, companyId);
    WhereCount(s, OwnedBy(companyId));
    assert Positions(s, |s|, OwnedBy(companyId)) == (set i | 0 <= i < |s| && s[i].companyId == companyId);
  }


  /** The search test SearchHotels applies. */
  function HotelSearch(ownerName: string, term: string): Hotel -> bool {
    (h: Hotel) => HotelMatches(h, ownerName, term)
  }

  /** SearchHotels is LINQ's Where with the HotelSearch test. */
  lemma {:induction false} SearchHotelsIsWhere(s: seq<Hotel>, ownerName: string, term: string)
    ensures SearchHotels(s, ownerName, term) == Where(s, HotelSearch(ownerName, term))
  {
    if s != [] {
      SearchHotelsIsWhere(s[1..], ownerName, term);
    }
  }

  /** SearchHotels keeps the list's order: it distributes over concatenation and keeps or drops a single item. */
  lemma SearchHotelsKeepsOrder(a: seq<Hotel>, b: seq<Hotel>, x: Hotel, ownerName: string, term: string)
    ensures SearchHotels(a + b, ownerName, term) == SearchHotels(a, ownerName, term) + SearchHotels(b, ownerName, term)
    ensures SearchHotels([x], ownerName, term) == if HotelMatches(x, ownerName, term) then [x] else []
  {
    SearchHotelsIsWhere(a + b, ownerName, term);
    SearchHotelsIsWhere(a, ownerName, term);
    SearchHotelsIsWhere(b, ownerName, term);
    SearchHotelsIsWhere([x], ownerName, term);
    WhereAppend(a, b, HotelSearch(ownerName, term));
    WhereSingle(x, HotelSearch(ownerName, term));
  }

  /** SearchHotels holds each matching item once: its length is the number of matching positions. */
  lemma SearchHotelsCount(s: seq<Hotel>, ownerName: string, term: string)
    ensures |SearchHotels(s, ownerName, term)| == |set i | 0 <= i < |s| && HotelMatches(s[i], ownerName, term)|
  {
    SearchHotelsIsWhere(s, ownerName, term);
    WhereCount(s, HotelSearch(ownerName, term));
    assert Positions(s, |s|, HotelSearch(ownerName, term)) == (set i | 0 <= i < |s| && HotelMatches(s[i], ownerName, term));
  }


  /** A blank search is no filter: every hotel of the company is counted. */
  lemma BlankSearchListsAll(company: Company, hotels: seq<Hotel>, search: Option<string>)
    requires IsNullOrWhiteSpace(search)
    ensures FilteredHotels(company, hotels, search) == CompanyHotels(hotels, company.id)
  {
  }

  /** Otherwise a hotel is kept exactly when it is the company's and the trimmed term occurs in one of its fields. */
  lemma SearchKeepsMatching(company: Company, hotels: seq<Hotel>, term: string, h: Hotel)
    requires !IsBlank(term)
    ensures h in FilteredHotels(company, hotels, Some(term)) <==>
              h in hotels && h.companyId == company.id && HotelMatches(h, company.userName, Trim(term))
  {
  }

  /** A search term that occurs in the company's own user name keeps every hotel of the company. */
  lemma {:induction false} OwnNameKeepsAll(hotels: seq<Hotel>, ownerName: string, term: string)
    requires ContainsIgnoreCase(ownerName, term)
    ensures SearchHotels(hotels, ownerName, term) == hotels
  {
    if hotels != [] {
      OwnNameKeepsAll(hotels[1..], ownerName, term);
    }
  }

  /** Searching is insensitive to the case of the term. */
  lemma {:induction false} SearchIgnoresTermCase(hotels: seq<Hotel>, ownerName: string, term: string)
    ensures SearchHotels(hotels, ownerName, ToLower(term)) == SearchHotels(hotels, ownerName, term)
  {
    if hotels != [] {
      ContainsIgnoreCaseOfLower(hotels[0].name, term);
      ContainsIgnoreCaseOfLower(hotels[0].address, term);
      ContainsIgnoreCaseOfLower(hotels[0].city, term);
      ContainsIgnoreCaseOfLower(ownerName, term);
      SearchIgnoresTermCase(hotels[1..], ownerName, term);
    }
  }
}
