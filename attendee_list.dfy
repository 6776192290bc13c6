/**
  The attendee list component's state and its event handlers. The browser's
  location query string is the field `location`, a map from parameter name
  to value; pushing a new history entry is an assignment to it.
 */
module AttendeeListComponent {
  import opened Wrappers
  import opened Decimal
  import opened AttendeeView

  /** `url.searchParams.get("search") ?? ""`: the parameter's value, or empty when it is absent. */
  function SearchFromUrl(location: map<string, string>): (r: string)
    ensures "search" in location ==> r == location["search"]
    ensures "search" !in location ==> r == ""
  {
    if "search" in location then location["search"] else ""
  }

  /**
    `Number(url.searchParams.get("page") ?? 1)`, for integer strings: page 1
    when the parameter is absent, and any page written by `String(n)` reads
    back as `n`.
   */
  function PageFromUrl(location: map<string, string>): (r: Option<int>)
    ensures "page" !in location ==> r == Some(1)
    ensures r.Some? <==> "page" !in location || IsIntegerText(location["page"])
    ensures forall n :: "page" in location && location["page"] == DecimalString(n) ==> r == Some(n)
  {
    assert forall n :: "page" in location && location["page"] == DecimalString(n) ==>
      ParseDecimal(location["page"]) == Some(n) by {
      forall n | "page" in location && location["page"] == DecimalString(n)
        ensures ParseDecimal(location["page"]) == Some(n)
      {
        DecimalRoundTrip(n);
      }
    }
    if "page" in location then ParseDecimal(location["page"]) else Some(1)
  }

  /**
    What `setCurrentSearch(s)` followed by `setCurrentPage(p)` writes into
    the URL is read back as `s` and `p` when the view is opened from it.
   */
  lemma UrlRoundTrip(location: map<string, string>, s: string, p: int)
    ensures var u := location["search" := s]["page" := DecimalString(p)];
      SearchFromUrl(u) == s && PageFromUrl(u) == Some(p)
  {
  }

  /** The body of a successful response. */
  datatype Payload = Payload(attendees: seq<Attendee>, total: nat)

  /**
    How a fetch ends: the server answered (with an HTTP status that is ok
    or not), or the request itself was rejected.
   */
  datatype FetchResult =
    | Response(ok: bool, statusText: string, body: Payload)
    | Rejected(reason: string)

  class AttendeeList {
    var search: string
    var page: int
    var total: nat
    var attendees: seq<Attendee>
    var error: Option<string>
    var location: map<string, string>

    /**
      The URL always records the current search and page, and the only
      error ever shown is the fixed fetch-failure message.
     */
    ghost predicate Valid()
      reads this
    {
      SearchFromUrl(location) == search &&
      PageFromUrl(location) == Some(page) &&
      (error.Some? ==> error.value == FetchErrorMessage)
    }

    /** The view opened at a URL: search and page from its query, nothing fetched yet. */
    constructor (url: map<string, string>)
      requires PageFromUrl(url).Some?
      ensures Valid()
      ensures search == SearchFromUrl(url) && page == PageFromUrl(url).value
      ensures total == 0 && attendees == [] && error == None
      ensures location == url
    {
      search := SearchFromUrl(url);
      page := PageFromUrl(url).value;
      total := 0;
      attendees := [];
      error := None;
      location := url;
    }

    /** `setCurrentSearch`: overwrites the `search` parameter and the search text. */
    method SetCurrentSearch(value: string)
      requires Valid()
      modifies this
      ensures Valid()
      ensures location == old(location)["search" := value]
      ensures search == value
      ensures page == old(page) && total == old(total)
      ensures attendees == old(attendees) && error == old(error)
    {
      location := location["search" := value];
      search := value;
    }

    /** `setCurrentPage`: overwrites the `page` parameter and the page number. */
    method SetCurrentPage(value: int)
      requires Valid()
      modifies this
      ensures Valid()
      ensures location == old(location)["page" := DecimalString(value)]
      ensures page == value
      ensures search == old(search) && total == old(total)
      ensures attendees == old(attendees) && error == old(error)
    {
      location := location["page" := DecimalString(value)];
      page := value;
      DecimalRoundTrip(value);
    }

    /** Typing in the search box: the new text, and back to page 1, in state and URL. */
    method OnSearchInputChanged(value: string)
      requires Valid()
      modifies this
      ensures Valid()
      ensures location == old(location)["search" := value]["page" := "1"]
      ensures search == value && page == 1
      ensures total == old(total) && attendees == old(attendees) && error == old(error)
    {
      SetCurrentSearch(value);
      SetCurrentPage(1);
      assert DecimalString(1) == "1";
    }

    method GoToFirstPage()
      requires Valid()
      modifies this
      ensures Valid()
      ensures page == NavigationTarget(First, old(page), old(total)) == 1
      ensures location == old(location)["page" := DecimalString(page)]
      ensures search == old(search) && total == old(total)
      ensures attendees == old(attendees) && error == old(error)
    {
      SetCurrentPage(1);
    }

    /** `goToPreviusPage` in the component. */
    method GoToPreviousPage()
      requires Valid()
      modifies this
      ensures Valid()
      ensures page == NavigationTarget(Previous, old(page), old(total)) == old(page) - 1
      ensures location == old(location)["page" := DecimalString(page)]
      ensures search == old(search) && total == old(total)
      ensures attendees == old(attendees) && error == old(error)
    {
      SetCurrentPage(page - 1);
    }

    method GoToNextPage()
      requires Valid()
      modifies this
      ensures Valid()
      ensures page == NavigationTarget(Next, old(page), old(total)) == old(page) + 1
      ensures location == old(location)["page" := DecimalString(page)]
      ensures search == old(search) && total == old(total)
      ensures attendees == old(attendees) && error == old(error)
    {
      SetCurrentPage(page + 1);
    }

    method GoToLastPage()
      requires Valid()
      modifies this
      ensures Valid()
      ensures page == NavigationTarget(Last, old(page), old(total)) == TotalPages(old(total))
      ensures location == old(location)["page" := DecimalString(page)]
      ensures search == old(search) && total == old(total)
      ensures attendees == old(attendees) && error == old(error)
    {
      SetCurrentPage(TotalPages(total));
    }

    /** The success handler: the response replaces the data and clears the error. */
    method ApplySuccess(data: Payload)
      requires Valid()
      modifies this
      ensures Valid()
      ensures attendees == data.attendees && total == data.total && error == None
      ensures search == old(search) && page == old(page) && location == old(location)
    {
      attendees := data.attendees;
      total := data.total;
      error := None;
    }

    /** The failure handler: the fixed message; the previous data stays. */
    method ApplyFailure()
      requires Valid()
      modifies this
      ensures Valid()
      ensures error == Some(FetchErrorMessage)
      ensures attendees == old(attendees) && total == old(total)
      ensures search == old(search) && page == old(page) && location == old(location)
    {
      error := Some(FetchErrorMessage);
    }

    /**
      The end of the fetch chain: an ok response is applied; a non-ok status
      is thrown and, like a rejected request, lands in the failure handler.
     */
    method ApplyFetchResult(result: FetchResult)
      requires Valid()
      modifies this
      ensures Valid()
      ensures error == None <==> result.Response? && result.ok
      ensures result.Response? && result.ok ==>
        attendees == result.body.attendees && total == result.body.total
      ensures !(result.Response? && result.ok) ==>
        error == Some(FetchErrorMessage) && attendees == old(attendees) && total == old(total)
      ensures search == old(search) && page == old(page) && location == old(location)
    {
      if result.Response? && result.ok {
        ApplySuccess(result.body);
      } else {
        ApplyFailure();
      }
    }
  }

  /**
    A link copied after searching for `text` and moving to the next page
    reopens the view on the same search and on page 2.
   */
  method ReopenedView(url: map<string, string>, text: string) returns (search: string, page: int)
    requires PageFromUrl(url).Some?
    ensures search == text && page == 2
  {
    var view := new AttendeeList(url);
    view.OnSearchInputChanged(text);
    view.GoToNextPage();
    var reopened := new AttendeeList(view.location);
    search, page := reopened.search, reopened.page;
  }
}
