/**
  The values the attendee list derives from its state: the page count, the
  outgoing request, the pagination buttons and the window of table rows.
  All of them are expressions over the component's current state.
 */
module AttendeeView {
  import opened Wrappers
  import opened Decimal
  import opened Text

  /** One registrant record as received from the server. */
  datatype Attendee = Attendee(
    id: string,
    name: string,
    email: string,
    createdAt: string,
    checkedInAt: Option<string>)

  /** Rows per page, both for the page count and for the table window. */
  const PageSize: nat := 10

  /** The fixed resource every request is sent to. */
  const AttendeesEndpoint: string :=
    "https://nlwunit2024-production.up.railway.app/events/attendees/264d0ff8-325b-439d-93a8-e433594e4606"

  /** The message shown after any failed fetch. */
  const FetchErrorMessage: string := "Failed to fetch attendees. Please try again later."

  function Min(a: int, b: int): int { if a <= b then a else b }
  function Max(a: int, b: int): int { if a <= b then b else a }

  // ---------------------------------------------------------------------------
  // Page count

  /** `Math.ceil(total / 10)`: the least number of 10-row pages holding `total` rows. */
  function TotalPages(total: nat): (r: nat)
    ensures total <= r * PageSize
    ensures r > 0 ==> (r - 1) * PageSize < total
    ensures r == 0 <==> total == 0
  {
    (total + PageSize - 1) / PageSize
  }

  /** The ceiling is the only page count with the two properties above. */
  lemma TotalPagesUnique(total: nat, r: nat)
    requires total <= r * PageSize
    requires r > 0 ==> (r - 1) * PageSize < total
    ensures r == TotalPages(total)
  {
  }

  lemma TotalPagesExamples()
    ensures TotalPages(0) == 0
    ensures TotalPages(1) == 1
    ensures TotalPages(10) == 1
    ensures TotalPages(25) == 3
    ensures TotalPages(30) == 3
  {
  }

  // ---------------------------------------------------------------------------
  // The outgoing request

  datatype Request = Request(endpoint: string, query: map<string, string>)

  /**
    The request issued whenever `page` or `search` changes: the zero-based
    `pageIndex` always, and the search text as `query` only when its
    JavaScript `length` (UTF-16 code units) is more than one.
   */
  function RequestFor(page: int, search: string): (r: Request)
    ensures r.endpoint == AttendeesEndpoint
    ensures "pageIndex" in r.query && ParseDecimal(r.query["pageIndex"]) == Some(page - 1)
    ensures "query" in r.query <==> Utf16Length(search) > 1
    ensures |search| > 1 ==> "query" in r.query
    ensures search == [] ==> "query" !in r.query
    ensures "query" in r.query ==> r.query["query"] == search
    ensures r.query.Keys <= {"pageIndex", "query"}
  {
    DecimalRoundTrip(page - 1);
    var q := map["pageIndex" := DecimalString(page - 1)];
    Request(AttendeesEndpoint, if Utf16Length(search) > 1 then q["query" := search] else q)
  }

  /**
    A single character outside the Basic Multilingual Plane has `length` 2,
    so it is sent as `query`, while a single ordinary character is not.
   */
  lemma {:induction false} SingleCharacterQueries()
    ensures "query" in RequestFor(1, "\U{1F600}").query
    ensures "query" !in RequestFor(1, "a").query
  {
    assert Utf16Length("\U{1F600}") == 2 + Utf16Length([]);
    assert Utf16Length("a") == 1 + Utf16Length([]);
  }

  // ---------------------------------------------------------------------------
  // Pagination buttons

  datatype PagerButton = First | Previous | Next | Last

  /**
    The `disabled` flag of each button: "first" and "previous" on page 1;
    "next" and "last" on the page that holds the final row (page 0 when
    there are no rows).
   */
  function IsDisabled(b: PagerButton, page: int, total: nat): (r: bool)
    ensures (b.First? || b.Previous?) ==> (r <==> page == 1)
    ensures (b.Next? || b.Last?) ==>
      (r <==> (total == 0 && page == 0) ||
              (page >= 1 && (page - 1) * PageSize < total <= page * PageSize))
  {
    match b
    case First | Previous => page == 1
    case Next | Last => page == TotalPages(total)
  }

  /**
    The page each button's click handler moves to, unclamped: "first" and
    "last" land where their own button becomes disabled, "previous" and
    "next" move by exactly one page.
   */
  function NavigationTarget(b: PagerButton, page: int, total: nat): (r: int)
    ensures b.First? ==> r == 1 && IsDisabled(First, r, total)
    ensures b.Last? ==> IsDisabled(Last, r, total) && total <= r * PageSize
    ensures b.Previous? ==> r + 1 == page
    ensures b.Next? ==> r - 1 == page
  {
    match b
    case First => 1
    case Previous => page - 1
    case Next => page + 1
    case Last => TotalPages(total)
  }

  /**
    On a page inside `[1, TotalPages(total)]`, a button is disabled exactly
    when clicking it would leave that range or stay on the same page.
   */
  lemma DisabledExactlyWhenUseless(b: PagerButton, page: int, total: nat)
    requires 1 <= page <= TotalPages(total)
    ensures IsDisabled(b, page, total) <==>
      var t := NavigationTarget(b, page, total);
      t == page || t < 1 || t > TotalPages(total)
  {
  }

  /** Enabled buttons keep a page that is in range in range. */
  lemma EnabledNavigationStaysInRange(b: PagerButton, page: int, total: nat)
    requires 1 <= page <= TotalPages(total)
    requires !IsDisabled(b, page, total)
    ensures 1 <= NavigationTarget(b, page, total) <= TotalPages(total)
    ensures NavigationTarget(b, page, total) != page
  {
  }

  /**
    With no attendees the range is empty: on page 1 "next" and "last" stay
    enabled, "last" moves to page 0, and from there "previous" is enabled
    and moves below zero.
   */
  lemma EmptyListLeavesPageRange()
    ensures !IsDisabled(Next, 1, 0) && !IsDisabled(Last, 1, 0)
    ensures NavigationTarget(Last, 1, 0) == 0
    ensures !IsDisabled(Previous, 0, 0) && NavigationTarget(Previous, 0, 0) == -1
  {
  }

  /** 25 attendees on page 3: "next" and "last" disabled, the other two enabled. */
  lemma LastOfThreePages()
    ensures TotalPages(25) == 3
    ensures IsDisabled(Next, 3, 25) && IsDisabled(Last, 3, 25)
    ensures !IsDisabled(First, 3, 25) && !IsDisabled(Previous, 3, 25)
  {
  }

  // ---------------------------------------------------------------------------
  // Table rows

  /** The row filter: the lower-cased search occurs somewhere in the lower-cased name. */
  function Matches(a: Attendee, search: string): (r: bool)
    ensures r <==> exists i :: OccursAt(Lower(a.name), Lower(search), i)
  {
    var name, needle := Lower(a.name), Lower(search);
    assert forall i :: OccursAt(name, needle, i) <==> OccursAt(Lower(a.name), Lower(search), i);
    Includes(name, needle)
  }

  /** `attendees.filter(...)`: the matching attendees, in their original order. */
  function Filter(xs: seq<Attendee>, search: string): (r: seq<Attendee>)
    ensures |r| <= |xs|
    ensures forall a :: a in r ==> a in xs && Matches(a, search)
    ensures forall a :: a in xs && Matches(a, search) ==> a in r
  {
    if xs == [] then []
    else (if Matches(xs[0], search) then [xs[0]] else []) + Filter(xs[1..], search)
  }

  /** Filtering a concatenation filters each part in place: the order is kept. */
  lemma {:induction false} FilterAppend(xs: seq<Attendee>, ys: seq<Attendee>, search: string)
    ensures Filter(xs + ys, search) == Filter(xs, search) + Filter(ys, search)
  {
    if xs == [] {
      assert xs + ys == ys;
    } else {
      assert (xs + ys)[0] == xs[0];
      assert (xs + ys)[1..] == xs[1..] + ys;
      FilterAppend(xs[1..], ys, search);
    }
  }

  lemma {:induction false} FilterIdempotent(xs: seq<Attendee>, search: string)
    ensures Filter(Filter(xs, search), search) == Filter(xs, search)
  {
    if xs != [] {
      var head := if Matches(xs[0], search) then [xs[0]] else [];
      FilterAppend(head, Filter(xs[1..], search), search);
      FilterIdempotent(xs[1..], search);
      if Matches(xs[0], search) {
        assert head[1..] == [];
      }
    }
  }

  /** An empty search keeps every attendee. */
  lemma {:induction false} EmptySearchKeepsAll(xs: seq<Attendee>)
    ensures Filter(xs, "") == xs
  {
    if xs != [] {
      IncludesEmpty(Lower(xs[0].name));
      EmptySearchKeepsAll(xs[1..]);
    }
  }

  /** The filter ignores the case of the search text. */
  lemma {:induction false} FilterIgnoresSearchCase(xs: seq<Attendee>, search: string)
    ensures Filter(xs, Lower(search)) == Filter(xs, search)
  {
    LowerIdempotent(search);
    if xs != [] {
      FilterIgnoresSearchCase(xs[1..], search);
    }
  }

  /**
    A relative index of `Array.prototype.slice`: a negative one counts from
    the end, and the result is clamped to `[0, len]`.
   */
  function SliceIndex(rel: int, len: nat): (r: nat)
    ensures 0 <= rel <= len ==> r == rel
    ensures rel > len ==> r == len
    ensures rel < 0 && 0 <= len + rel ==> r == len + rel
    ensures len + rel < 0 ==> r == 0
  {
    if rel < 0 then Max(len + rel, 0) else Min(rel, len)
  }

  /** Clamping never moves two indices further apart than they were. */
  lemma SliceIndexSpread(a: int, b: int, len: nat)
    ensures a <= b ==> SliceIndex(b, len) - SliceIndex(a, len) <= b - a
  {
  }

  /** `s.slice(start, end)`. */
  function JsSlice<T>(s: seq<T>, start: int, end: int): (r: seq<T>)
    ensures start <= end ==> |r| <= end - start
    ensures forall x :: x in r ==> x in s
    ensures 0 <= start <= end ==> r == s[Min(start, |s|)..Min(end, |s|)]
    ensures var lo := SliceIndex(start, |s|); r == s[lo..Max(lo, SliceIndex(end, |s|))]
  {
    var from, to := SliceIndex(start, |s|), SliceIndex(end, |s|);
    SliceIndexSpread(start, end, |s|);
    if from < to then s[from..to] else []
  }

  /**
    The table body: the matching attendees, then the rows at filtered
    positions `[(page - 1) * 10, page * 10)`.
   */
  function VisibleRows(attendees: seq<Attendee>, search: string, page: int): (r: seq<Attendee>)
    ensures |r| <= PageSize
    ensures forall a :: a in r ==> a in attendees && Matches(a, search)
    ensures page == 0 ==> r == []
    ensures page >= 1 ==>
      var f := Filter(attendees, search);
      |r| == Min(PageSize, Max(0, |f| - (page - 1) * PageSize)) &&
      forall k :: 0 <= k < |r| ==> r[k] == f[(page - 1) * PageSize + k]
    ensures page <= -1 ==>
      var f := Filter(attendees, search);
      r == f[Max(0, |f| + (page - 1) * PageSize)..Max(0, |f| + page * PageSize)]
  {
    JsSlice(Filter(attendees, search), (page - 1) * PageSize, page * PageSize)
  }

  /** The rows of pages `1..k`, one after the other. */
  ghost function PagesUpTo(attendees: seq<Attendee>, search: string, k: nat): seq<Attendee> {
    if k == 0 then [] else PagesUpTo(attendees, search, k - 1) + VisibleRows(attendees, search, k)
  }

  /** Page `k >= 1` is the contiguous window of filtered rows it covers. */
  lemma PageWindow(attendees: seq<Attendee>, search: string, k: nat)
    requires k >= 1
    ensures var f := Filter(attendees, search);
      VisibleRows(attendees, search, k) == f[Min((k - 1) * PageSize, |f|)..Min(k * PageSize, |f|)]
  {
  }

  lemma {:induction false} PagesUpToIsPrefix(attendees: seq<Attendee>, search: string, k: nat)
    ensures var f := Filter(attendees, search);
      PagesUpTo(attendees, search, k) == f[..Min(k * PageSize, |f|)]
  {
    if k > 0 {
      var f := Filter(attendees, search);
      PagesUpToIsPrefix(attendees, search, k - 1);
      PageWindow(attendees, search, k);
      var lo, hi := Min((k - 1) * PageSize, |f|), Min(k * PageSize, |f|);
      assert lo <= hi;
      assert f[..lo] + f[lo..hi] == f[..hi];
    }
  }

  /** Paging through all pages shows every matching attendee exactly once, in order. */
  lemma {:induction false} PagesCoverFiltered(attendees: seq<Attendee>, search: string)
    ensures var f := Filter(attendees, search);
      PagesUpTo(attendees, search, TotalPages(|f|)) == f
  {
    var f := Filter(attendees, search);
    PagesUpToIsPrefix(attendees, search, TotalPages(|f|));
    assert f[..|f|] == f;
  }

  /**
    The table re-slices what the server sent: when the server returns at
    most one page of attendees, every page after the first shows no rows.
   */
  lemma ServerPageShownOnlyOnPageOne(attendees: seq<Attendee>, search: string, page: int)
    requires |attendees| <= PageSize
    requires page >= 2
    ensures VisibleRows(attendees, search, page) == []
  {
  }
}
