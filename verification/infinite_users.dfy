/** The infinite-scroll hook of client/src/hooks/useUsers.ts: the query string
    `fetchUsers` sends, the `nextPage` it derives, react-query's next-page
    decision and the flattening of the loaded pages. The server side of each
    fetch is the `/api/users` handler of `UserQuery`. */
module InfiniteUsers {
  import opened Seqs
  import opened Text
  import opened UserModel
  import opened UserQuery

  /** The page size the hook uses when its caller gives none. */
  const ClientDefaultLimit: int := 12

  /** The hook's props; `limit` may be left out. */
  datatype UseUsersProps = UseUsersProps(
    searchTerm: string,
    hobbies: seq<string>,
    nationalities: seq<string>,
    limit: Option<int>)

  /** What `fetchUsers` resolves to. */
  datatype FetchUsersResponse = FetchUsersResponse(data: seq<User>, nextPage: int, totalPages: nat)

  /** The destructuring default `limit = 12`: it applies only to a missing limit. */
  function LimitOf(props: UseUsersProps): int
  {
    match props.limit
    case Some(l) => l
    case None => ClientDefaultLimit
  }

  /** Labels that travel through a comma-joined parameter unchanged. */
  predicate PlainLabels(xs: seq<string>)
  {
    forall i :: 0 <= i < |xs| ==> xs[i] != "" && ',' !in xs[i]
  }

  /** The query string `fetchUsers` sends for `page`: every parameter is present,
      the lists joined with ','. */
  function Request(page: int, props: UseUsersProps): RawQuery
  {
    RawQuery(
      Some(page),
      Some(LimitOf(props)),
      Some(props.searchTerm),
      Some(Join(props.hobbies, ',')),
      Some(Join(props.nationalities, ',')))
  }

  /** The server reads back exactly the selection the client sent, and a limit
      left out by the caller arrives as 12. */
  lemma RequestRoundTrip(page: int, props: UseUsersProps)
    requires page >= 1 && LimitOf(props) >= 1
    requires PlainLabels(props.hobbies) && PlainLabels(props.nationalities)
    ensures Resolve(Request(page, props))
         == Params(page, LimitOf(props), Lower(props.searchTerm), props.hobbies, props.nationalities)
    ensures props.limit.None? ==> Resolve(Request(page, props)).limit == ClientDefaultLimit
  {
    ListRoundTrip(props.hobbies, ',');
    ListRoundTrip(props.nationalities, ',');
  }

  /** The users the hook's filters select on the server, whichever page is asked for. */
  function Matching(users: seq<User>, props: UseUsersProps): seq<User>
  {
    Filtered(users, Resolve(Request(1, props)))
  }

  /** The response of `fetchUsers` for `page` when the server's filters select
      `matching`: that page of it, `nextPage = page + 1`, and the page count. */
  function PageResponse(matching: seq<User>, page: int, limit: int): FetchUsersResponse
    requires page >= 1 && limit >= 1
  {
    FetchUsersResponse(Paginate(matching, page, limit), page + 1, CeilDiv(|matching|, limit))
  }

  /** `fetchUsers(page, props)` against the handler over `users`: the server
      echoes the page, so `nextPage` is `page + 1`, and its filters do not depend
      on the page. */
  function FetchUsers(users: seq<User>, page: int, props: UseUsersProps): (r: FetchUsersResponse)
    requires page >= 1 && LimitOf(props) >= 1
    ensures r == PageResponse(Matching(users, props), page, LimitOf(props))
    ensures r.nextPage == page + 1
  {
    var response := HandleUsers(users, Request(page, props));
    FetchUsersResponse(response.data, response.page + 1, response.totalPages)
  }

  /** `getNextPageParam`: the next page while it does not pass the last one. */
  function NextPageParam(lastPage: FetchUsersResponse): Option<int>
  {
    if lastPage.nextPage <= lastPage.totalPages then Some(lastPage.nextPage) else None
  }

  /** A page count is never larger than the number of items it covers. */
  lemma CeilDivAtMost(n: nat, d: int)
    requires d >= 1
    ensures CeilDiv(n, d) <= n
  {
    var r := CeilDiv(n, d);
    if r > n {
      MulMonotone(n, r - 1, d);
      MulMonotone(1, d, n);
      assert false;
    }
  }

  /** The pages react-query loads when it starts at `page` and keeps following
      `getNextPageParam`, each one the response `fetchUsers` gives. */
  function LoadFrom(matching: seq<User>, limit: int, page: int): seq<FetchUsersResponse>
    requires page >= 1 && limit >= 1
    decreases |matching| - page
  {
    var response := PageResponse(matching, page, limit);
    CeilDivAtMost(|matching|, limit);
    match NextPageParam(response)
    case Some(next) => [response] + LoadFrom(matching, limit, next)
    case None => [response]
  }

  /** Every page loaded from the initial page parameter 1. */
  function LoadAll(users: seq<User>, props: UseUsersProps): seq<FetchUsersResponse>
    requires LimitOf(props) >= 1
  {
    LoadFrom(Matching(users, props), LimitOf(props), 1)
  }

  /** The page a loaded response belongs to. */
  function PageNumber(r: FetchUsersResponse): int { r.nextPage - 1 }

  /** Starting at `page`, the loaded pages are `page, page + 1, …` up to the last
      page (just `page` when it is already past the last one), each the page
      `fetchUsers` returns for its number. */
  lemma {:induction false} LoadFromPages(matching: seq<User>, limit: int, page: int)
    requires page >= 1 && limit >= 1
    ensures |LoadFrom(matching, limit, page)| == Max(1, CeilDiv(|matching|, limit) - page + 1)
    ensures forall i :: 0 <= i < |LoadFrom(matching, limit, page)| ==>
      LoadFrom(matching, limit, page)[i] == PageResponse(matching, page + i, limit)
    decreases |matching| - page
  {
    var response := PageResponse(matching, page, limit);
    CeilDivAtMost(|matching|, limit);
    if response.nextPage <= response.totalPages {
      LoadFromPages(matching, limit, page + 1);
      var rest := LoadFrom(matching, limit, page + 1);
      var whole := LoadFrom(matching, limit, page);
      assert whole == [response] + rest;
      forall i | 0 <= i < |whole|
        ensures whole[i] == PageResponse(matching, page + i, limit)
      {
        if i > 0 {
          assert whole[i] == rest[i - 1];
        }
      }
    }
  }

  /** The infinite list fetches pages 1, 2, … in strictly increasing order, never
      past `max(1, totalPages)`, and no page twice. */
  lemma PageWalk(users: seq<User>, props: UseUsersProps)
    requires LimitOf(props) >= 1
    ensures |LoadAll(users, props)| == Max(1, CeilDiv(|Matching(users, props)|, LimitOf(props)))
    ensures forall i :: 0 <= i < |LoadAll(users, props)| ==> PageNumber(LoadAll(users, props)[i]) == i + 1
    ensures forall i, j :: 0 <= i < j < |LoadAll(users, props)| ==>
      PageNumber(LoadAll(users, props)[i]) < PageNumber(LoadAll(users, props)[j])
  {
    LoadFromPages(Matching(users, props), LimitOf(props), 1);
  }

  /** Each loaded page is the response `fetchUsers` gives for its page number. */
  lemma LoadAllFetches(users: seq<User>, props: UseUsersProps, i: int)
    requires LimitOf(props) >= 1 && 0 <= i < |LoadAll(users, props)|
    ensures LoadAll(users, props)[i] == FetchUsers(users, i + 1, props)
  {
    LoadFromAt(Matching(users, props), LimitOf(props), i);
  }

  lemma LoadFromAt(matching: seq<User>, limit: int, i: int)
    requires limit >= 1 && 0 <= i < |LoadFrom(matching, limit, 1)|
    ensures LoadFrom(matching, limit, 1)[i] == PageResponse(matching, i + 1, limit)
  {
    LoadFromPages(matching, limit, 1);
  }

  /** `pages.flatMap(page => page.data)`. */
  function Flatten(pages: seq<FetchUsersResponse>): seq<User>
  {
    if pages == [] then [] else pages[0].data + Flatten(pages[1..])
  }

  /** Total number of users held by the pages. */
  function TotalLength(pages: seq<FetchUsersResponse>): nat
  {
    if pages == [] then 0 else |pages[0].data| + TotalLength(pages[1..])
  }

  /** The flattened list is the pages' data one after another: it grows by
      exactly the data of each newly loaded page. */
  lemma {:induction false} FlattenAppend(a: seq<FetchUsersResponse>, b: seq<FetchUsersResponse>)
    ensures Flatten(a + b) == Flatten(a) + Flatten(b)
  {
    if a == [] {
      assert a + b == b;
    } else {
      var ab := a + b;
      assert ab[0] == a[0] && ab[1..] == a[1..] + b;
      FlattenAppend(a[1..], b);
      assert Flatten(ab) == a[0].data + (Flatten(a[1..]) + Flatten(b));
    }
  }

  lemma {:induction false} FlattenLength(pages: seq<FetchUsersResponse>)
    ensures |Flatten(pages)| == TotalLength(pages)
  {
    if pages != [] {
      FlattenLength(pages[1..]);
    }
  }

  /** The arithmetic of one step of the walk over `count` matching items. */
  lemma WalkStep(count: nat, limit: int, page: int)
    requires limit >= 1 && page >= 1 && (page == 1 || page <= CeilDiv(count, limit))
    ensures 0 <= Offset(page, limit) <= count
    ensures page + 1 <= CeilDiv(count, limit) ==> Offset(page + 1, limit) < count
    ensures page + 1 > CeilDiv(count, limit) ==> count <= Offset(page + 1, limit)
  {
    var t := CeilDiv(count, limit);
    MulMonotone(0, page - 1, limit);
    if page > 1 {
      MulMonotone(page - 1, t - 1, limit);
    }
    if page + 1 <= t {
      MulMonotone(page, t - 1, limit);
    } else {
      MulMonotone(t, page, limit);
    }
  }

  /** A page that ends before the last item is the full window of `limit` items. */
  lemma InnerPage<T>(m: seq<T>, page: int, limit: int)
    requires page >= 1 && limit >= 1 && 0 <= Offset(page, limit) && Offset(page + 1, limit) < |m|
    ensures Offset(page, limit) <= Offset(page + 1, limit)
    ensures Paginate(m, page, limit) == m[Offset(page, limit)..Offset(page + 1, limit)]
  {
    assert Offset(page, limit) + limit == Offset(page + 1, limit);
  }

  /** A page that reaches the last item holds everything from its start on. */
  lemma LastPage<T>(m: seq<T>, page: int, limit: int)
    requires page >= 1 && limit >= 1 && 0 <= Offset(page, limit) <= |m| <= Offset(page + 1, limit)
    ensures Paginate(m, page, limit) == m[Offset(page, limit)..]
  {
    assert Offset(page, limit) + limit == Offset(page + 1, limit);
  }

  /** Pages `page, page + 1, …` up to the last one, each the response for its
      number, hold the matching users from that page's first index on. */
  lemma {:induction false} FlattenPages(pages: seq<FetchUsersResponse>, matching: seq<User>, limit: int, page: int)
    requires page >= 1 && limit >= 1
    requires page == 1 || page <= CeilDiv(|matching|, limit)
    requires |pages| == Max(1, CeilDiv(|matching|, limit) - page + 1)
    requires forall i :: 0 <= i < |pages| ==> pages[i] == PageResponse(matching, page + i, limit)
    ensures 0 <= Offset(page, limit) <= |matching|
    ensures Flatten(pages) == matching[Offset(page, limit)..]
    decreases |pages|
  {
    WalkStep(|matching|, limit, page);
    if page + 1 <= CeilDiv(|matching|, limit) {
      var rest := pages[1..];
      assert forall i :: 0 <= i < |rest| ==> rest[i] == pages[i + 1];
      FlattenPages(rest, matching, limit, page + 1);
      InnerPage(matching, page, limit);
      Glue(pages, matching, Offset(page, limit), Offset(page + 1, limit));
    } else {
      LastPage(matching, page, limit);
      Glue(pages, matching, Offset(page, limit), |matching|);
    }
  }

  /** A first page holding `m[a..b]` followed by pages holding `m[b..]` hold `m[a..]`. */
  lemma Glue(pages: seq<FetchUsersResponse>, m: seq<User>, a: int, b: int)
    requires 0 <= a <= b <= |m|
    requires pages != [] && pages[0].data == m[a..b] && Flatten(pages[1..]) == m[b..]
    ensures Flatten(pages) == m[a..]
  {
    assert m[a..b] + m[b..] == m[a..];
  }

  /** Following the walk from page 1 to its end loads every item of the list, in order. */
  lemma LoadFromIsMatching(matching: seq<User>, limit: int)
    requires limit >= 1
    ensures Flatten(LoadFrom(matching, limit, 1)) == matching
  {
    LoadFromPages(matching, limit, 1);
    FlattenPages(LoadFrom(matching, limit, 1), matching, limit, 1);
  }

  /** Once every page is loaded, `users` is exactly the users matching the
      hook's filters, in the server's order. */
  lemma LoadAllIsMatching(users: seq<User>, props: UseUsersProps)
    requires LimitOf(props) >= 1
    ensures Flatten(LoadAll(users, props)) == Matching(users, props)
  {
    LoadFromIsMatching(Matching(users, props), LimitOf(props));
  }
}
