/** The production `/api/users` handler of server/src/index.ts: query parameters
    with defaults, a case-insensitive name search, an all-of hobby filter, an
    any-of nationality filter, and one page of the survivors. */
module UserQuery {
  import opened Seqs
  import opened Text
  import opened UserModel

  const DefaultPage: int := 1
  const DefaultLimit: int := 20

  /** The query string as received: every parameter may be missing. */
  datatype RawQuery = RawQuery(
    page: Option<int>,
    limit: Option<int>,
    search: Option<string>,
    hobbies: Option<string>,
    nationalities: Option<string>)

  /** The parameters after defaults and parsing. */
  datatype Params = Params(
    page: int,
    limit: int,
    search: string,
    hobbies: seq<string>,
    nationalities: seq<string>)

  /** The JSON body `{ data, total, page, totalPages }`. */
  datatype UsersPage = UsersPage(data: seq<User>, total: nat, page: int, totalPages: nat)

  function Min(a: int, b: int): int { if a <= b then a else b }
  function Max(a: int, b: int): int { if a >= b then a else b }

  /** Index of the first item of a page. */
  function Offset(page: int, limit: int): int { (page - 1) * limit }

  /** Items on a page: `min(limit, max(0, total - (page - 1) * limit))`. */
  function PageLength(total: int, page: int, limit: int): int { Min(limit, Max(0, total - Offset(page, limit))) }

  /** `Number(x) || fallback`: a missing or zero parameter takes the fallback. */
  function NumberOr(raw: Option<int>, fallback: int): (r: int)
    requires fallback != 0
    ensures r != 0
    ensures raw.Some? && raw.value != 0 ==> r == raw.value
    ensures raw.None? || raw.value == 0 ==> r == fallback
  {
    match raw
    case Some(n) => if n != 0 then n else fallback
    case None => fallback
  }

  /** `raw?.split(',').filter(Boolean) || []`: the non-empty comma-separated segments. */
  function ParseList(raw: Option<string>): (r: seq<string>)
    ensures forall i :: 0 <= i < |r| ==> r[i] != "" && ',' !in r[i]
    ensures raw.None? ==> r == []
  {
    match raw
    case Some(s) => DropEmpty(Split(s, ','))
    case None => []
  }

  function Resolve(q: RawQuery): Params
  {
    Params(
      NumberOr(q.page, DefaultPage),
      NumberOr(q.limit, DefaultLimit),
      match q.search case Some(s) => Lower(s) case None => "",
      ParseList(q.hobbies),
      ParseList(q.nationalities))
  }

  /** The lowercased search string occurs in the lowercased first or last name. */
  predicate MatchesSearch(u: User, search: string)
  {
    Contains(Lower(u.firstName), search) || Contains(Lower(u.lastName), search)
  }

  predicate HasAllHobbies(u: User, hobbies: seq<string>)
  {
    forall i :: 0 <= i < |hobbies| ==> hobbies[i] in u.hobbies
  }

  predicate HasAnyNationality(u: User, nationalities: seq<string>)
  {
    u.nationality in nationalities
  }

  /** The test of each stage, true for every user when the stage is switched off. */
  predicate SearchOk(search: string, u: User) { search != "" ==> MatchesSearch(u, search) }
  predicate HobbiesOk(hobbies: seq<string>, u: User) { hobbies != [] ==> HasAllHobbies(u, hobbies) }
  predicate NationalityOk(nationalities: seq<string>, u: User) { nationalities != [] ==> HasAnyNationality(u, nationalities) }

  /** One-pass reference for the staged filters: a user passes every filter that is switched on. */
  predicate Accepts(p: Params, u: User)
  {
    SearchOk(p.search, u) && HobbiesOk(p.hobbies, u) && NationalityOk(p.nationalities, u)
  }

  function BySearch(users: seq<User>, search: string): seq<User>
  {
    if search != "" then Filter(users, (u: User) => MatchesSearch(u, search)) else users
  }

  function ByHobbies(users: seq<User>, hobbies: seq<string>): seq<User>
  {
    if |hobbies| > 0 then Filter(users, (u: User) => HasAllHobbies(u, hobbies)) else users
  }

  function ByNationalities(users: seq<User>, nationalities: seq<string>): seq<User>
  {
    if |nationalities| > 0 then Filter(users, (u: User) => HasAnyNationality(u, nationalities)) else users
  }

  /** The staged filtering of the handler; each filter runs only when its parameter is set. */
  function Filtered(users: seq<User>, p: Params): seq<User>
  {
    ByNationalities(ByHobbies(BySearch(users, p.search), p.hobbies), p.nationalities)
  }

  lemma SearchStage(users: seq<User>, search: string)
    ensures BySearch(users, search) == Filter(users, (u: User) => SearchOk(search, u))
  {
    if search != "" {
      FilterExt(users, (u: User) => MatchesSearch(u, search), (u: User) => SearchOk(search, u));
    } else {
      FilterKeepsAll(users, (u: User) => SearchOk(search, u));
    }
  }

  lemma HobbyStage(users: seq<User>, hobbies: seq<string>)
    ensures ByHobbies(users, hobbies) == Filter(users, (u: User) => HobbiesOk(hobbies, u))
  {
    if |hobbies| > 0 {
      FilterExt(users, (u: User) => HasAllHobbies(u, hobbies), (u: User) => HobbiesOk(hobbies, u));
    } else {
      FilterKeepsAll(users, (u: User) => HobbiesOk(hobbies, u));
    }
  }

  lemma NationalityStage(users: seq<User>, nationalities: seq<string>)
    ensures ByNationalities(users, nationalities) == Filter(users, (u: User) => NationalityOk(nationalities, u))
  {
    if |nationalities| > 0 {
      FilterExt(users, (u: User) => HasAnyNationality(u, nationalities), (u: User) => NationalityOk(nationalities, u));
    } else {
      FilterKeepsAll(users, (u: User) => NationalityOk(nationalities, u));
    }
  }

  /** The three staged filters equal a single filter by `Accepts`, so the result
      keeps the users' order. */
  lemma FilteredIsOneFilter(users: seq<User>, p: Params)
    ensures Filtered(users, p) == Filter(users, (u: User) => Accepts(p, u))
    ensures IsSubsequence(Filtered(users, p), users)
  {
    var s := (u: User) => SearchOk(p.search, u);
    var h := (u: User) => HobbiesOk(p.hobbies, u);
    var n := (u: User) => NationalityOk(p.nationalities, u);
    var sh := (u: User) => SearchOk(p.search, u) && HobbiesOk(p.hobbies, u);
    SearchStage(users, p.search);
    var bySearch := Filter(users, s);
    HobbyStage(bySearch, p.hobbies);
    FilterFilter(users, s, h, sh);
    var byHobby := Filter(users, sh);
    NationalityStage(byHobby, p.nationalities);
    FilterFilter(users, sh, n, (u: User) => Accepts(p, u));
    FilterIsSubsequence(users, (u: User) => Accepts(p, u));
  }

  /** A user survives the staged filters exactly when it is one of the users and `Accepts` holds. */
  lemma FilteredMembers(users: seq<User>, p: Params)
    ensures forall i :: 0 <= i < |Filtered(users, p)| ==> Filtered(users, p)[i] in users && Accepts(p, Filtered(users, p)[i])
    ensures forall i :: 0 <= i < |users| && Accepts(p, users[i]) ==> users[i] in Filtered(users, p)
    ensures forall x :: x in Filtered(users, p) ==> x in users && Accepts(p, x)
  {
    FilteredIsOneFilter(users, p);
  }

  /** Without search, hobbies or nationalities every user is returned, in order. */
  lemma NoCriteriaKeepsAll(users: seq<User>, p: Params)
    requires p.search == "" && p.hobbies == [] && p.nationalities == []
    ensures Filtered(users, p) == users
  {
  }

  /** `Math.ceil(n / d)` for a positive divisor: the least page count covering `n` items. */
  function CeilDiv(n: nat, d: int): (r: nat)
    requires d >= 1
    ensures r * d >= n
    ensures (r - 1) * d < n || r == 0
  {
    (n + d - 1) / d
  }

  lemma {:induction false} MulMonotone(a: int, b: int, d: nat)
    requires a <= b
    ensures a * d <= b * d
  {
    if d > 0 {
      MulMonotone(a, b, d - 1);
      assert a * d == a * (d - 1) + a;
      assert b * d == b * (d - 1) + b;
    }
  }

  /** `s.slice(start, start + len)`, clamped to the length as JavaScript does. */
  function Window<T>(s: seq<T>, start: int, len: int): (r: seq<T>)
    requires start >= 0 && len >= 0
    ensures |r| == Min(len, Max(0, |s| - start))
    ensures forall i :: 0 <= i < |r| ==> r[i] == s[start + i]
  {
    if start >= |s| then [] else s[start..Min(start + len, |s|)]
  }

  /** `s.slice((page - 1) * limit, (page - 1) * limit + limit)`. */
  function Paginate<T>(s: seq<T>, page: int, limit: int): (r: seq<T>)
    requires page >= 1 && limit >= 1
    ensures |r| == PageLength(|s|, page, limit)
    ensures forall i :: 0 <= i < |r| ==> r[i] == s[Offset(page, limit) + i]
  {
    MulMonotone(0, page - 1, limit);
    Window(s, Offset(page, limit), limit)
  }

  /** The first page of a list no longer than the page size is the whole list. */
  lemma FirstPageWhole<T>(s: seq<T>, limit: int)
    requires limit >= 1 && |s| <= limit
    ensures Paginate(s, 1, limit) == s
  {
    assert Offset(1, limit) == 0;
  }

  /** The response for one page of an already filtered list. */
  function PageOf(filtered: seq<User>, page: int, limit: int): UsersPage
    requires page >= 1 && limit >= 1
  {
    UsersPage(Paginate(filtered, page, limit), |filtered|, page, CeilDiv(|filtered|, limit))
  }

  /** The handler once its parameters are resolved: one page of the filtered users. */
  function Respond(users: seq<User>, p: Params): (r: UsersPage)
    requires p.page >= 1 && p.limit >= 1
    ensures r.total == |Filtered(users, p)| && r.page == p.page
    ensures r.totalPages == CeilDiv(r.total, p.limit)
    ensures r.data == Paginate(Filtered(users, p), p.page, p.limit)
    ensures |r.data| == PageLength(r.total, p.page, p.limit)
  {
    PageOf(Filtered(users, p), p.page, p.limit)
  }

  /** Every user on a page is one of the users and passes every filter that is switched on. */
  lemma RespondMembers(users: seq<User>, p: Params)
    requires p.page >= 1 && p.limit >= 1
    ensures forall x :: x in Respond(users, p).data ==> x in users && Accepts(p, x)
  {
    var f := Filtered(users, p);
    PageMembers(f, p.page, p.limit);
    FilteredMembers(users, p);
  }

  /** A page holds only items of the list it is cut from. */
  lemma PageMembers<T>(s: seq<T>, page: int, limit: int)
    requires page >= 1 && limit >= 1
    ensures forall x :: x in Paginate(s, page, limit) ==> x in s
  {
  }

  /** The `/api/users` handler: the requested page (1 by default) of the users
      that pass every filter the query switches on. */
  function HandleUsers(users: seq<User>, q: RawQuery): (r: UsersPage)
    requires NumberOr(q.page, DefaultPage) >= 1 && NumberOr(q.limit, DefaultLimit) >= 1
    ensures r.page == NumberOr(q.page, DefaultPage)
    ensures r.total == |Filtered(users, Resolve(q))|
    ensures r.totalPages == CeilDiv(r.total, NumberOr(q.limit, DefaultLimit))
    ensures r.data == Paginate(Filtered(users, Resolve(q)), r.page, NumberOr(q.limit, DefaultLimit))
    ensures |r.data| == PageLength(r.total, r.page, NumberOr(q.limit, DefaultLimit))
    ensures forall x :: x in r.data ==> x in users && Accepts(Resolve(q), x)
  {
    RespondMembers(users, Resolve(q));
    Respond(users, Resolve(q))
  }

  /** A query without parameters asks for page 1 of 20, matching everything. */
  lemma DefaultQuery(users: seq<User>)
    ensures Resolve(RawQuery(None, None, None, None, None)) == Params(1, 20, "", [], [])
    ensures HandleUsers(users, RawQuery(None, None, None, None, None)).data == users[..Min(20, |users|)]
  {
    NoCriteriaKeepsAll(users, Params(1, 20, "", [], []));
  }
}
